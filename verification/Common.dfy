/** What several parts of the cache manager have in common. */
module Common {

  datatype Option<T> = None | Some(value: T)

  function Pow2(k: nat): (r: nat)
    ensures r >= 1
  {
    if k == 0 then 1 else 2 * Pow2(k - 1)
  }

  lemma DivMod(x: nat, d: nat)
    requires d > 0
    ensures x == x / d * d + x % d && x % d < d
  {
  }

  /** The hash of a name, in unsigned 32-bit arithmetic: each character is added to 173 times what
      there was. */
  function HashFrom(name: seq<int>, h: nat): (r: nat)
    requires h < 0x1_0000_0000
    ensures r < 0x1_0000_0000
  {
    if name == [] then h else HashFrom(name[1..], (h * 173 + name[0]) % 0x1_0000_0000)
  }
}
