/** Arithmetic on bits: the chunk a byte of a file is in, and a process authentication group kept
    in two group numbers. */
module Codecs {
  import opened Common

  // ---------------------------------------------------------------- chunks of a file

  /** The length of the first chunk, and the logarithm of that of all others. */
  datatype Sizes = Sizes(first: nat, log: nat)

  function Other(s: Sizes): (r: nat)
    ensures r > 0
  {
    Pow2(s.log)
  }

  function Chunk(s: Sizes, offset: nat): nat { if offset < s.first then 0 else (offset - s.first) / Other(s) + 1 }

  function ChunkOffset(s: Sizes, offset: nat): nat {
    if offset < s.first then offset else (offset - s.first) % Other(s)
  }

  lemma RemainderIsLess(x: nat, d: nat)
    requires d > 0
    ensures x % d <= x
  {
    DivMod(x, d);
  }

  function ChunkBase(s: Sizes, offset: nat): nat {
    if offset < s.first then 0
    else (RemainderIsLess(offset - s.first, Other(s)); offset - s.first - (offset - s.first) % Other(s) + s.first)
  }

  function ChunkSize(s: Sizes, offset: nat): nat { if offset < s.first then s.first else Other(s) }

  lemma NoLess(a: nat, b: nat)
    ensures a * b >= 0
  {
  }

  function ChunkToBase(s: Sizes, chunk: nat): nat {
    if chunk == 0 then 0 else (NoLess(chunk - 1, Other(s)); s.first + (chunk - 1) * Other(s))
  }

  function ChunkToSize(s: Sizes, chunk: nat): nat { if chunk == 0 then s.first else Other(s) }

  /** The macros agree with each other on every offset. */
  lemma OffsetsAgree(s: Sizes, offset: nat)
    ensures ChunkBase(s, offset) + ChunkOffset(s, offset) == offset
    ensures ChunkOffset(s, offset) < ChunkSize(s, offset)
    ensures ChunkToBase(s, Chunk(s, offset)) == ChunkBase(s, offset)
    ensures ChunkToSize(s, Chunk(s, offset)) == ChunkSize(s, offset)
  {
    if offset >= s.first {
      DivMod(offset - s.first, Other(s));
      hide Other;
    }
  }

  lemma AtLeastOne(k: int, d: int)
    requires d >= 0
    ensures k >= 1 ==> k * d >= d
    ensures k <= -1 ==> k * d <= -d
  {
    if k >= 1 {
      assert (k - 1) * d >= 0;
    } else if k <= -1 {
      assert (-1 - k) * d >= 0;
    }
  }

  lemma DivOf(q: nat, r: nat, d: nat)
    requires r < d
    ensures (q * d + r) / d == q && (q * d + r) % d == r
  {
    DivMod(q * d + r, d);
    var p := (q * d + r) / d;
    AtLeastOne(p - q, d);
    assert (p - q) * d == p * d - q * d;
  }

  /** Chunks tile a file: each offset below a chunk's size is in that chunk and no other. */
  lemma ChunksTile(s: Sizes, chunk: nat, within: nat)
    requires within < ChunkToSize(s, chunk)
    ensures Chunk(s, ChunkToBase(s, chunk) + within) == chunk
    ensures ChunkOffset(s, ChunkToBase(s, chunk) + within) == within
    ensures ChunkToBase(s, chunk + 1) == ChunkToBase(s, chunk) + ChunkToSize(s, chunk)
  {
    if chunk > 0 {
      DivOf(chunk - 1, within, Other(s));
      hide Other;
      assert chunk * Other(s) == (chunk - 1) * Other(s) + Other(s);
    }
  }

  // ---------------------------------------------------------------- groups

  const NOPAG: int := 0xffffffff
  const GROUP_BASE: int := 0x3f00

  const HALF: nat := 0x4000

  function Low(x: nat): nat { x % HALF }
  function High(x: nat): nat { x / HALF }

  function Top(p: nat): nat { p / 0x1000_0000 }
  function Middle(p: nat): nat { p / HALF % HALF }
  function TopByte(p: nat): nat { p / 0x100_0000 % 0x100 }

  function Group(low: nat, high: nat): nat { low + high * HALF }

  function Packed(top: nat, middle: nat, low: nat): nat { top * 0x1000_0000 + middle * HALF + low }

  /** Fourteen bits to a group, and the top bits shared between the two in base three. */
  function GroupsFromPag(pag: nat): (g: (int, int)) {
    var p := pag % 0x8000_0000;
    (Group(Middle(p), Top(p) / 3) + GROUP_BASE, Group(Low(p), Top(p) % 3) + GROUP_BASE)
  }

  /** Unsigned subtraction wraps, so a group below the base is too large. */
  function LessBase(g: nat): nat { (g - GROUP_BASE) % 0x1_0000_0000 }

  function Joined(g0: nat, g1: nat): int {
    if g0 < 0xc000 && g1 < 0xc000 then
      var ret := Packed(High(g1) + 3 * High(g0), Low(g0), Low(g1));
      if TopByte(ret) == 0x41 then ret else NOPAG
    else NOPAG
  }

  function PagFromGroups(g0a: nat, g1a: nat): int
    requires g0a < 0x1_0000_0000 && g1a < 0x1_0000_0000
  {
    Joined(LessBase(g0a), LessBase(g1a))
  }

  lemma WithBase(g: nat)
    requires g < 0xc000
    ensures LessBase(g + GROUP_BASE) == g
  {
  }

  lemma BaseBack(g: nat)
    requires g < 0x1_0000_0000 && LessBase(g) < 0xc000
    ensures LessBase(g) + GROUP_BASE == g
  {
  }

  lemma GroupParts(low: nat, high: nat)
    requires low < HALF
    ensures Low(Group(low, high)) == low && High(Group(low, high)) == high
  {
  }

  lemma PartsOfGroup(g: nat)
    requires g < 0xc000
    ensures Group(Low(g), High(g)) == g && Low(g) < HALF && High(g) < 3
  {
  }

  lemma PackedParts(top: nat, middle: nat, low: nat)
    requires middle < HALF && low < HALF
    ensures var p := Packed(top, middle, low); Top(p) == top && Middle(p) == middle && Low(p) == low
  {
    var p := Packed(top, middle, low);
    assert p == (top * HALF + middle) * HALF + low;
    assert p / HALF == top * HALF + middle;
    assert p / 0x1000_0000 == p / HALF / HALF;
  }

  lemma PartsOfPacked(p: nat)
    ensures Packed(Top(p), Middle(p), Low(p)) == p && Middle(p) < HALF && Low(p) < HALF
  {
    var q := p / HALF;
    assert p / 0x1000_0000 == q / HALF;
    assert p == q * HALF + p % HALF && q == q / HALF * HALF + q % HALF;
  }

  /** Below 2^32, an `A` for the top byte means 4 for the top four bits. */
  lemma TopOfA(p: nat)
    requires TopByte(p) == 0x41 && Top(p) < 16
    ensures Top(p) == 4 && p < 0x8000_0000 && p / 0x100_0000 == 0x41
  {
  }

  /** A number with `A` for its top byte survives the two groups. */
  lemma PagSurvives(pag: nat)
    requires pag / 0x100_0000 == 0x41
    ensures var g := GroupsFromPag(pag);
            0 <= g.0 < 0x1_0000_0000 && 0 <= g.1 < 0x1_0000_0000 && PagFromGroups(g.0, g.1) == pag
  {
    TopOfA(pag);
    PartsOfPacked(pag);
    GroupParts(Middle(pag), 1);
    GroupParts(Low(pag), 1);
    hide Low, High, Top, Middle, TopByte, Packed, LessBase;
    assert pag % 0x8000_0000 == pag;
    var (u, v) := (Group(Middle(pag), 1), Group(Low(pag), 1));
    assert u < 0xc000 && v < 0xc000;
    WithBase(u);
    WithBase(v);
    assert Joined(u, v) == pag;
  }

  /** Only such a number comes out of two groups, and only out of the two it is kept in. */
  lemma GroupsSurvive(g0: nat, g1: nat)
    requires g0 < 0x1_0000_0000 && g1 < 0x1_0000_0000 && PagFromGroups(g0, g1) != NOPAG
    ensures var r := PagFromGroups(g0, g1);
            0 <= r < 0x1_0000_0000 && r / 0x100_0000 == 0x41 && GroupsFromPag(r) == (g0, g1)
  {
    hide Low, High, Top, Middle, TopByte, Packed, LessBase;
    var (u, v) := (LessBase(g0), LessBase(g1));
    BaseBack(g0);
    BaseBack(g1);
    var top := High(v) + 3 * High(u);
    var r := Packed(top, Low(u), Low(v));
    assert Joined(u, v) == r && TopByte(r) == 0x41;
    PartsOfGroup(u);
    PartsOfGroup(v);
    PackedParts(top, Low(u), Low(v));
    TopOfA(r);
    hide Group, Joined;
    assert High(u) == 1 && High(v) == 1;
    assert r % 0x8000_0000 == r;
  }
}
