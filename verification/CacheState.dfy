/** The disk cache's slot table as a value: two families of hash chains, the free and the
    discard list, and the block accounting, with the elementary changes the cache routines
    are made of.  Each change is shown to keep the table's invariant. */
module CacheState {
  import opened Common
  import opened SlotChains

  datatype Fid = Fid(cell: int, volume: int, vnode: int, unique: int)

  /** What is known of a slot: its cache-info record, its split-cache bucket, its copy of the
      unique number for quick comparison, and the two list flags. */
  datatype Entry = Entry(fid: Fid, chunk: int, chunkBytes: nat, bucket: nat,
                         unique: int, free: bool, discarded: bool)

  /** Heads and counts of the free and the discard list. */
  datatype Ends = Ends(free: int, freeCount: int, discard: int, discardCount: int)

  /** 1K blocks in use, among them those on the discard list, and their split by bucket. */
  datatype Usage = Usage(used: int, discarded: int, buckets: seq<int>)

  /** Where a slot is.  A held slot is in the hands of a routine between two lists. */
  datatype Place = Uninit | Free | Discarded | Hashed | Held

  /** `mask` is the fragment size of the underlying file system less one. */
  datatype Config = Config(hashSize: nat, files: nat, mask: nat, split: bool)

  // ---------------------------------------------------------------- block rounding

  /** x ^ mask, for a mask of low-order one bits: the low bits of x are complemented. */
  function XorMask(x: nat, mask: nat): nat {
    x - x % (mask + 1) + (mask - x % (mask + 1))
  }

  /** The 1K blocks charged for a chunk of this many bytes. */
  function Blocks(mask: nat, bytes: nat): nat {
    XorMask(bytes + mask, mask) / 1024
  }

  lemma NoBytesNoBlocks(mask: nat)
    ensures Blocks(mask, 0) == 0
  {
    assert mask % (mask + 1) == mask;
  }

  function RoundUp(n: nat, unit: nat): nat
    requires unit > 0
  {
    (n + unit - 1) / unit * unit
  }

  lemma {:induction false} Pow2Split(k: nat, m: nat)
    requires m <= k
    ensures Pow2(k) == Pow2(k - m) * Pow2(m)
  {
    if m > 0 {
      Pow2Split(k, m - 1);
      assert Pow2(k - m + 1) == 2 * Pow2(k - m);
      assert 2 * Pow2(k - m) * Pow2(m - 1) == Pow2(k - m) * (2 * Pow2(m - 1));
    }
  }

  lemma Kilo()
    ensures Pow2(10) == 1024
  {
    assert Pow2(5) == 32;
  }

  lemma WholeUnits(n: nat, unit: nat) returns (q: nat)
    requires unit > 0
    ensures RoundUp(n, unit) == q * unit
  {
    q := (n + unit - 1) / unit;
  }

  /** The blocks charged for n bytes when a fragment is 2^k bytes. */
  function Charged(k: nat, n: nat): nat { Blocks(Pow2(k) - 1, n) }

  /** The exclusive or adds less than a fragment to the rounded length. */
  lemma ChargedOfRounded(k: nat, n: nat) returns (r: nat)
    ensures r < Pow2(k) && Charged(k, n) == (RoundUp(n, Pow2(k)) + r) / 1024
  {
    var unit := Pow2(k);
    hide Pow2;
    DivMod(n + unit - 1, unit);
    r := unit - 1 - (n + unit - 1) % unit;
    assert XorMask(n + (unit - 1), unit - 1) == RoundUp(n, unit) + r;
  }

  lemma SmallUnitRounds(units: nat, unit: nat, q: nat, r: nat)
    requires unit > 0 && units * unit == 1024 && r < unit
    ensures (q * unit + r) / 1024 == q * unit / 1024
  {
    var a, b := QuotientOf(q, units);
    Regrouped(q, units, unit, a, b);
    PartOfUnits(units, unit, b);
    SameThousand(q * unit, a, b * unit, r);
  }

  lemma QuotientOf(q: nat, d: nat) returns (a: nat, b: nat)
    requires d > 0
    ensures q == a * d + b && b < d
  {
    a, b := q / d, q % d;
  }

  lemma SameThousand(x: nat, a: nat, rest: int, r: nat)
    requires x == a * 1024 + rest && 0 <= rest && rest + r < 1024
    ensures (x + r) / 1024 == x / 1024
  {
  }

  lemma Regrouped(q: nat, units: nat, unit: nat, a: nat, b: nat)
    requires q == a * units + b && units * unit == 1024
    ensures q * unit == a * 1024 + b * unit
  {
    assert (a * units) * unit == a * (units * unit);
    assert (a * units + b) * unit == (a * units) * unit + b * unit;
  }

  lemma PartOfUnits(units: nat, unit: nat, b: nat)
    requires unit > 0 && units * unit == 1024 && b < units
    ensures 0 <= b * unit <= 1024 - unit
  {
    var d: nat := units - 1 - b;
    assert (b + d + 1) * unit == b * unit + d * unit + unit;
  }

  lemma FirstByte(k: nat)
    ensures Charged(k, 1) == (Pow2(k) + (Pow2(k) - 1)) / 1024
    ensures RoundUp(1, Pow2(k)) == Pow2(k)
  {
    var unit := Pow2(k);
    assert unit % unit == 0 && unit / unit == 1;
  }

  lemma LargeUnit(k: nat)
    requires k > 10
    ensures Pow2(k) >= 2048 && Pow2(k) % 1024 == 0
  {
    Pow2Split(k, 10);
    Kilo();
    assert Pow2(k - 10) == 2 * Pow2(k - 11);
  }

  lemma SmallUnitCharged(k: nat, n: nat)
    requires k <= 10
    ensures Charged(k, n) == RoundUp(n, Pow2(k)) / 1024
  {
    hide Pow2, Charged, RoundUp;
    var r := ChargedOfRounded(k, n);
    Kilo();
    Pow2Split(10, k);
    var q := WholeUnits(n, Pow2(k));
    SmallUnitRounds(Pow2(10 - k), Pow2(k), q, r);
  }

  /** The length charged is the length in whole fragments exactly when a fragment is no more
      than 1K: the exclusive or where a mask was meant then drops out in the shift. */
  lemma FragmentsRoundExactlyUpTo1K(k: nat)
    ensures (forall n: nat :: Charged(k, n) == RoundUp(n, Pow2(k)) / 1024) <==> k <= 10
  {
    if k <= 10 {
      forall n: nat { SmallUnitCharged(k, n); }
    } else {
      FirstByte(k);
      LargeUnit(k);
      hide Charged, RoundUp, Pow2;
      assert Charged(k, 1) != RoundUp(1, Pow2(k)) / 1024;
    }
  }

  /** It is the number of whole 1K blocks only for fragments of exactly 1K. */
  lemma BlocksRoundUpOnlyFor1K(k: nat)
    ensures (forall n: nat :: Charged(k, n) == (n + 1023) / 1024) <==> k == 10
  {
    Kilo();
    if k == 10 {
      forall n: nat ensures Charged(k, n) == (n + 1023) / 1024 {
        SmallUnitCharged(k, n);
        hide Charged;
        assert RoundUp(n, 1024) / 1024 == (n + 1023) / 1024;
      }
    } else {
      FirstByte(k);
      if k > 10 {
        LargeUnit(k);
      } else {
        Pow2Split(10, k);
        assert Pow2(10 - k) >= 2;
        assert Pow2(k) <= 512;
      }
      hide Charged, Pow2;
      assert Charged(k, 1) != (1 + 1023) / 1024;
    }
  }

  // ---------------------------------------------------------------- the table

  /** The last three components are ghost state of the table updated in place: where every slot
      is, and the lists as sequences. */
  datatype Table = Table(
    dcHeads: seq<int>, dcNext: seq<int>,
    dvHeads: seq<int>, dvNext: seq<int>,
    ends: Ends, usage: Usage,
    entries: seq<Entry>, inited: nat,
    place: seq<Place>, dcLists: seq<seq<nat>>, dvLists: seq<seq<nat>>)

  function DcHash(c: Config, fid: Fid, chunk: int): nat
    requires c.hashSize > 0
  {
    (fid.vnode + fid.volume + chunk) % c.hashSize
  }

  function DvHash(c: Config, fid: Fid): nat
    requires c.hashSize > 0
  {
    (fid.vnode + fid.volume) % c.hashSize
  }

  ghost predicate Sized(c: Config, t: Table) {
    && c.hashSize > 0
    && |t.dcHeads| == |t.dvHeads| == c.hashSize
    && |t.dcLists| == c.hashSize && |t.dvLists| == c.hashSize + 2
    && |t.dcNext| == |t.dvNext| == |t.entries| == |t.place| == c.files
    && t.inited <= c.files && |t.usage.buckets| == 3
  }

  ghost function DcHome(c: Config, p: Place, e: Entry): int
    requires c.hashSize > 0
  {
    if p == Hashed then DcHash(c, e.fid, e.chunk) else NULLIDX
  }

  /** The free and the discard list borrow the second family's links. */
  ghost function DvHome(c: Config, p: Place, e: Entry): int
    requires c.hashSize > 0
  {
    match p
    case Hashed => DvHash(c, e.fid)
    case Free => c.hashSize
    case Discarded => c.hashSize + 1
    case _ => NULLIDX
  }

  ghost function DcHomes(c: Config, t: Table): seq<int>
    requires Sized(c, t)
  {
    seq(c.files, i requires 0 <= i < c.files => DcHome(c, t.place[i], t.entries[i]))
  }

  ghost function DvHomes(c: Config, t: Table): seq<int>
    requires Sized(c, t)
  {
    seq(c.files, i requires 0 <= i < c.files => DvHome(c, t.place[i], t.entries[i]))
  }

  ghost function FreeSlots(c: Config, t: Table): seq<nat>
    requires Sized(c, t)
  {
    t.dvLists[c.hashSize]
  }

  ghost function DiscardedSlots(c: Config, t: Table): seq<nat>
    requires Sized(c, t)
  {
    t.dvLists[c.hashSize + 1]
  }

  /** Every slot is in exactly one place, and every list holds exactly the slots that belong
      on it, once each. */
  ghost predicate Placed(c: Config, t: Table)
    requires Sized(c, t)
  {
    && Family(t.dcHeads, t.dcNext, t.dcLists, DcHomes(c, t))
    && Family(t.dvHeads + [t.ends.free, t.ends.discard], t.dvNext, t.dvLists, DvHomes(c, t))
    && t.ends.freeCount == |FreeSlots(c, t)|
    && t.ends.discardCount == |DiscardedSlots(c, t)|
  }

  ghost predicate SlotOk(p: Place, e: Entry) {
    && (p == Hashed ==> e.fid.volume != 0 && e.unique == e.fid.unique)
    && (p == Free ==> e.fid.volume == 0 && e.chunkBytes == 0)
    && (p == Discarded ==> e.fid.volume == 0 && e.discarded)
    && (e.free <==> p == Free)
    && (e.discarded ==> p == Discarded || p == Held)
    && e.bucket <= 2
  }

  ghost predicate SlotsOk(c: Config, t: Table)
    requires Sized(c, t)
  {
    forall i | 0 <= i < c.files ::
      && (t.place[i] == Uninit <==> t.inited <= i)
      && SlotOk(t.place[i], t.entries[i])
  }

  /** No two hashed slots hold the same chunk of the same file.  An entry zapped after a failed
      fetch has unique 0 and is no longer anybody's. */
  ghost predicate OnePerChunk(c: Config, t: Table)
    requires Sized(c, t)
  {
    forall i, j | 0 <= i < j < c.files && t.place[i] == Hashed && t.place[j] == Hashed &&
      t.entries[i].fid == t.entries[j].fid && t.entries[i].chunk == t.entries[j].chunk ::
      t.entries[i].fid.unique == 0
  }

  ghost function BlocksOf(mask: nat, es: seq<Entry>, n: nat): nat
    requires n <= |es|
  {
    if n == 0 then 0 else BlocksOf(mask, es, n - 1) + Blocks(mask, es[n - 1].chunkBytes)
  }

  ghost function BlocksOn(mask: nat, es: seq<Entry>, s: seq<nat>): nat
    requires forall k | 0 <= k < |s| :: s[k] < |es|
  {
    if s == [] then 0 else Blocks(mask, es[s[0]].chunkBytes) + BlocksOn(mask, es, s[1..])
  }

  ghost predicate OnTable(c: Config, t: Table, s: seq<nat>)
  {
    forall k | 0 <= k < |s| :: s[k] < |t.entries|
  }

  /** Block conservation. */
  ghost predicate Accounted(c: Config, t: Table)
    requires Sized(c, t) && OnTable(c, t, DiscardedSlots(c, t))
  {
    && t.usage.used == BlocksOf(c.mask, t.entries, t.inited)
    && t.usage.discarded == BlocksOn(c.mask, t.entries, DiscardedSlots(c, t))
    && (c.split ==> t.usage.buckets[0] + t.usage.buckets[1] + t.usage.buckets[2] == t.usage.used)
  }

  lemma ListedSlots(c: Config, t: Table)
    requires Sized(c, t) && Placed(c, t)
    ensures OnTable(c, t, DiscardedSlots(c, t)) && OnTable(c, t, FreeSlots(c, t))
  {
    forall k | 0 <= k < |FreeSlots(c, t)| ensures FreeSlots(c, t)[k] < c.files {
      assert FreeSlots(c, t)[k] in t.dvLists[c.hashSize];
    }
    forall k | 0 <= k < |DiscardedSlots(c, t)| ensures DiscardedSlots(c, t)[k] < c.files {
      assert DiscardedSlots(c, t)[k] in t.dvLists[c.hashSize + 1];
    }
  }

  ghost predicate Inv(c: Config, t: Table) {
    && Sized(c, t) && Placed(c, t) && SlotsOk(c, t)
    && OnTable(c, t, DiscardedSlots(c, t)) && Accounted(c, t)
  }

  // ---------------------------------------------------------------- sums

  lemma {:induction false} BlocksOfUpdate(mask: nat, es: seq<Entry>, n: nat, i: nat, e: Entry)
    requires n <= |es| && i < |es|
    ensures BlocksOf(mask, es[i := e], n) == BlocksOf(mask, es, n) +
            (if i < n then Blocks(mask, e.chunkBytes) as int - Blocks(mask, es[i].chunkBytes) else 0)
  {
    if n > 0 {
      BlocksOfUpdate(mask, es, n - 1, i, e);
      if i >= n {
        assert es[i := e][n - 1] == es[n - 1];
      }
    }
  }

  lemma {:induction false} BlocksOnUpdate(mask: nat, es: seq<Entry>, s: seq<nat>, i: nat, e: Entry)
    requires (forall k | 0 <= k < |s| :: s[k] < |es|) && i < |es|
    requires i !in s || e.chunkBytes == es[i].chunkBytes
    ensures BlocksOn(mask, es[i := e], s) == BlocksOn(mask, es, s)
  {
    if s != [] {
      assert i in s[1..] ==> i in s;
      assert s[0] in s;
      BlocksOnUpdate(mask, es, s[1..], i, e);
    }
  }

  /** If blocks are discarded there is a slot that holds them. */
  lemma DiscardedSomewhere(c: Config, t: Table)
    requires Inv(c, t) && t.usage.discarded != 0
    ensures DiscardedSlots(c, t) != [] && t.ends.discard != NULLIDX
  {
    assert (t.dvHeads + [t.ends.free, t.ends.discard])[c.hashSize + 1] == t.ends.discard;
  }

  // ---------------------------------------------------------------- elementary changes

  /** A hashed slot is on the chains of its two hashes. */
  lemma OnBothChains(c: Config, t: Table, i: nat)
    requires Inv(c, t) && i < c.files && t.place[i] == Hashed
    ensures var (b, v) := (DcHash(c, t.entries[i].fid, t.entries[i].chunk), DvHash(c, t.entries[i].fid));
            && i in t.dcLists[b] && Linked(t.dcNext, t.dcHeads[b], t.dcLists[b]) && NoDup(t.dcLists[b])
            && i in t.dvLists[v] && Linked(t.dvNext, t.dvHeads[v], t.dvLists[v]) && NoDup(t.dvLists[v])
  {
    var (b, v) := (DcHash(c, t.entries[i].fid, t.entries[i].chunk), DvHash(c, t.entries[i].fid));
    assert DcHomes(c, t)[i] == b && DvHomes(c, t)[i] == v;
    assert (t.dvHeads + [t.ends.free, t.ends.discard])[v] == t.dvHeads[v];
  }

  /** A chunk-hash chain holds exactly the hashed slots of its bucket. */
  lemma DcChain(c: Config, t: Table, b: nat)
    requires Inv(c, t) && b < c.hashSize
    ensures Linked(t.dcNext, t.dcHeads[b], t.dcLists[b]) && NoDup(t.dcLists[b])
    ensures forall i: nat :: i in t.dcLists[b] <==>
              i < c.files && t.place[i] == Hashed && DcHash(c, t.entries[i].fid, t.entries[i].chunk) == b
    ensures forall i | 0 <= i < c.files && t.place[i] == Hashed :: t.entries[i].unique == t.entries[i].fid.unique
  {
    assert |DcHomes(c, t)| == c.files;
    forall i: nat ensures i in t.dcLists[b] <==>
              i < c.files && t.place[i] == Hashed && DcHash(c, t.entries[i].fid, t.entries[i].chunk) == b
    {
      if i < c.files {
        assert DcHomes(c, t)[i] == DcHome(c, t.place[i], t.entries[i]);
      }
    }
  }

  /** And so does a file-hash chain. */
  lemma DvChain(c: Config, t: Table, b: nat)
    requires Inv(c, t) && b < c.hashSize
    ensures Linked(t.dvNext, t.dvHeads[b], t.dvLists[b]) && NoDup(t.dvLists[b])
    ensures forall i: nat :: i in t.dvLists[b] <==>
              i < c.files && t.place[i] == Hashed && DvHash(c, t.entries[i].fid) == b
    ensures forall i | 0 <= i < c.files && t.place[i] == Hashed :: t.entries[i].unique == t.entries[i].fid.unique
  {
    assert (t.dvHeads + [t.ends.free, t.ends.discard])[b] == t.dvHeads[b];
    assert |DvHomes(c, t)| == c.files;
    forall i: nat ensures i in t.dvLists[b] <==>
              i < c.files && t.place[i] == Hashed && DvHash(c, t.entries[i].fid) == b
    {
      if i < c.files {
        assert DvHomes(c, t)[i] == DvHome(c, t.place[i], t.entries[i]);
      }
    }
  }

  /** Off both hash chains. */
  ghost function Unhashed(c: Config, t: Table, i: nat): Table
    requires Inv(c, t) && i < c.files && t.place[i] == Hashed
  {
    var e := t.entries[i];
    var (b, v) := (DcHash(c, e.fid, e.chunk), DvHash(c, e.fid));
    assert DcHomes(c, t)[i] == b && DvHomes(c, t)[i] == v;
    var (k, m) := (Position(t.dcLists[b], i), Position(t.dvLists[v], i));
    assert k > 0 ==> t.dcLists[b][k - 1] in t.dcLists[b];
    assert m > 0 ==> t.dvLists[v][m - 1] in t.dvLists[v];
    t.(dcHeads := HeadsWithout(t.dcHeads, t.dcNext, t.dcLists, b, k),
       dcNext := NextWithout(t.dcNext, t.dcLists[b], k),
       dcLists := t.dcLists[b := Removed(t.dcLists[b], k)],
       dvHeads := HeadsWithout(t.dvHeads, t.dvNext, t.dvLists, v, m),
       dvNext := NextWithout(t.dvNext, t.dvLists[v], m),
       dvLists := t.dvLists[v := Removed(t.dvLists[v], m)],
       place := t.place[i := Held])
  }

  ghost function Rehashed(c: Config, t: Table, i: nat): Table
    requires Sized(c, t) && i < c.files
  {
    var e := t.entries[i];
    var (b, v) := (DcHash(c, e.fid, e.chunk), DvHash(c, e.fid));
    t.(dcHeads := t.dcHeads[b := i],
       dcNext := t.dcNext[i := t.dcHeads[b]],
       dcLists := t.dcLists[b := [i] + t.dcLists[b]],
       dvHeads := t.dvHeads[v := i],
       dvNext := t.dvNext[i := t.dvHeads[v]],
       dvLists := t.dvLists[v := [i] + t.dvLists[v]],
       place := t.place[i := Hashed])
  }

  ghost function PutFree(c: Config, t: Table, i: nat): Table
    requires Sized(c, t) && i < c.files
  {
    t.(dvNext := t.dvNext[i := t.ends.free],
       ends := t.ends.(free := i, freeCount := t.ends.freeCount + 1),
       entries := t.entries[i := t.entries[i].(free := true)],
       place := t.place[i := Free],
       dvLists := t.dvLists[c.hashSize := [i] + t.dvLists[c.hashSize]])
  }

  ghost function PutDiscarded(c: Config, t: Table, i: nat): Table
    requires Sized(c, t) && i < c.files
  {
    var e := t.entries[i];
    t.(dvNext := t.dvNext[i := t.ends.discard],
       ends := t.ends.(discard := i, discardCount := t.ends.discardCount + 1),
       usage := t.usage.(discarded := t.usage.discarded + Blocks(c.mask, e.chunkBytes)),
       entries := t.entries[i := e.(fid := e.fid.(volume := 0), discarded := true)],
       place := t.place[i := Discarded],
       dvLists := t.dvLists[c.hashSize + 1 := [i] + t.dvLists[c.hashSize + 1]])
  }

  ghost function TakeFree(c: Config, t: Table): Table
    requires Sized(c, t) && FreeSlots(c, t) != [] && FreeSlots(c, t)[0] < c.files
  {
    var i := FreeSlots(c, t)[0];
    t.(ends := t.ends.(free := t.dvNext[i], freeCount := t.ends.freeCount - 1),
       entries := t.entries[i := t.entries[i].(free := false)],
       place := t.place[i := Held],
       dvLists := t.dvLists[c.hashSize := t.dvLists[c.hashSize][1..]])
  }

  ghost function TakeDiscarded(c: Config, t: Table): Table
    requires Sized(c, t) && DiscardedSlots(c, t) != [] && DiscardedSlots(c, t)[0] < c.files
  {
    var i := DiscardedSlots(c, t)[0];
    t.(ends := t.ends.(discard := t.dvNext[i], discardCount := t.ends.discardCount - 1),
       usage := t.usage.(discarded := t.usage.discarded - Blocks(c.mask, t.entries[i].chunkBytes)),
       place := t.place[i := Held],
       dvLists := t.dvLists[c.hashSize + 1 := t.dvLists[c.hashSize + 1][1..]])
  }

  /** A slot gets a new identity; its length and its bucket stay. */
  ghost function Retagged(t: Table, i: nat, fid: Fid, chunk: int): Table
    requires i < |t.entries|
  {
    t.(entries := t.entries[i := t.entries[i].(fid := fid, chunk := chunk, unique := fid.unique)])
  }

  /** The next slot of the cache-info file is taken up, with no bytes charged to it yet. */
  ghost function Begun(t: Table, e: Entry): Table
    requires t.inited < |t.entries| && t.inited < |t.place|
  {
    t.(entries := t.entries[t.inited := e.(chunkBytes := 0, free := false, discarded := false)],
       inited := t.inited + 1,
       place := t.place[t.inited := Held])
  }

  ghost function NotDiscarded(t: Table, i: nat): Table
    requires i < |t.entries|
  {
    t.(entries := t.entries[i := t.entries[i].(discarded := false)])
  }

  ghost function VolumeCleared(t: Table, i: nat): Table
    requires i < |t.entries|
  {
    t.(entries := t.entries[i := t.entries[i].(fid := t.entries[i].fid.(volume := 0))])
  }

  ghost function AddedTo(used: seq<int>, bucket: nat, n: int): (r: seq<int>)
    requires |used| == 3
    ensures |r| == 3
    ensures bucket < 3 ==> r[0] + r[1] + r[2] == used[0] + used[1] + used[2] + n
  {
    if bucket < 3 then used[bucket := used[bucket] + n] else used
  }

  ghost function Resized(c: Config, t: Table, i: nat, bytes: nat): Table
    requires Sized(c, t) && i < c.files
  {
    var d := Blocks(c.mask, bytes) - Blocks(c.mask, t.entries[i].chunkBytes);
    t.(entries := t.entries[i := t.entries[i].(chunkBytes := bytes)],
       usage := t.usage.(used := t.usage.used + d,
                         buckets := if c.split then AddedTo(t.usage.buckets, t.entries[i].bucket, d)
                                    else t.usage.buckets))
  }

  /** Moves the label, and `size` blocks with it. */
  ghost function Rebucketed(c: Config, t: Table, i: nat, size: int, bucket: nat): Table
    requires Sized(c, t) && i < c.files
  {
    if !c.split then t
    else t.(entries := t.entries[i := t.entries[i].(bucket := bucket)],
            usage := t.usage.(buckets := AddedTo(AddedTo(t.usage.buckets, t.entries[i].bucket, -size), bucket, size)))
  }

  // ---------------------------------------------------------------- each keeps the invariant

  /** Changing one slot changes its two homes and nobody else's. */
  lemma HomesAfter(c: Config, t: Table, t': Table, i: nat)
    requires Sized(c, t) && Sized(c, t') && i < c.files
    requires forall j | 0 <= j < c.files && j != i :: t'.place[j] == t.place[j] && t'.entries[j] == t.entries[j]
    ensures DcHomes(c, t') == DcHomes(c, t)[i := DcHome(c, t'.place[i], t'.entries[i])]
    ensures DvHomes(c, t') == DvHomes(c, t)[i := DvHome(c, t'.place[i], t'.entries[i])]
  {
  }

  /** An edit of one slot that moves it nowhere. */
  ghost predicate SameLists(t: Table, t': Table, i: nat) {
    && t'.dcHeads == t.dcHeads && t'.dcNext == t.dcNext && t'.dcLists == t.dcLists
    && t'.dvHeads == t.dvHeads && t'.dvNext == t.dvNext && t'.dvLists == t.dvLists
    && t'.ends == t.ends
    && |t'.entries| == |t.entries|
    && forall j | 0 <= j < |t.entries| && j != i :: t'.entries[j] == t.entries[j]
  }

  lemma EditKeepsPlaced(c: Config, t: Table, t': Table, i: nat)
    requires Sized(c, t) && Sized(c, t') && Placed(c, t) && i < c.files && SameLists(t, t', i)
    requires forall j | 0 <= j < c.files && j != i :: t'.place[j] == t.place[j]
    requires DcHome(c, t'.place[i], t'.entries[i]) == DcHome(c, t.place[i], t.entries[i])
    requires DvHome(c, t'.place[i], t'.entries[i]) == DvHome(c, t.place[i], t.entries[i])
    ensures Placed(c, t')
    ensures FreeSlots(c, t') == FreeSlots(c, t) && DiscardedSlots(c, t') == DiscardedSlots(c, t)
  {
    HomesAfter(c, t, t', i);
    assert DcHomes(c, t') == DcHomes(c, t) && DvHomes(c, t') == DvHomes(c, t);
  }

  /** An edit that leaves the length of the slot alone leaves the sums alone. */
  lemma EditKeepsAccounted(c: Config, t: Table, t': Table, i: nat)
    requires Sized(c, t) && Sized(c, t') && i < c.files
    requires OnTable(c, t, DiscardedSlots(c, t)) && Accounted(c, t)
    requires t'.entries == t.entries[i := t'.entries[i]]
    requires t'.entries[i].chunkBytes == t.entries[i].chunkBytes
    requires t'.usage == t.usage && t'.inited == t.inited && DiscardedSlots(c, t') == DiscardedSlots(c, t)
    ensures OnTable(c, t', DiscardedSlots(c, t')) && Accounted(c, t')
  {
    hide Blocks;
    BlocksOfUpdate(c.mask, t.entries, t.inited, i, t'.entries[i]);
    BlocksOnUpdate(c.mask, t.entries, DiscardedSlots(c, t), i, t'.entries[i]);
  }

  /** Only the changed slot has to be looked at again. */
  lemma EditKeepsSlotsOk(c: Config, t: Table, t': Table, i: nat)
    requires Sized(c, t) && Sized(c, t') && SlotsOk(c, t) && i < c.files
    requires t'.place == t.place[i := t'.place[i]] && t'.entries == t.entries[i := t'.entries[i]]
    requires t'.inited == t.inited || (i == t.inited && t'.inited == i + 1)
    requires SlotOk(t'.place[i], t'.entries[i]) && (t'.place[i] == Uninit <==> t'.inited <= i)
    ensures SlotsOk(c, t')
  {
  }

  /** A slot in place p is on the discard list exactly when p says so. */
  lemma OnDiscardList(c: Config, t: Table, i: nat)
    requires Sized(c, t) && Placed(c, t) && i < c.files
    ensures i in DiscardedSlots(c, t) <==> t.place[i] == Discarded
  {
    assert DvHomes(c, t)[i] == DvHome(c, t.place[i], t.entries[i]);
  }

  ghost function DvAllHeads(t: Table): seq<int> { t.dvHeads + [t.ends.free, t.ends.discard] }

  lemma UnhashPlaced(c: Config, t: Table, i: nat)
    requires Inv(c, t) && i < c.files && t.place[i] == Hashed
    ensures Sized(c, Unhashed(c, t, i)) && Placed(c, Unhashed(c, t, i))
    ensures var t' := Unhashed(c, t, i);
            && t'.entries == t.entries && t'.usage == t.usage && t'.inited == t.inited
            && t'.place == t.place[i := Held] && t'.ends == t.ends
    ensures FreeSlots(c, Unhashed(c, t, i)) == FreeSlots(c, t)
    ensures DiscardedSlots(c, Unhashed(c, t, i)) == DiscardedSlots(c, t)
  {
    hide Accounted, SlotsOk, OnTable;
    var t' := Unhashed(c, t, i);
    var e := t.entries[i];
    var (b, v) := (DcHash(c, e.fid, e.chunk), DvHash(c, e.fid));
    assert DcHomes(c, t)[i] == b && DvHomes(c, t)[i] == v;
    var (k, m) := (Position(t.dcLists[b], i), Position(t.dvLists[v], i));
    RemoveFamily(t.dcHeads, t.dcNext, t.dcLists, DcHomes(c, t), b, k);
    RemoveFamily(DvAllHeads(t), t.dvNext, t.dvLists, DvHomes(c, t), v, m);
    hide Family;
    assert DvAllHeads(t') == HeadsWithout(DvAllHeads(t), t.dvNext, t.dvLists, v, m);
    HomesAfter(c, t, t', i);
  }

  lemma UnhashInv(c: Config, t: Table, i: nat)
    requires Inv(c, t) && i < c.files && t.place[i] == Hashed
    ensures Inv(c, Unhashed(c, t, i))
    ensures FreeSlots(c, Unhashed(c, t, i)) == FreeSlots(c, t)
    ensures DiscardedSlots(c, Unhashed(c, t, i)) == DiscardedSlots(c, t)
  {
    var t' := Unhashed(c, t, i);
    UnhashPlaced(c, t, i);
    hide Unhashed, Placed, Blocks, BlocksOf, BlocksOn;
    assert SlotsOk(c, t') by { EditKeepsSlotsOk(c, t, t', i); }
    SameAccounts(c, t, t');
    hide SlotsOk, Accounted;
  }

  /** Nobody else has this chunk of this file. */
  ghost predicate Unclaimed(c: Config, t: Table, fid: Fid, chunk: int)
    requires Sized(c, t)
  {
    forall j | 0 <= j < c.files && t.place[j] == Hashed ::
      !(t.entries[j].fid == fid && t.entries[j].chunk == chunk)
  }

  lemma RehashPlaced(c: Config, t: Table, i: nat)
    requires Sized(c, t) && Placed(c, t) && i < c.files && t.place[i] == Held
    ensures Placed(c, Rehashed(c, t, i))
  {
    var t' := Rehashed(c, t, i);
    var e := t.entries[i];
    var (b, v) := (DcHash(c, e.fid, e.chunk), DvHash(c, e.fid));
    assert DcHomes(c, t)[i] == NULLIDX && DvHomes(c, t)[i] == NULLIDX;
    PushFamily(t.dcHeads, t.dcNext, t.dcLists, DcHomes(c, t), b, i);
    PushFamily(DvAllHeads(t), t.dvNext, t.dvLists, DvHomes(c, t), v, i);
    hide Family;
    assert DvAllHeads(t') == DvAllHeads(t)[v := i];
    HomesAfter(c, t, t', i);
  }

  lemma RehashInv(c: Config, t: Table, i: nat)
    requires Inv(c, t) && i < c.files && t.place[i] == Held && !t.entries[i].discarded
    requires t.entries[i].fid.volume != 0 && t.entries[i].unique == t.entries[i].fid.unique
    ensures Inv(c, Rehashed(c, t, i))
    ensures OnePerChunk(c, t) && (t.entries[i].fid.unique == 0 || Unclaimed(c, t, t.entries[i].fid, t.entries[i].chunk))
            ==> OnePerChunk(c, Rehashed(c, t, i))
    ensures FreeSlots(c, Rehashed(c, t, i)) == FreeSlots(c, t)
    ensures DiscardedSlots(c, Rehashed(c, t, i)) == DiscardedSlots(c, t)
  {
    RehashPlaced(c, t, i);
    hide Placed, Blocks;
  }

  lemma PutFreePlaced(c: Config, t: Table, i: nat)
    requires Sized(c, t) && Placed(c, t) && i < c.files && t.place[i] == Held
    ensures Placed(c, PutFree(c, t, i))
  {
    var t' := PutFree(c, t, i);
    assert DvHomes(c, t)[i] == NULLIDX;
    PushFamily(DvAllHeads(t), t.dvNext, t.dvLists, DvHomes(c, t), c.hashSize, i);
    hide Family;
    assert DvAllHeads(t') == DvAllHeads(t)[c.hashSize := i];
    HomesAfter(c, t, t', i);
    assert DcHomes(c, t') == DcHomes(c, t);
  }

  lemma PutFreeInv(c: Config, t: Table, i: nat)
    requires Inv(c, t) && i < c.files && t.place[i] == Held && !t.entries[i].discarded
    requires t.entries[i].fid.volume == 0 && t.entries[i].chunkBytes == 0
    ensures Inv(c, PutFree(c, t, i))
    ensures DiscardedSlots(c, PutFree(c, t, i)) == DiscardedSlots(c, t)
    ensures FreeSlots(c, PutFree(c, t, i)) == [i] + FreeSlots(c, t)
  {
    PutFreePlaced(c, t, i);
    EditKeepsAccounted(c, t, PutFree(c, t, i), i);
    hide Placed, Accounted;
  }

  lemma PutDiscardedPlaced(c: Config, t: Table, i: nat)
    requires Sized(c, t) && Placed(c, t) && i < c.files && t.place[i] == Held
    ensures Placed(c, PutDiscarded(c, t, i))
  {
    var t' := PutDiscarded(c, t, i);
    assert DvHomes(c, t)[i] == NULLIDX;
    PushFamily(DvAllHeads(t), t.dvNext, t.dvLists, DvHomes(c, t), c.hashSize + 1, i);
    hide Family;
    assert DvAllHeads(t') == DvAllHeads(t)[c.hashSize + 1 := i];
    HomesAfter(c, t, t', i);
    assert DcHomes(c, t') == DcHomes(c, t);
  }

  lemma PutDiscardedAccounted(c: Config, t: Table, i: nat)
    requires Sized(c, t) && Placed(c, t) && i < c.files && t.place[i] == Held
    requires OnTable(c, t, DiscardedSlots(c, t)) && Accounted(c, t)
    ensures var t' := PutDiscarded(c, t, i); OnTable(c, t', DiscardedSlots(c, t')) && Accounted(c, t')
  {
    var t' := PutDiscarded(c, t, i);
    var d := DiscardedSlots(c, t);
    OnDiscardList(c, t, i);
    hide Placed, Blocks;
    BlocksOfUpdate(c.mask, t.entries, t.inited, i, t'.entries[i]);
    BlocksOnUpdate(c.mask, t.entries, d, i, t'.entries[i]);
    assert ([i] + d)[1..] == d;
  }

  lemma PutDiscardedInv(c: Config, t: Table, i: nat)
    requires Inv(c, t) && i < c.files && t.place[i] == Held
    ensures Inv(c, PutDiscarded(c, t, i))
    ensures FreeSlots(c, PutDiscarded(c, t, i)) == FreeSlots(c, t)
    ensures DiscardedSlots(c, PutDiscarded(c, t, i)) == [i] + DiscardedSlots(c, t)
  {
    var t' := PutDiscarded(c, t, i);
    PutDiscardedPlaced(c, t, i);
    PutDiscardedAccounted(c, t, i);
    hide Placed, Accounted;
    EditKeepsSlotsOk(c, t, t', i);
    hide SlotsOk;
  }

  lemma SlotHeld(c: Config, t: Table)
    requires Inv(c, t)
    ensures forall i | 0 <= i < c.files && t.place[i] == Discarded :: t.entries[i].fid.volume == 0
  {
  }

  lemma FreeSlotsAreEmpty(c: Config, t: Table)
    requires Inv(c, t)
    ensures forall i | 0 <= i < c.files && t.place[i] == Free :: t.entries[i].chunkBytes == 0 && !t.entries[i].discarded
    ensures t.ends.free != t.ends.discard || t.ends.free == NULLIDX
  {
    var heads := t.dvHeads + [t.ends.free, t.ends.discard];
    assert heads[c.hashSize] == t.ends.free && heads[c.hashSize + 1] == t.ends.discard;
    if t.ends.free != NULLIDX && t.ends.discard != NULLIDX {
      var (f, d) := (FreeSlots(c, t), DiscardedSlots(c, t));
      assert f[0] in t.dvLists[c.hashSize] && d[0] in t.dvLists[c.hashSize + 1];
    }
  }

  lemma SlotFacts(c: Config, t: Table, i: nat)
    requires Inv(c, t) && i < c.files
    ensures SlotOk(t.place[i], t.entries[i])
  {
  }

  /** A list head is the null index exactly when its list is empty. */
  lemma FreeHead(c: Config, t: Table)
    requires Inv(c, t)
    ensures t.ends.free == NULLIDX <==> FreeSlots(c, t) == []
  {
    assert DvAllHeads(t)[c.hashSize] == t.ends.free;
  }

  lemma DiscardHead(c: Config, t: Table)
    requires Inv(c, t)
    ensures t.ends.discard == NULLIDX <==> DiscardedSlots(c, t) == []
  {
    assert DvAllHeads(t)[c.hashSize + 1] == t.ends.discard;
  }

  lemma TakeFreePlaced(c: Config, t: Table)
    requires Sized(c, t) && Placed(c, t) && FreeSlots(c, t) != [] && FreeSlots(c, t)[0] < c.files
    ensures Placed(c, TakeFree(c, t))
  {
    var s := FreeSlots(c, t);
    var t' := TakeFree(c, t);
    RemoveFamily(DvAllHeads(t), t.dvNext, t.dvLists, DvHomes(c, t), c.hashSize, 0);
    assert DvHomes(c, t)[s[0]] == c.hashSize;
    hide Family;
    assert Removed(s, 0) == s[1..];
    assert DvAllHeads(t') == HeadsWithout(DvAllHeads(t), t.dvNext, t.dvLists, c.hashSize, 0);
    HomesAfter(c, t, t', s[0]);
    assert DcHomes(c, t') == DcHomes(c, t);
  }

  lemma TakeFreeInv(c: Config, t: Table)
    requires Inv(c, t) && FreeSlots(c, t) != []
    ensures FreeSlots(c, t)[0] < c.files && t.ends.free == FreeSlots(c, t)[0]
    ensures t.place[t.ends.free] == Free
    ensures Inv(c, TakeFree(c, t))
    ensures DiscardedSlots(c, TakeFree(c, t)) == DiscardedSlots(c, t)
  {
    ListedSlots(c, t);
    var i := FreeSlots(c, t)[0];
    assert DvAllHeads(t)[c.hashSize] == t.ends.free;
    assert i in t.dvLists[c.hashSize] && DvHomes(c, t)[i] == c.hashSize;
    TakeFreePlaced(c, t);
    EditKeepsAccounted(c, t, TakeFree(c, t), i);
    hide Placed, Family, Accounted;
  }

  lemma TakeDiscardedPlaced(c: Config, t: Table)
    requires Sized(c, t) && Placed(c, t) && DiscardedSlots(c, t) != [] && DiscardedSlots(c, t)[0] < c.files
    ensures Placed(c, TakeDiscarded(c, t))
  {
    var s := DiscardedSlots(c, t);
    var t' := TakeDiscarded(c, t);
    RemoveFamily(DvAllHeads(t), t.dvNext, t.dvLists, DvHomes(c, t), c.hashSize + 1, 0);
    assert DvHomes(c, t)[s[0]] == c.hashSize + 1;
    hide Family;
    assert Removed(s, 0) == s[1..];
    assert DvAllHeads(t') == HeadsWithout(DvAllHeads(t), t.dvNext, t.dvLists, c.hashSize + 1, 0);
    HomesAfter(c, t, t', s[0]);
    assert DcHomes(c, t') == DcHomes(c, t);
  }

  lemma TakeDiscardedInv(c: Config, t: Table)
    requires Inv(c, t) && DiscardedSlots(c, t) != []
    ensures DiscardedSlots(c, t)[0] < c.files && t.ends.discard == DiscardedSlots(c, t)[0]
    ensures t.place[t.ends.discard] == Discarded
    ensures Inv(c, TakeDiscarded(c, t))
    ensures FreeSlots(c, TakeDiscarded(c, t)) == FreeSlots(c, t)
  {
    var s := DiscardedSlots(c, t);
    var i := s[0];
    assert DvAllHeads(t)[c.hashSize + 1] == t.ends.discard;
    assert i in t.dvLists[c.hashSize + 1] && DvHomes(c, t)[i] == c.hashSize + 1;
    TakeDiscardedPlaced(c, t);
    hide Placed, Family;
  }

  lemma BegunAccounted(c: Config, t: Table, e: Entry)
    requires Inv(c, t) && t.inited < c.files
    ensures var t' := Begun(t, e); OnTable(c, t', DiscardedSlots(c, t')) && Accounted(c, t')
  {
    var t' := Begun(t, e);
    OnDiscardList(c, t, t.inited);
    NoBytesNoBlocks(c.mask);
    hide Placed, Blocks;
    BlocksOfUpdate(c.mask, t.entries, t.inited, t.inited, t'.entries[t.inited]);
    BlocksOnUpdate(c.mask, t.entries, DiscardedSlots(c, t), t.inited, t'.entries[t.inited]);
  }

  lemma BegunInv(c: Config, t: Table, e: Entry)
    requires Inv(c, t) && t.inited < c.files && e.bucket <= 2
    ensures Inv(c, Begun(t, e))
    ensures FreeSlots(c, Begun(t, e)) == FreeSlots(c, t)
    ensures DiscardedSlots(c, Begun(t, e)) == DiscardedSlots(c, t)
  {
    var t' := Begun(t, e);
    EditKeepsPlaced(c, t, t', t.inited);
    BegunAccounted(c, t, e);
    hide Placed, Accounted;
    EditKeepsSlotsOk(c, t, t', t.inited);
    hide SlotsOk;
  }

  lemma RetaggedInv(c: Config, t: Table, i: nat, fid: Fid, chunk: int)
    requires Inv(c, t) && i < c.files && t.place[i] == Held
    ensures Inv(c, Retagged(t, i, fid, chunk))
    ensures FreeSlots(c, Retagged(t, i, fid, chunk)) == FreeSlots(c, t)
    ensures DiscardedSlots(c, Retagged(t, i, fid, chunk)) == DiscardedSlots(c, t)
  {
    EditKeepsPlaced(c, t, Retagged(t, i, fid, chunk), i);
    EditKeepsAccounted(c, t, Retagged(t, i, fid, chunk), i);
    hide Placed, Family, Accounted;
  }

  lemma VolumeClearedInv(c: Config, t: Table, i: nat)
    requires Inv(c, t) && i < c.files && t.place[i] == Held
    ensures Inv(c, VolumeCleared(t, i))
  {
    EditKeepsPlaced(c, t, VolumeCleared(t, i), i);
    EditKeepsAccounted(c, t, VolumeCleared(t, i), i);
    hide Placed, Family, Accounted;
  }

  lemma NotDiscardedInv(c: Config, t: Table, i: nat)
    requires Inv(c, t) && i < c.files && t.place[i] == Held
    ensures Inv(c, NotDiscarded(t, i))
    ensures FreeSlots(c, NotDiscarded(t, i)) == FreeSlots(c, t)
    ensures DiscardedSlots(c, NotDiscarded(t, i)) == DiscardedSlots(c, t)
  {
    EditKeepsPlaced(c, t, NotDiscarded(t, i), i);
    EditKeepsAccounted(c, t, NotDiscarded(t, i), i);
    hide Placed, Family, Accounted;
  }

  lemma ResizedInv(c: Config, t: Table, i: nat, bytes: nat)
    requires Inv(c, t) && i < c.files && (t.place[i] == Held || t.place[i] == Hashed)
    ensures Inv(c, Resized(c, t, i, bytes))
    ensures FreeSlots(c, Resized(c, t, i, bytes)) == FreeSlots(c, t)
    ensures DiscardedSlots(c, Resized(c, t, i, bytes)) == DiscardedSlots(c, t)
  {
    var t' := Resized(c, t, i, bytes);
    EditKeepsPlaced(c, t, t', i);
    OnDiscardList(c, t, i);
    hide Placed, Family, SameLists, AddedTo, Blocks;
    BlocksOfUpdate(c.mask, t.entries, t.inited, i, t'.entries[i]);
    BlocksOnUpdate(c.mask, t.entries, DiscardedSlots(c, t), i, t'.entries[i]);
  }

  lemma RebucketedInv(c: Config, t: Table, i: nat, size: int, bucket: nat)
    requires Inv(c, t) && i < c.files && bucket <= 2
    ensures Inv(c, Rebucketed(c, t, i, size, bucket))
    ensures FreeSlots(c, Rebucketed(c, t, i, size, bucket)) == FreeSlots(c, t)
    ensures DiscardedSlots(c, Rebucketed(c, t, i, size, bucket)) == DiscardedSlots(c, t)
  {
    var t' := Rebucketed(c, t, i, size, bucket);
    EditKeepsPlaced(c, t, t', i);
    hide Placed, Family, SameLists, AddedTo, Blocks;
    BlocksOfUpdate(c.mask, t.entries, t.inited, i, t'.entries[i]);
    BlocksOnUpdate(c.mask, t.entries, DiscardedSlots(c, t), i, t'.entries[i]);
  }

  /** Zapping a hashed slot clears its unique number where it lies: the hashes ignore it. */
  ghost function Zapped(t: Table, i: nat): Table
    requires i < |t.entries|
  {
    Retagged(t, i, t.entries[i].fid.(unique := 0), t.entries[i].chunk)
  }

  lemma ZapKeepsOnePerChunk(c: Config, t: Table, i: nat)
    requires Sized(c, t) && i < c.files && t.place[i] == Hashed
    ensures OnePerChunk(c, t) ==> OnePerChunk(c, Zapped(t, i))
  {
  }

  lemma ZappedInv(c: Config, t: Table, i: nat)
    requires Inv(c, t) && i < c.files && t.place[i] == Hashed
    ensures Inv(c, Zapped(t, i))
    ensures OnePerChunk(c, t) ==> OnePerChunk(c, Zapped(t, i))
  {
    hide OnePerChunk, Accounted, Placed;
    var t' := Zapped(t, i);
    EditKeepsPlaced(c, t, t', i);
    EditKeepsAccounted(c, t, t', i);
    ZapKeepsOnePerChunk(c, t, i);
    EditKeepsSlotsOk(c, t, t', i);
    hide SlotsOk;
  }

  /** Moving the slot at position k of a hash chain to the front of it. */
  ghost function Fronted(c: Config, t: Table, b: nat, k: nat): Table
    requires Sized(c, t) && b < c.hashSize && 0 < k < |t.dcLists[b]|
    requires t.dcLists[b][k] < c.files && t.dcLists[b][k - 1] < c.files
  {
    var i := t.dcLists[b][k];
    t.(dcHeads := t.dcHeads[b := i],
       dcNext := t.dcNext[t.dcLists[b][k - 1] := t.dcNext[i]][i := t.dcHeads[b]],
       dcLists := t.dcLists[b := [i] + Removed(t.dcLists[b], k)])
  }

  lemma SameAccounts(c: Config, t: Table, t': Table)
    requires Sized(c, t) && Sized(c, t') && OnTable(c, t, DiscardedSlots(c, t)) && Accounted(c, t)
    requires t'.entries == t.entries && t'.usage == t.usage && t'.inited == t.inited
    requires DiscardedSlots(c, t') == DiscardedSlots(c, t)
    ensures OnTable(c, t', DiscardedSlots(c, t')) && Accounted(c, t')
  {
  }

  lemma FrontedInv(c: Config, t: Table, b: nat, k: nat)
    requires Inv(c, t) && b < c.hashSize && 0 < k < |t.dcLists[b]|
    ensures t.dcLists[b][k] < c.files && t.dcLists[b][k - 1] < c.files
    ensures Inv(c, Fronted(c, t, b, k))
  {
    var (i, p) := (t.dcLists[b][k], t.dcLists[b][k - 1]);
    FrontFamily(t.dcHeads, t.dcNext, t.dcLists, DcHomes(c, t), b, k);
    hide Family, Accounted;
    var t' := Fronted(c, t, b, k);
    assert DcHomes(c, t') == DcHomes(c, t) && DvHomes(c, t') == DvHomes(c, t);
    SameAccounts(c, t, t');
  }

  lemma MoveUpFacts(c: Config, t: Table, b: nat, k: nat)
    requires Inv(c, t) && b < c.hashSize && k < |t.dcLists[b]|
    ensures k == 0 <==> t.dcHeads[b] == t.dcLists[b][k]
  {
    DcChain(c, t, b);
    if k > 0 { DistinctAt(t.dcLists[b], 0, k); }
  }

  lemma SameOnePerChunk(c: Config, t: Table, t': Table)
    requires Sized(c, t) && Sized(c, t') && t'.place == t.place && t'.entries == t.entries
    ensures OnePerChunk(c, t) ==> OnePerChunk(c, t')
  {
  }

  /** Taking a slot out of a list into one's hands makes no new claim. */
  lemma AllocKeepsOnePerChunk(c: Config, t: Table, t': Table, i: nat)
    requires Sized(c, t) && Sized(c, t') && i < c.files && t'.place == t.place[i := Held]
    requires t'.entries == t.entries[i := t'.entries[i]]
    ensures OnePerChunk(c, t) ==> OnePerChunk(c, t')
    ensures forall fid, chunk :: Unclaimed(c, t, fid, chunk) ==> Unclaimed(c, t', fid, chunk)
  {
  }

  // ---------------------------------------------------------------- split-cache counters

  ghost function BlocksIn(mask: nat, es: seq<Entry>, n: nat, bucket: nat): nat
    requires n <= |es|
  {
    if n == 0 then 0
    else BlocksIn(mask, es, n - 1, bucket) + if es[n - 1].bucket == bucket then Blocks(mask, es[n - 1].chunkBytes) else 0
  }

  /** Each split-cache counter is the blocks of the slots labelled with its bucket. */
  ghost predicate SplitExact(c: Config, t: Table)
    requires Sized(c, t)
  {
    forall b: nat | b < 3 :: t.usage.buckets[b] == BlocksIn(c.mask, t.entries, t.inited, b)
  }

  ghost function Share(mask: nat, e: Entry, bucket: nat): nat {
    if e.bucket == bucket then Blocks(mask, e.chunkBytes) else 0
  }

  lemma {:induction false} BlocksInUpdate(mask: nat, es: seq<Entry>, n: nat, i: nat, e: Entry, bucket: nat)
    requires n <= |es| && i < |es|
    ensures BlocksIn(mask, es[i := e], n, bucket) ==
            BlocksIn(mask, es, n, bucket) + (if i < n then Share(mask, e, bucket) as int - Share(mask, es[i], bucket) else 0)
  {
    hide Blocks;
    if n > 0 {
      BlocksInUpdate(mask, es, n - 1, i, e, bucket);
      if i >= n {
        assert es[i := e][n - 1] == es[n - 1];
      }
    }
  }

  lemma ResizedKeepsSplitExact(c: Config, t: Table, i: nat, bytes: nat)
    requires Sized(c, t) && SplitExact(c, t) && c.split && i < t.inited && t.entries[i].bucket < 3
    ensures Sized(c, Resized(c, t, i, bytes)) && SplitExact(c, Resized(c, t, i, bytes))
  {
    hide Blocks;
    forall b: nat | b < 3 {
      BlocksInUpdate(c.mask, t.entries, t.inited, i, t.entries[i].(chunkBytes := bytes), b);
    }
  }

  /** Moving a label keeps the counters exact if and only if all its blocks move with it. */
  lemma RebucketedKeepsSplitExact(c: Config, t: Table, i: nat, size: int, bucket: nat)
    requires Sized(c, t) && SplitExact(c, t) && c.split && i < t.inited && t.entries[i].bucket < 3 && bucket < 3
    ensures Sized(c, Rebucketed(c, t, i, size, bucket))
    ensures SplitExact(c, Rebucketed(c, t, i, size, bucket)) <==>
            t.entries[i].bucket == bucket || size == Blocks(c.mask, t.entries[i].chunkBytes)
  {
    hide Blocks;
    forall b: nat | b < 3 {
      BlocksInUpdate(c.mask, t.entries, t.inited, i, t.entries[i].(bucket := bucket), b);
    }
    var t' := Rebucketed(c, t, i, size, bucket);
    assert t'.usage.buckets[bucket] == BlocksIn(c.mask, t'.entries, t'.inited, bucket) <==>
           t.entries[i].bucket == bucket || size == Blocks(c.mask, t.entries[i].chunkBytes);
  }

  /** The counters after slot e has been taken into use again: all its blocks have gone to bucket
      0, and from there away if the file is to be empty. */
  ghost function AfterReuse(c: Config, buckets: seq<int>, e: Entry, overwrite: bool): (r: seq<int>)
    requires |buckets| == 3
    ensures |r| == 3
  {
    var n: int := Blocks(c.mask, e.chunkBytes);
    if c.split then AddedTo(AddedTo(buckets, e.bucket, -n), 0, if overwrite then 0 else n) else buckets
  }

  lemma TwoMoves(c: Config, buckets: seq<int>, e: Entry)
    requires |buckets| == 3
    ensures var n: int := Blocks(c.mask, e.chunkBytes);
            && AddedTo(AddedTo(AddedTo(buckets, e.bucket, -n), 0, n), 0, -n) == AddedTo(AddedTo(buckets, e.bucket, -n), 0, 0)
            && AddedTo(AddedTo(buckets, e.bucket, 0), 0, 0) == buckets
  {
    hide Blocks;
  }

  lemma NothingMoved(buckets: seq<int>, b: nat, b': nat)
    requires |buckets| == 3
    ensures AddedTo(AddedTo(buckets, b, 0), b', 0) == buckets
  {
  }

  lemma EmptySlotReused(c: Config, buckets: seq<int>, e: Entry, overwrite: bool)
    requires |buckets| == 3 && e.chunkBytes == 0
    ensures AfterReuse(c, buckets, e, overwrite) == buckets
  {
    NoBytesNoBlocks(c.mask);
  }

  /** One slot has changed: the counters are exact afterwards if and only if they have followed
      what the slot takes up in each bucket. */
  lemma SplitExactAfter(c: Config, t: Table, t': Table, i: nat)
    requires Sized(c, t) && Sized(c, t') && SplitExact(c, t) && i < t.inited == t'.inited
    requires t'.entries == t.entries[i := t'.entries[i]]
    ensures SplitExact(c, t') <==> forall b: nat | b < 3 ::
              t'.usage.buckets[b] - t.usage.buckets[b] == Share(c.mask, t'.entries[i], b) - Share(c.mask, t.entries[i], b)
  {
    hide Blocks;
    forall b: nat | b < 3 {
      BlocksInUpdate(c.mask, t.entries, t.inited, i, t'.entries[i], b);
    }
  }

  /** A discarded slot that is reused with its data is relabelled, but its blocks stay counted in
      bucket 0: the counters come out exact if and only if the slot is wanted there, is emptied,
      or has no blocks.  Their sum is right either way. */
  lemma ReuseMisfilesBlocks(c: Config, t: Table, t': Table, i: nat, overwrite: bool)
    requires Sized(c, t) && Sized(c, t') && SplitExact(c, t) && c.split && i < t.inited == t'.inited
    requires t'.entries == t.entries[i := t'.entries[i]] && t.entries[i].bucket < 3 && t'.entries[i].bucket < 3
    requires t'.entries[i].chunkBytes == if overwrite then 0 else t.entries[i].chunkBytes
    requires t'.usage.buckets == AfterReuse(c, t.usage.buckets, t.entries[i], overwrite)
    ensures SplitExact(c, t') <==>
            overwrite || t'.entries[i].bucket == 0 || Blocks(c.mask, t.entries[i].chunkBytes) == 0
    ensures t'.usage.buckets[0] + t'.usage.buckets[1] + t'.usage.buckets[2] ==
            t.usage.buckets[0] + t.usage.buckets[1] + t.usage.buckets[2] -
            if overwrite then Blocks(c.mask, t.entries[i].chunkBytes) else 0
  {
    NoBytesNoBlocks(c.mask);
    SplitExactAfter(c, t, t', i);
    hide Blocks, SplitExact;
    assert !overwrite && t'.entries[i].bucket != 0 ==> Share(c.mask, t'.entries[i], 0) == 0;
  }

  /** A cache of one slot that is discarded with one block in bucket 1. */
  ghost function OneDiscarded(): (Config, Table) {
    (Config(1, 1, 1023, true),
     Table([NULLIDX], [NULLIDX], [NULLIDX], [NULLIDX], Ends(NULLIDX, 0, 0, 1), Usage(1, 1, [0, 1, 0]),
           [Entry(Fid(1, 0, 2, 3), 0, 1024, 1, 3, false, true)], 1, [Discarded], [[]], [[], [], [0]]))
  }

  /** Taken into use again for bucket 1, with its data, it is still counted in bucket 0. */
  lemma OneBlockMisfiled()
    ensures var (c, t) := OneDiscarded();
            && Inv(c, t) && SplitExact(c, t)
            && var t' := t.(entries := [t.entries[0].(discarded := false)], place := [Held],
                            usage := t.usage.(buckets := AfterReuse(c, t.usage.buckets, t.entries[0], false)));
            Sized(c, t') && t'.usage.buckets == [1, 0, 0] && !SplitExact(c, t')
  {
    OneDiscardedInOrder();
    OneBlock();
    hide Inv, Blocks;
  }

  lemma OneBlock()
    ensures Blocks(1023, 1024) == 1
  {
  }

  lemma OneDiscardedInOrder()
    ensures Inv(OneDiscarded().0, OneDiscarded().1)
  {
    var (c, t) := OneDiscarded();
    OneBlock();
    hide Blocks;
    OneDiscardedPlaced();
    assert Sized(c, t) && SlotsOk(c, t);
    hide Placed;
    assert Accounted(c, t);
  }

  lemma OneDiscardedPlaced()
    ensures Sized(OneDiscarded().0, OneDiscarded().1) && Placed(OneDiscarded().0, OneDiscarded().1)
  {
    hide Family;
    var (c, t) := OneDiscarded();
    NoChain();
    OneOnTheList();
    assert DcHomes(c, t) == [NULLIDX] && DvHomes(c, t) == [2];
    assert t.dvHeads + [t.ends.free, t.ends.discard] == [NULLIDX, NULLIDX, 0];
  }

  lemma NoChain()
    ensures Family([NULLIDX], [NULLIDX], [[]], [NULLIDX])
  {
  }

  lemma OneOnTheList()
    ensures Family([NULLIDX, NULLIDX, 0], [NULLIDX], [[], [], [0]], [2])
  {
    var lists: seq<seq<nat>> := [[], [], [0]];
    assert lists[2] == [0] && 0 in lists[2];
  }

  lemma InitedUnlessUninit(c: Config, t: Table, i: nat)
    requires Inv(c, t) && i < c.files && t.place[i] != Uninit
    ensures i < t.inited && t.entries[i].bucket <= 2
  {
  }

  // ---------------------------------------------------------------- start-up

  const BLANK: Entry := Entry(Fid(0, 0, 0, 0), 0, 0, 0, 0, false, false)

  ghost function Empty(c: Config): Table {
    Table(seq(c.hashSize, _ => NULLIDX), seq(c.files, _ => NULLIDX),
          seq(c.hashSize, _ => NULLIDX), seq(c.files, _ => NULLIDX),
          Ends(NULLIDX, 0, NULLIDX, 0), Usage(0, 0, [0, 0, 0]),
          seq(c.files, _ => BLANK), 0, seq(c.files, _ => Uninit),
          seq(c.hashSize, _ => []), seq(c.hashSize + 2, _ => []))
  }

  lemma EmptyInv(c: Config)
    requires c.hashSize > 0
    ensures Inv(c, Empty(c)) && OnePerChunk(c, Empty(c))
  {
  }

  // ---------------------------------------------------------------- rekeying, as lookups see it

  /** A lookup for this chunk of this file has something to find. */
  ghost predicate InCache(c: Config, t: Table, fid: Fid, chunk: int)
    requires Sized(c, t)
  {
    exists i :: 0 <= i < c.files && t.place[i] == Hashed && t.entries[i].fid == fid && t.entries[i].chunk == chunk
  }

  /** What rekeying makes of a slot. */
  ghost function Rekeyed(oldFid: Fid, newFid: Fid, p: Place, e: Entry): Entry {
    if p == Hashed && e.fid == oldFid then e.(fid := newFid, unique := newFid.unique) else e
  }

  ghost predicate RekeyedTable(c: Config, t: Table, t': Table, oldFid: Fid, newFid: Fid)
    requires Sized(c, t) && Sized(c, t')
  {
    t'.place == t.place &&
    forall j | 0 <= j < c.files :: t'.entries[j] == Rekeyed(oldFid, newFid, t.place[j], t.entries[j])
  }

  /** Afterwards the new fid has its own chunks and the old fid's, the old fid has none, and
      every other file has what it had. */
  lemma RekeyMovesExactly(c: Config, t: Table, t': Table, oldFid: Fid, newFid: Fid, f: Fid, chunk: int)
    requires Sized(c, t) && Sized(c, t') && RekeyedTable(c, t, t', oldFid, newFid)
    ensures f == newFid ==> (InCache(c, t', f, chunk) <==> InCache(c, t, oldFid, chunk) || InCache(c, t, newFid, chunk))
    ensures f == oldFid != newFid ==> !InCache(c, t', f, chunk)
    ensures f != oldFid && f != newFid ==> (InCache(c, t', f, chunk) <==> InCache(c, t, f, chunk))
  {
    forall i | 0 <= i < c.files && t.place[i] == Hashed
      ensures t'.entries[i].fid == (if t.entries[i].fid == oldFid then newFid else t.entries[i].fid)
      ensures t'.entries[i].chunk == t.entries[i].chunk
    {
      assert t'.entries[i] == Rekeyed(oldFid, newFid, t.place[i], t.entries[i]);
    }
    if f == newFid {
      forall g | (g == oldFid || g == newFid) && InCache(c, t, g, chunk) ensures InCache(c, t', f, chunk) {
        var i :| 0 <= i < c.files && t.place[i] == Hashed && t.entries[i].fid == g && t.entries[i].chunk == chunk;
        assert t'.place[i] == Hashed && t'.entries[i].fid == f;
      }
    } else if f != oldFid && InCache(c, t, f, chunk) {
      var i :| 0 <= i < c.files && t.place[i] == Hashed && t.entries[i].fid == f && t.entries[i].chunk == chunk;
      assert t'.place[i] == Hashed && t'.entries[i].fid == f;
    }
  }

  /** A file that is cached under its new fid already could end up with a chunk twice; one that
      is not, cannot. */
  lemma RekeyKeepsOnePerChunk(c: Config, t: Table, t': Table, oldFid: Fid, newFid: Fid)
    requires Sized(c, t) && Sized(c, t') && RekeyedTable(c, t, t', oldFid, newFid)
    requires OnePerChunk(c, t) && oldFid.unique != 0
    requires newFid == oldFid || forall chunk :: !InCache(c, t, newFid, chunk)
    ensures OnePerChunk(c, t')
  {
    forall i, j | 0 <= i < j < c.files && t'.place[i] == Hashed && t'.place[j] == Hashed &&
      t'.entries[i].fid == t'.entries[j].fid && t'.entries[i].chunk == t'.entries[j].chunk
      ensures t'.entries[i].fid.unique == 0
    {
      assert t'.entries[i] == Rekeyed(oldFid, newFid, t.place[i], t.entries[i]);
      assert t'.entries[j] == Rekeyed(oldFid, newFid, t.place[j], t.entries[j]);
      if newFid != oldFid {
        assert !InCache(c, t, newFid, t.entries[i].chunk);
        assert t.entries[i].fid != newFid && t.entries[j].fid != newFid;
      }
    }
  }
}
