/** Building the dynamic root directory: a dry run over the names finds how many pages are
    needed, and a second pass lays the entries out without looking at the limit again. */
module Dynroot {
  import opened Common

  const EPP: nat := 64
  const DHE: nat := 12
  const MAXPAGES: nat := 128
  const NHASHENT: nat := 128

  /** A name, as its bytes. */
  type Name = seq<nat>

  const DOT: Name := [46]
  const DOTDOT: Name := [46, 46]

  /** How many chunks a name takes up as a directory entry. */
  function NameBlobs(name: Name): (n: nat)
    ensures n >= 1
  {
    1 + (|name| + 1 + 15) / 32
  }

  /** The first 32 bytes of an entry have room for a name of 16, its null included, and every further
      32 for as many more: so many are taken that the name fits, and no more. */
  lemma BlobsJustFit(name: Name)
    ensures var n := NameBlobs(name);
            |name| + 1 <= 16 + 32 * (n - 1) && (n > 1 ==> |name| + 1 > 16 + 32 * (n - 2))
  {
  }

  function DirHash(name: Name): (r: nat)
    ensures r < NHASHENT
  {
    var hval := HashFrom(name, 0);
    var tval := hval % NHASHENT;
    if tval == 0 then 0 else if hval >= 0x8000_0000 then NHASHENT - tval else tval
  }

  /** A page and the next free chunk on it. */
  datatype Pos = Pos(page: nat, chunk: nat)

  const START: Pos := Pos(0, DHE + 1)

  /** Where an entry of n chunks goes: here, or at the beginning of the next page. */
  function Fit(p: Pos, n: nat): Pos {
    if p.chunk + n > EPP then Pos(p.page + 1, 1) else p
  }

  function After(p: Pos, n: nat): Pos { Fit(p, n).(chunk := Fit(p, n).chunk + n) }

  /** Where the names end up. */
  function DryRun(names: seq<Name>): Pos {
    if names == [] then START else After(DryRun(names[..|names| - 1]), NameBlobs(names[|names| - 1]))
  }

  /** Where the k-th name goes. */
  function PlaceOf(names: seq<Name>, k: nat): Pos
    requires k < |names|
  {
    Fit(DryRun(names[..k]), NameBlobs(names[k]))
  }

  function NumberOf(p: Pos): nat { p.page * EPP + p.chunk }

  ghost predicate Fits(names: seq<Name>) {
    forall k | 0 <= k < |names| :: NameBlobs(names[k]) < EPP
  }

  lemma DryRunSnoc(names: seq<Name>, k: nat)
    requires k < |names|
    ensures DryRun(names[..k + 1]) == After(DryRun(names[..k]), NameBlobs(names[k]))
  {
    assert names[..k + 1][..k] == names[..k];
  }

  lemma {:induction false} DryRunBounds(names: seq<Name>, k: nat)
    requires Fits(names) && k <= |names|
    ensures 1 <= DryRun(names[..k]).chunk <= EPP
    ensures DryRun(names[..k]).page == 0 ==> DryRun(names[..k]).chunk > DHE
  {
    if k > 0 {
      DryRunSnoc(names, k - 1);
      DryRunBounds(names, k - 1);
    }
  }

  lemma {:induction false} DryRunGrows(names: seq<Name>, j: nat, k: nat)
    requires Fits(names) && j <= k <= |names|
    ensures DryRun(names[..j]).page <= DryRun(names[..k]).page
    ensures j < k ==> NumberOf(PlaceOf(names, j)) + NameBlobs(names[j]) <= NumberOf(DryRun(names[..k]))
  {
    if j < k {
      DryRunSnoc(names, k - 1);
      DryRunGrows(names, j, k - 1);
      DryRunBounds(names, k - 1);
      DryRunBounds(names, j);
    }
  }

  /** Entries lie one after the other, none across the end of a page or over a page header. */
  lemma PlacesDisjoint(names: seq<Name>, j: nat, k: nat)
    requires Fits(names) && j < k < |names|
    ensures NumberOf(PlaceOf(names, j)) + NameBlobs(names[j]) <= NumberOf(PlaceOf(names, k))
  {
    DryRunGrows(names, j, k);
    DryRunBounds(names, k);
  }

  /** No room is wasted: an entry follows the one before it at once, unless so little of the page is left
      that it does not fit. */
  lemma PlacesPacked(names: seq<Name>, k: nat)
    requires Fits(names) && 0 < k < |names|
    ensures var (p, q) := (PlaceOf(names, k - 1), PlaceOf(names, k));
            var end := p.chunk + NameBlobs(names[k - 1]);
            && (EPP - end >= NameBlobs(names[k]) ==> q == Pos(p.page, end))
            && (EPP - end < NameBlobs(names[k]) ==> q == Pos(p.page + 1, 1))
  {
    DryRunSnoc(names, k - 1);
  }

  lemma PlaceBounds(names: seq<Name>, k: nat)
    requires Fits(names) && k < |names|
    ensures var p := PlaceOf(names, k);
            && 1 <= p.chunk && p.chunk + NameBlobs(names[k]) <= EPP && (p.page == 0 ==> p.chunk > DHE)
            && DryRun(names[..k]).page <= p.page <= DryRun(names).page && p.page == DryRun(names[..k + 1]).page
  {
    DryRunBounds(names, k);
    DryRunSnoc(names, k);
    DryRunGrows(names, k + 1, |names|);
    assert names[..|names|] == names;
  }

  /** The second pass writes the allocation count of every page it opens.  It stays inside the
      table of counts exactly when the dry run ends on a page that has one. */
  lemma {:induction false} AllocationMapHolds(names: seq<Name>)
    requires Fits(names)
    ensures (forall k | 0 <= k < |names| :: PlaceOf(names, k).page < MAXPAGES) <==> DryRun(names).page < MAXPAGES
  {
    if DryRun(names).page < MAXPAGES {
      forall k | 0 <= k < |names| ensures PlaceOf(names, k).page < MAXPAGES {
        PlaceBounds(names, k);
      }
    } else {
      assert names != [];
      PlaceBounds(names, |names| - 1);
      assert names[..|names|] == names;
    }
  }

  // ---------------------------------------------------------------- free bits

  ghost function Marked(b: seq<bool>): nat {
    if b == [] then 0 else Marked(b[..|b| - 1]) + (if b[|b| - 1] then 1 else 0)
  }

  lemma {:induction false} MarkOne(b: seq<bool>, i: nat)
    requires i < |b| && !b[i]
    ensures Marked(b[i := true]) == Marked(b) + 1
  {
    var n := |b| - 1;
    if i < n {
      assert b[i := true][..n] == b[..n][i := true];
      MarkOne(b[..n], i);
    } else {
      assert b[i := true][..n] == b[..n];
    }
  }

  lemma {:induction false} MarkedPrefix(b: seq<bool>, n: nat)
    requires n <= |b| && forall i | 0 <= i < |b| :: b[i] == (i < n)
    ensures Marked(b) == n
  {
    if b != [] {
      MarkedPrefix(b[..|b| - 1], if n == |b| then n - 1 else n);
    }
  }

  // ---------------------------------------------------------------- one more name

  lemma PlaceSame(names: seq<Name>, x: Name, k: nat)
    requires k < |names|
    ensures PlaceOf(names + [x], k) == PlaceOf(names, k)
  {
    assert (names + [x])[..k] == names[..k];
  }

  lemma PlaceLast(names: seq<Name>, x: Name)
    ensures PlaceOf(names + [x], |names|) == Fit(DryRun(names), NameBlobs(x))
    ensures DryRun(names + [x]) == After(DryRun(names), NameBlobs(x))
  {
    assert (names + [x])[..|names|] == names;
  }

  /** A chunk is taken by a page header, the directory header, or an entry. */
  ghost predicate Covers(names: seq<Name>, k: nat, p: nat, c: nat)
    requires k < |names|
  {
    PlaceOf(names, k).page == p && PlaceOf(names, k).chunk <= c < PlaceOf(names, k).chunk + NameBlobs(names[k])
  }

  ghost predicate Covered(names: seq<Name>, p: nat, c: nat) {
    exists k: nat :: k < |names| && Covers(names, k, p, c)
  }

  predicate HeaderChunk(p: nat, c: nat) { if p == 0 then c <= DHE else c == 0 }

  lemma CoveredSnoc(names: seq<Name>, x: Name, p: nat, c: nat)
    ensures var q := Fit(DryRun(names), NameBlobs(x));
            Covered(names + [x], p, c) <==> Covered(names, p, c) || (q.page == p && q.chunk <= c < q.chunk + NameBlobs(x))
  {
    var q := Fit(DryRun(names), NameBlobs(x));
    PlaceLast(names, x);
    assert Covers(names + [x], |names|, p, c) <==> q.page == p && q.chunk <= c < q.chunk + NameBlobs(x);
    forall k: nat | k < |names| ensures Covers(names + [x], k, p, c) <==> Covers(names, k, p, c) {
      PlaceSame(names, x, k);
    }
    if Covered(names, p, c) {
      var k: nat :| k < |names| && Covers(names, k, p, c);
      assert Covers(names + [x], k, p, c);
    }
  }

  lemma CoveredBelow(names: seq<Name>, p: nat, c: nat)
    requires Fits(names) && Covered(names, p, c)
    ensures p <= DryRun(names).page && (p == DryRun(names).page ==> c < DryRun(names).chunk)
  {
    var k: nat :| k < |names| && Covers(names, k, p, c);
    PlaceBounds(names, k);
    DryRunGrows(names, k, |names|);
    assert names[..|names|] == names;
  }

  // ---------------------------------------------------------------- hash chains

  datatype DirEntry = DirEntry(name: Name, vnode: int, next: nat)

  function NumAt(names: seq<Name>, k: nat): nat
    requires k < |names|
  {
    NumberOf(PlaceOf(names, k))
  }

  /** The entry last put on a hash chain by the first n names; 0 ends a chain. */
  ghost function Latest(names: seq<Name>, h: nat, n: nat): nat
    requires n <= |names|
  {
    if n == 0 then 0 else if DirHash(names[n - 1]) == h then NumAt(names, n - 1) else Latest(names, h, n - 1)
  }

  lemma {:induction false} LatestSame(names: seq<Name>, x: Name, h: nat, n: nat)
    requires n <= |names|
    ensures Latest(names + [x], h, n) == Latest(names, h, n)
  {
    if n > 0 {
      PlaceSame(names, x, n - 1);
      LatestSame(names, x, h, n - 1);
    }
  }

  lemma LatestSnoc(names: seq<Name>, x: Name, h: nat)
    ensures Latest(names + [x], h, |names| + 1) ==
            if DirHash(x) == h then NumberOf(Fit(DryRun(names), NameBlobs(x))) else Latest(names, h, |names|)
  {
    PlaceLast(names, x);
    LatestSame(names, x, h, |names|);
    hide DirHash, NameBlobs, DryRun, PlaceOf;
    assert (names + [x])[|names|] == x;
  }

  /** The names with this hash, the last first. */
  ghost function OnChain(names: seq<Name>, h: nat, n: nat): seq<nat>
    requires n <= |names|
  {
    if n == 0 then [] else if DirHash(names[n - 1]) == h then [n - 1] + OnChain(names, h, n - 1) else OnChain(names, h, n - 1)
  }

  /** Following a chain from here reads these names and then ends. */
  ghost predicate Reads(names: seq<Name>, entries: map<nat, DirEntry>, head: nat, ks: seq<nat>)
    decreases ks
  {
    if ks == [] then head == 0
    else ks[0] < |names| && head == NumAt(names, ks[0]) && head in entries && entries[head].name == names[ks[0]]
         && Reads(names, entries, entries[head].next, ks[1..])
  }

  /** Every name is where the dry run has it, and links to the name put on its chain before. */
  ghost predicate Laid(names: seq<Name>, vnodes: seq<int>, entries: map<nat, DirEntry>)
    requires |vnodes| == |names|
  {
    forall k: nat | k < |names| ::
      && NumAt(names, k) in entries
      && entries[NumAt(names, k)] == DirEntry(names[k], vnodes[k], Latest(names, DirHash(names[k]), k))
  }

  lemma ReadsFirst(names: seq<Name>, entries: map<nat, DirEntry>, k: nat, rest: seq<nat>)
    requires k < |names| && NumAt(names, k) in entries && entries[NumAt(names, k)].name == names[k]
    requires Reads(names, entries, entries[NumAt(names, k)].next, rest)
    ensures Reads(names, entries, NumAt(names, k), [k] + rest)
  {
    hide NumAt;
    assert ([k] + rest)[1..] == rest;
  }

  /** So a hash chain lists exactly the names with that hash. */
  lemma {:induction false} ChainReads(names: seq<Name>, vnodes: seq<int>, entries: map<nat, DirEntry>, h: nat, n: nat)
    requires |vnodes| == |names| && Laid(names, vnodes, entries) && n <= |names|
    ensures Reads(names, entries, Latest(names, h, n), OnChain(names, h, n))
  {
    hide NumAt, DirHash, Reads;
    if n == 0 {
      ReadsNothing(names, entries);
    } else {
      ChainReads(names, vnodes, entries, h, n - 1);
      if DirHash(names[n - 1]) == h {
        var num := NumAt(names, n - 1);
        assert num in entries && entries[num] == DirEntry(names[n - 1], vnodes[n - 1], Latest(names, h, n - 1));
        ReadsFirst(names, entries, n - 1, OnChain(names, h, n - 1));
      }
    }
  }

  lemma ReadsNothing(names: seq<Name>, entries: map<nat, DirEntry>)
    ensures Reads(names, entries, 0, [])
  {
  }

  lemma {:induction false} OnChainExactly(names: seq<Name>, h: nat, n: nat)
    requires n <= |names|
    ensures forall k: nat :: k in OnChain(names, h, n) <==> k < n && DirHash(names[k]) == h
    ensures forall i, j | 0 <= i < j < |OnChain(names, h, n)| :: OnChain(names, h, n)[j] < OnChain(names, h, n)[i] < n
  {
    if n > 0 {
      OnChainExactly(names, h, n - 1);
      var r := OnChain(names, h, n - 1);
      assert forall i | 0 <= i < |r| :: r[i] in r;
    }
  }

  lemma LaidSnoc(names: seq<Name>, vnodes: seq<int>, entries: map<nat, DirEntry>, x: Name, vnode: int)
    requires |vnodes| == |names| && Laid(names, vnodes, entries) && Fits(names + [x])
    ensures var num := NumberOf(Fit(DryRun(names), NameBlobs(x)));
            Laid(names + [x], vnodes + [vnode],
                 entries[num := DirEntry(x, vnode, Latest(names, DirHash(x), |names|))])
  {
    var (names', num) := (names + [x], NumberOf(Fit(DryRun(names), NameBlobs(x))));
    var entries' := entries[num := DirEntry(x, vnode, Latest(names, DirHash(x), |names|))];
    PlaceLast(names, x);
    hide DirHash, Latest;
    forall k: nat | k < |names'|
      ensures NumAt(names', k) in entries' &&
              entries'[NumAt(names', k)] == DirEntry(names'[k], (vnodes + [vnode])[k], Latest(names', DirHash(names'[k]), k))
    {
      if k < |names| {
        PlaceSame(names, x, k);
        PlacesDisjoint(names', k, |names|);
        LatestSame(names, x, DirHash(names[k]), k);
      } else {
        LatestSame(names, x, DirHash(x), |names|);
      }
    }
  }

  // ---------------------------------------------------------------- bitmaps and counts

  /** A page marks exactly its header and its entries. */
  ghost predicate PageOk(names: seq<Name>, p: nat, b: seq<bool>) {
    |b| == EPP && forall c: nat | c < EPP :: b[c] <==> HeaderChunk(p, c) || Covered(names, p, c)
  }

  ghost predicate BitsOk(names: seq<Name>, bitmap: seq<seq<bool>>) {
    forall p: nat | p < |bitmap| && p <= DryRun(names).page :: PageOk(names, p, bitmap[p])
  }

  /** n chunks of a page marked from c on. */
  ghost predicate MarkedFrom(b: seq<bool>, b': seq<bool>, c: nat, n: nat) {
    |b'| == |b| == EPP && forall i | 0 <= i < EPP :: b'[i] == (b[i] || c <= i < c + n)
  }

  ghost predicate FreshPage(p: nat, b: seq<bool>) {
    |b| == EPP && forall c | 0 <= c < EPP :: b[c] == HeaderChunk(p, c)
  }

  /** Marking the chunks of the next entry, on its page as it is or on a fresh one. */
  lemma BitsSnoc(names: seq<Name>, x: Name, bitmap: seq<seq<bool>>, b: seq<bool>, b': seq<bool>)
    requires BitsOk(names, bitmap) && Fits(names + [x])
    requires var q := Fit(DryRun(names), NameBlobs(x));
             && q.page < |bitmap| && MarkedFrom(b, b', q.chunk, NameBlobs(x))
             && (if q.page == DryRun(names).page then b == bitmap[q.page] else FreshPage(q.page, b))
    ensures BitsOk(names + [x], bitmap[Fit(DryRun(names), NameBlobs(x)).page := b'])
  {
    var q := Fit(DryRun(names), NameBlobs(x));
    var bitmap' := bitmap[q.page := b'];
    PlaceLast(names, x);
    FitsPrefix(names, x);
    hide DryRun, Covered, NameBlobs;
    forall p: nat | p < |bitmap'| && p <= q.page ensures PageOk(names + [x], p, bitmap'[p]) {
      forall c: nat | c < EPP ensures |bitmap'[p]| == EPP && (bitmap'[p][c] <==> HeaderChunk(p, c) || Covered(names + [x], p, c)) {
        CoveredSnoc(names, x, p, c);
        if p <= DryRun(names).page {
          assert PageOk(names, p, bitmap[p]);
        } else if Covered(names, p, c) {
          CoveredBelow(names, p, c);
        }
      }
      assert |bitmap'[p]| == EPP;
    }
  }

  lemma FitsPrefix(names: seq<Name>, x: Name)
    requires Fits(names + [x])
    ensures Fits(names) && NameBlobs(x) < EPP
  {
    assert (names + [x])[|names|] == x;
    forall k | 0 <= k < |names| ensures NameBlobs(names[k]) < EPP {
      assert (names + [x])[k] == names[k];
    }
  }

  /** What lies beyond the position reached is free. */
  lemma FreeBeyond(names: seq<Name>, bitmap: seq<seq<bool>>)
    requires BitsOk(names, bitmap) && Fits(names) && DryRun(names).page < |bitmap|
    ensures |bitmap[DryRun(names).page]| == EPP
    ensures forall c | DryRun(names).chunk <= c < EPP :: !bitmap[DryRun(names).page][c]
  {
    var p := DryRun(names).page;
    DryRunBounds(names, |names|);
    assert names[..|names|] == names;
    assert PageOk(names, p, bitmap[p]);
    forall c | DryRun(names).chunk <= c < EPP ensures !bitmap[p][c] {
      if Covered(names, p, c) { CoveredBelow(names, p, c); }
    }
  }

  // ---------------------------------------------------------------- the directory

  class Directory {
    const pages: nat
    const alloMap: array<int>
    const hashTable: array<nat>
    var bitmap: seq<seq<bool>>
    var entries: map<nat, DirEntry>
    var pos: Pos

    ghost var names: seq<Name>
    ghost var vnodes: seq<int>

    ghost predicate Sized()
      reads this
    {
      && alloMap.Length == MAXPAGES && hashTable.Length == NHASHENT && |bitmap| == pages <= MAXPAGES
      && |vnodes| == |names| && Fits(names) && pos == DryRun(names) && pos.page < pages
    }

    /** The count kept for a page is the number of its free chunks. */
    ghost predicate CountsOk()
      reads this, alloMap
      requires Sized()
    {
      && (forall p | 0 <= p <= pos.page :: alloMap[p] == EPP - Marked(bitmap[p]))
      && (forall p | pos.page < p < MAXPAGES :: alloMap[p] == EPP)
    }

    ghost predicate HeadsOk()
      reads this, hashTable
      requires Sized()
    {
      forall h: nat | h < NHASHENT :: hashTable[h] == Latest(names, h, |names|)
    }

    ghost predicate Valid()
      reads this, alloMap, hashTable
    {
      Sized() && BitsOk(names, bitmap) && CountsOk() && HeadsOk() && Laid(names, vnodes, entries)
    }

    /** Mark the chunks of an entry on its page. */
    method MarkChunks(page: nat, chunk: nat, n: nat)
      requires page < |bitmap| && |bitmap[page]| == EPP && chunk + n <= EPP
      requires forall c | chunk <= c < chunk + n :: !bitmap[page][c]
      modifies this`bitmap
      ensures |bitmap| == |old(bitmap)| && bitmap == old(bitmap)[page := bitmap[page]]
      ensures MarkedFrom(old(bitmap)[page], bitmap[page], chunk, n)
      ensures Marked(bitmap[page]) == Marked(old(bitmap)[page]) + n
    {
      var i := chunk;
      while i < chunk + n
        invariant chunk <= i <= chunk + n
        invariant |bitmap| == |old(bitmap)| && bitmap == old(bitmap)[page := bitmap[page]]
        invariant MarkedFrom(old(bitmap)[page], bitmap[page], chunk, i - chunk)
        invariant Marked(bitmap[page]) == Marked(old(bitmap)[page]) + (i - chunk)
      {
        MarkOne(bitmap[page], i);
        bitmap := bitmap[page := bitmap[page][i := true]];
        i := i + 1;
      }
    }

    /** The page and chunk for an entry of n chunks, on a page made ready for it. */
    method OpenPage(n: nat) returns (page: nat, chunk: nat)
      requires Valid() && n < EPP && Fit(pos, n).page < pages
      modifies this`bitmap, alloMap
      ensures Pos(page, chunk) == Fit(pos, n) && |bitmap| == pages
      ensures bitmap == old(bitmap)[page := bitmap[page]] && |bitmap[page]| == EPP
      ensures if page == pos.page then bitmap[page] == old(bitmap)[page] else FreshPage(page, bitmap[page])
      ensures forall c | chunk <= c < EPP :: !bitmap[page][c]
      ensures alloMap[page] == EPP - Marked(bitmap[page])
      ensures forall p | 0 <= p < MAXPAGES && p != page :: alloMap[p] == old(alloMap[p])
    {
      hide Laid, DryRun, Latest, Marked, NameBlobs;
      page, chunk := pos.page, pos.chunk;
      FreeBeyond(names, bitmap);
      var didNewPage := false;
      if chunk + n > EPP {
        page, chunk, didNewPage := page + 1, 1, true;
      }
      if didNewPage {
        bitmap := bitmap[page := seq(EPP, c => c == 0)];
        MarkedPrefix(bitmap[page], 1);
        alloMap[page] := EPP - 1;
      }
    }

    lemma FitsSnoc(x: Name)
      requires Fits(names) && NameBlobs(x) < EPP
      ensures Fits(names + [x])
    {
    }

    /** Add an entry: on the current page if it fits, else on a page of its own beginning. */
    method AddDirEnt(name: Name, vnode: int)
      requires Valid() && NameBlobs(name) < EPP && After(pos, NameBlobs(name)).page < pages
      modifies this`bitmap, this`entries, this`pos, this`names, this`vnodes, alloMap, hashTable
      ensures Valid() && names == old(names) + [name] && vnodes == old(vnodes) + [vnode]
    {
      hide Laid, BitsOk, DryRun, Latest, Marked, NameBlobs, DirHash, Fits;
      var n := NameBlobs(name);
      ghost var bits := bitmap;
      FitsSnoc(name);
      forall h: nat | h < NHASHENT { LatestSnoc(names, name, h); }
      LaidSnoc(names, vnodes, entries, name, vnode);
      PlaceLast(names, name);
      var page, chunk := OpenPage(n);
      ghost var ready := bitmap[page];
      var num := page * EPP + chunk;
      MarkChunks(page, chunk, n);
      BitsSnoc(names, name, bits, ready, bitmap[page]);
      assert bitmap == bits[page := bitmap[page]];
      var h := DirHash(name);
      entries := entries[num := DirEntry(name, vnode, hashTable[h])];
      hashTable[h] := num;
      alloMap[page] := alloMap[page] - n;
      pos := Pos(page, chunk + n);
      names := names + [name];
      vnodes := vnodes + [vnode];
    }

    lemma AtTheEnd()
      requires Valid()
      ensures pos == DryRun(names)
    {
    }

    /** Add the k-th of a list of names the directory has been measured for. */
    method AddNth(ghost all: seq<Name>, ghost nums: seq<int>, k: nat, name: Name, vnode: int)
      requires Valid() && Fits(all) && k < |all| == |nums| && all[k] == name && nums[k] == vnode
      requires names == all[..k] && vnodes == nums[..k] && pages == DryRun(all).page + 1
      modifies this`bitmap, this`entries, this`pos, this`names, this`vnodes, alloMap, hashTable
      ensures Valid() && names == all[..k + 1] && vnodes == nums[..k + 1]
    {
      hide Laid, BitsOk, DryRun, Latest, Marked, NameBlobs, DirHash, Fits, CountsOk, HeadsOk;
      PageInside(all, k);
      AddDirEnt(name, vnode);
    }

    /** The first page with its two headers, and nothing else yet. */
    constructor (n: nat)
      requires 0 < n <= MAXPAGES
      ensures Valid() && pages == n && names == [] && vnodes == [] && fresh(alloMap) && fresh(hashTable)
    {
      pages := n;
      alloMap := new int[MAXPAGES](p requires 0 <= p < MAXPAGES => if p == 0 then EPP - DHE - 1 else EPP);
      hashTable := new nat[NHASHENT](_ => 0);
      bitmap := seq(n, _ => seq(EPP, c => c <= DHE));
      entries := map[];
      pos := START;
      names, vnodes := [], [];
      new;
      MarkedPrefix(bitmap[0], DHE + 1);
    }
  }

  /** The names and vnode numbers of the directory: itself, its parent, and the rest. */
  ghost function AllNames(rest: seq<(Name, int)>): seq<Name> {
    [DOT, DOTDOT] + seq(|rest|, i requires 0 <= i < |rest| => rest[i].0)
  }

  ghost function AllVnodes(rest: seq<(Name, int)>): seq<int> {
    [1, 1] + seq(|rest|, i requires 0 <= i < |rest| => rest[i].1)
  }

  lemma AllOf(rest: seq<(Name, int)>)
    ensures |AllNames(rest)| == |AllVnodes(rest)| == |rest| + 2
    ensures AllNames(rest)[0] == DOT && AllNames(rest)[1] == DOTDOT && AllVnodes(rest)[0] == AllVnodes(rest)[1] == 1
    ensures forall i | 0 <= i < |rest| :: AllNames(rest)[i + 2] == rest[i].0 && AllVnodes(rest)[i + 2] == rest[i].1
  {
  }

  lemma WholeSlice<T>(s: seq<T>, n: nat)
    requires n == |s|
    ensures s[..n] == s
  {
  }

  /** The position after one more name. */
  method ComputeDirEnt(name: Name, page: nat, chunk: nat) returns (curPage: nat, curChunk: nat)
    ensures Pos(curPage, curChunk) == After(Pos(page, chunk), NameBlobs(name))
  {
    curPage, curChunk := page, chunk;
    var esize := NameBlobs(name);
    if curChunk + esize > EPP {
      curPage := curPage + 1;
      curChunk := 1;
    }
    curChunk := curChunk + esize;
  }

  /** The dry run itself: two chunks for "." and "..", and then name by name. */
  method ComputeSize(rest: seq<(Name, int)>) returns (curPage: nat, curChunk: nat)
    ensures Pos(curPage, curChunk) == DryRun(AllNames(rest))
  {
    hide DryRun, NameBlobs, AllNames, After;
    curPage, curChunk := 0, DHE + 1;
    curChunk := curChunk + 2;
    ghost var all := AllNames(rest);
    AllOf(rest);
    DotsFirst(all);
    var i := 0;
    while i < |rest|
      invariant i <= |rest| && Pos(curPage, curChunk) == DryRun(all[..i + 2])
    {
      DryRunSnoc(all, i + 2);
      curPage, curChunk := ComputeDirEnt(rest[i].0, curPage, curChunk);
      i := i + 1;
    }
    WholeSlice(all, |rest| + 2);
  }

  lemma DotsFirst(all: seq<Name>)
    requires |all| >= 2 && all[0] == DOT && all[1] == DOTDOT
    ensures DryRun(all[..2]) == Pos(0, DHE + 3)
  {
    assert all[..2][..1] == [DOT] && [DOT][..0] == [];
    assert DryRun([]) == START;
    assert DryRun([DOT]) == After(START, NameBlobs(DOT));
  }

  /** Numbered names of 1900 bytes. */
  ghost function LongName(i: nat): (name: Name)
    ensures |name| == 1900 && name[1899] == 128 + i && NameBlobs(name) == 60
  {
    seq(1899, _ => 97) + [128 + i]
  }

  /** Names that take a page each. */
  ghost function Many(n: nat): seq<(Name, int)> { seq(n, i requires 0 <= i < n => (LongName(i), i)) }

  lemma ManyMore(n: nat)
    ensures Fits(AllNames(Many(n))) && |AllNames(Many(n))| == n + 2
    ensures n > 0 ==> AllNames(Many(n))[..n + 1] == AllNames(Many(n - 1)) && AllNames(Many(n))[n + 1] == LongName(n - 1)
  {
    hide LongName, NameBlobs;
    assert NameBlobs(DOT) == NameBlobs(DOTDOT) == 1 by { DotBlobs(); }
  }

  lemma DotBlobs()
    ensures NameBlobs(DOT) == NameBlobs(DOTDOT) == 1
  {
  }

  lemma {:induction false} ManyPages(n: nat)
    ensures Fits(AllNames(Many(n))) && DryRun(AllNames(Many(n))) == Pos(n, if n == 0 then DHE + 3 else 61)
  {
    hide DryRun, NameBlobs, LongName, AllNames, Many, Fits;
    var all := AllNames(Many(n));
    ManyMore(n);
    AllOf(Many(n));
    if n == 0 {
      DotsFirst(all);
      WholeSlice(all, 2);
    } else {
      ManyPages(n - 1);
      DryRunSnoc(all, n + 1);
      WholeSlice(all, n + 2);
    }
  }

  lemma ManyDistinct(n: nat)
    ensures var all := AllNames(Many(n)); forall j, k | 0 <= j < k < |all| :: all[j] != all[k]
  {
    hide LongName, AllNames, NameBlobs;
    var all := AllNames(Many(n));
    AllOf(Many(n));
    forall j, k | 0 <= j < k < |all| ensures all[j] != all[k] {
      if k >= 2 {
        ManyAt(n, k);
        if j >= 2 { ManyAt(n, j); }
      }
    }
  }

  lemma ManyAt(n: nat, k: nat)
    requires 2 <= k < |AllNames(Many(n))|
    ensures var name := AllNames(Many(n))[k]; |name| == 1900 && name[1899] == 126 + k
  {
    hide LongName, NameBlobs;
    AllOf(Many(n));
    assert AllNames(Many(n))[k - 2 + 2] == LongName(k - 2);
  }

  /** With 128 of them, all different, a count is written behind the table of counts. */
  lemma AllocationMapOverflows() returns (k: nat)
    ensures var all := AllNames(Many(MAXPAGES));
            && Fits(all) && k < |all| && PlaceOf(all, k).page >= MAXPAGES
            && forall i, j | 0 <= i < j < |all| :: all[i] != all[j]
  {
    ManyDistinct(MAXPAGES);
    hide DryRun, PlaceOf, Fits;
    ManyPages(MAXPAGES);
    AllocationMapHolds(AllNames(Many(MAXPAGES)));
    k :| 0 <= k < |AllNames(Many(MAXPAGES))| && PlaceOf(AllNames(Many(MAXPAGES)), k).page >= MAXPAGES;
  }

  /** Both passes.  The directory has just the pages the dry run asked for, and the second pass
      ends on the last of them: every write of it was inside. */
  method RebuildDynroot(rest: seq<(Name, int)>) returns (dir: Directory)
    requires Fits(AllNames(rest)) && DryRun(AllNames(rest)).page < MAXPAGES
    ensures fresh(dir) && dir.Valid() && dir.names == AllNames(rest) && dir.vnodes == AllVnodes(rest)
    ensures dir.pages == DryRun(AllNames(rest)).page + 1 && dir.pos.page == dir.pages - 1
  {
    hide Fits, DryRun, Directory.Valid, AllNames, AllVnodes;
    ghost var all, nums := AllNames(rest), AllVnodes(rest);
    AllOf(rest);
    var curPage, curChunk := ComputeSize(rest);
    dir := new Directory(curPage + 1);
    assert all[..0] == [] && nums[..0] == [];
    dir.AddNth(all, nums, 0, DOT, 1);
    dir.AddNth(all, nums, 1, DOTDOT, 1);
    var i := 0;
    while i < |rest|
      invariant i <= |rest| && dir.Valid() && dir.pages == DryRun(all).page + 1
      invariant fresh(dir) && fresh(dir.alloMap) && fresh(dir.hashTable)
      invariant dir.names == all[..i + 2] && dir.vnodes == nums[..i + 2]
    {
      dir.AddNth(all, nums, i + 2, rest[i].0, rest[i].1);
      i := i + 1;
    }
    WholeSlice(all, |rest| + 2);
    WholeSlice(nums, |rest| + 2);
    dir.AtTheEnd();
  }

  /** The next name's page is one the dry run has counted. */
  lemma PageInside(all: seq<Name>, k: nat)
    requires Fits(all) && k < |all|
    ensures NameBlobs(all[k]) < EPP && After(DryRun(all[..k]), NameBlobs(all[k])).page <= DryRun(all).page
    ensures all[..k + 1] == all[..k] + [all[k]]
  {
    hide DryRun, PlaceOf, After, NameBlobs, Fits;
    DryRunSnoc(all, k);
    PlaceBounds(all, k);
    OneName(all, k);
  }

  lemma OneName(all: seq<Name>, k: nat)
    requires Fits(all) && k < |all|
    ensures NameBlobs(all[k]) < EPP && all[..k + 1] == all[..k] + [all[k]]
  {
    hide NameBlobs;
  }
}
