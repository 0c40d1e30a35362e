/** The directory name cache, updated in place: 300 entries in circular hash buckets and a free
    list.  It is a lossy map: it may forget, but what it answers is what was entered last, even
    though a removal that cannot get the write lock only blanks the entry where it lies. */
module NameCache {
  import opened Common
  import opened SlotChains
  import opened NameRings

  const AFSNCNAMESIZE: nat := 36
  const NOBODY: int := -1

  /** A name, as its characters. */
  type Name = seq<int>

  /** An entry but for its links.  A blanked entry has no directory and matches nothing. */
  datatype Info = Info(key: nat, dirp: int, vp: int, name: Name)

  function Hash(name: Name): nat { HashFrom(name, 0) }

  function Bucket(key: nat): (b: nat)
    ensures b < NHSIZE
  {
    key % NHSIZE
  }

  /** What has been entered and not removed since. */
  type Latest = map<(int, Name), int>

  ghost predicate EntryOk(e: Info, home: int, latest: Latest) {
    && 0 <= home <= NHSIZE
    && (home < NHSIZE ==> Bucket(e.key) == home)
    && (e.dirp != NOBODY ==>
          && home < NHSIZE && e.key == Hash(e.name)
          && (e.dirp, e.name) in latest && latest[(e.dirp, e.name)] == e.vp && e.vp != NOBODY)
  }

  ghost predicate AllOk(info: seq<Info>, home: seq<int>, latest: Latest)
    requires |home| == |info|
  {
    forall i | 0 <= i < |info| :: EntryOk(info[i], home[i], latest)
  }

  ghost predicate Matches(e: Info, dirp: int, name: Name) { e.dirp == dirp && e.name == name }

  /** All entries of other names stay as they are. */
  ghost predicate OthersStay(was: seq<Info>, now: seq<Info>, dirp: int, name: Name) {
    |now| == |was| && forall i | 0 <= i < |was| && !Matches(was[i], dirp, name) :: now[i] == was[i]
  }

  /** Entry i, and no other, is now this one. */
  ghost predicate Overwritten(was: seq<Info>, now: seq<Info>, i: int, e: Info) {
    0 <= i < |was| && now == was[i := e]
  }

  /** Entries are put in front, so the last is the oldest. */
  ghost predicate OldestOf(list: seq<nat>, i: int) { list != [] && i == list[|list| - 1] }

  /** No name of a directory is cached twice. */
  ghost predicate Distinct(info: seq<Info>) {
    forall i, j | 0 <= i < j < |info| && info[i].dirp != NOBODY :: !Matches(info[j], info[i].dirp, info[i].name)
  }

  /** A name with an entry has it on the bucket of its hash. */
  lemma OnItsBucket(info: seq<Info>, home: seq<int>, latest: Latest, dirp: int, name: Name)
    requires |home| == |info| && AllOk(info, home, latest) && dirp != NOBODY
    ensures forall i | 0 <= i < |info| && Matches(info[i], dirp, name) ::
              home[i] == Bucket(Hash(name)) && info[i].key == Hash(name)
  {
    forall i | 0 <= i < |info| && Matches(info[i], dirp, name)
      ensures home[i] == Bucket(Hash(name)) && info[i].key == Hash(name)
    {
      assert EntryOk(info[i], home[i], latest);
    }
  }

  ghost function PurgedDp(latest: Latest, adp: int): Latest {
    map k | k in latest && k.0 != adp && latest[k] != adp :: latest[k]
  }

  ghost function PurgedVp(latest: Latest, avc: int): Latest {
    map k | k in latest && latest[k] != avc :: latest[k]
  }

  lemma HomesInRange(info: seq<Info>, home: seq<int>, latest: Latest)
    requires |home| == |info| && AllOk(info, home, latest)
    ensures forall i | 0 <= i < |home| :: 0 <= home[i] <= NHSIZE
  {
    forall i | 0 <= i < |home| ensures 0 <= home[i] <= NHSIZE {
      assert EntryOk(info[i], home[i], latest);
    }
  }

  lemma EntryAt(info: seq<Info>, home: seq<int>, latest: Latest, i: nat)
    requires |home| == |info| && AllOk(info, home, latest) && i < |info|
    ensures EntryOk(info[i], home[i], latest)
  {
  }

  lemma MatchFacts(info: seq<Info>, home: seq<int>, latest: Latest, i: nat, dirp: int, name: Name)
    requires |home| == |info| && AllOk(info, home, latest) && i < |info| && Matches(info[i], dirp, name) && dirp != NOBODY
    ensures info[i].key == Hash(name) && (dirp, name) in latest && latest[(dirp, name)] == info[i].vp && info[i].vp != NOBODY
    ensures home[i] == Bucket(Hash(name))
  {
    EntryAt(info, home, latest, i);
  }

  lemma OthersDiffer(info: seq<Info>, i: nat, dirp: int, name: Name)
    requires Distinct(info) && i < |info| && Matches(info[i], dirp, name) && dirp != NOBODY
    ensures forall j | 0 <= j < |info| && j != i :: !Matches(info[j], dirp, name)
  {
  }

  /** One entry becomes the only one of its name. */
  lemma EnterOk(info: seq<Info>, home: seq<int>, latest: Latest, i: nat, e: Info)
    requires |home| == |info| && AllOk(info, home, latest) && Distinct(info) && i < |info|
    requires e.key == Hash(e.name) && e.dirp != NOBODY && e.vp != NOBODY
    requires Matches(info[i], e.dirp, e.name) || forall j | 0 <= j < |info| :: !Matches(info[j], e.dirp, e.name)
    ensures AllOk(info[i := e], home[i := Bucket(e.key)], latest[(e.dirp, e.name) := e.vp]) && Distinct(info[i := e])
  {
    var (info', home', latest') := (info[i := e], home[i := Bucket(e.key)], latest[(e.dirp, e.name) := e.vp]);
    hide Hash, Bucket;
    forall j | 0 <= j < |info| && j != i ensures !Matches(info[j], e.dirp, e.name) {
      if Matches(info[i], e.dirp, e.name) { OthersDiffer(info, i, e.dirp, e.name); }
    }
    forall j | 0 <= j < |info'| ensures EntryOk(info'[j], home'[j], latest') {
      if j != i { assert EntryOk(info[j], home[j], latest); }
    }
  }

  /** An entry without a directory is no trouble to anyone. */
  lemma BlankOk(info: seq<Info>, home: seq<int>, latest: Latest, i: nat, e: Info, h: int)
    requires |home| == |info| && AllOk(info, home, latest) && Distinct(info) && i < |info|
    requires e.dirp == NOBODY && (h == NHSIZE || (h == home[i] && e.key == info[i].key))
    ensures AllOk(info[i := e], home[i := h], latest) && Distinct(info[i := e])
  {
    var (info', home') := (info[i := e], home[i := h]);
    forall j | 0 <= j < |info'| ensures EntryOk(info'[j], home'[j], latest) {
      assert EntryOk(info[j], home[j], latest);
    }
  }

  lemma RemoveOk(info: seq<Info>, home: seq<int>, latest: Latest, dirp: int, name: Name)
    requires |home| == |info| && AllOk(info, home, latest) && forall i | 0 <= i < |info| :: !Matches(info[i], dirp, name)
    ensures AllOk(info, home, latest - {(dirp, name)})
  {
    forall j | 0 <= j < |info| ensures EntryOk(info[j], home[j], latest - {(dirp, name)}) {
      assert EntryOk(info[j], home[j], latest) && !Matches(info[j], dirp, name);
    }
  }

  lemma PurgedDpOk(info: seq<Info>, home: seq<int>, latest: Latest, adp: int)
    requires |home| == |info| && AllOk(info, home, latest) && adp != NOBODY
    requires forall i | 0 <= i < |info| :: info[i].dirp != adp && info[i].vp != adp
    ensures AllOk(info, home, PurgedDp(latest, adp))
  {
    forall j | 0 <= j < |info| ensures EntryOk(info[j], home[j], PurgedDp(latest, adp)) {
      assert EntryOk(info[j], home[j], latest);
    }
  }

  lemma PurgedVpOk(info: seq<Info>, home: seq<int>, latest: Latest, avc: int)
    requires |home| == |info| && AllOk(info, home, latest) && avc != NOBODY
    requires forall i | 0 <= i < |info| :: info[i].vp != avc
    ensures AllOk(info, home, PurgedVp(latest, avc))
  {
    forall j | 0 <= j < |info| ensures EntryOk(info[j], home[j], PurgedVp(latest, avc)) {
      assert EntryOk(info[j], home[j], latest);
    }
  }

  lemma AllBlank(info: seq<Info>, home: seq<int>, latest: Latest)
    requires |home| == |info| && AllOk(info, home, latest) && forall i | 0 <= i < |info| :: info[i].dirp == NOBODY
    ensures AllOk(info, home, map[])
  {
    forall j | 0 <= j < |info| ensures EntryOk(info[j], home[j], map[]) {
      assert EntryOk(info[j], home[j], latest);
    }
  }

  lemma NothingThreaded(heads: seq<int>, next: seq<int>, prev: seq<int>, lists: seq<seq<nat>>, home: seq<int>)
    requires |heads| == NHSIZE && |lists| == NHSIZE + 1 && |next| == |prev| == |home|
    requires forall b | 0 <= b < NHSIZE :: heads[b] == NULLIDX
    requires forall b | 0 <= b <= NHSIZE :: lists[b] == []
    requires forall i | 0 <= i < |home| :: home[i] == NULLIDX
    ensures Threaded(heads, NULLIDX, next, prev, lists, home)
  {
  }

  class Cache {
    const nameHash: array<int>
    const next: array<int>
    const prev: array<int>
    var info: seq<Info>
    var ncfreelist: int
    var nameptr: nat

    ghost var lists: seq<seq<nat>>
    ghost var home: seq<int>
    ghost var latest: Latest

    ghost predicate Sized()
      reads this
    {
      && nameHash != next && nameHash != prev && next != prev
      && nameHash.Length == NHSIZE && next.Length == prev.Length == NCSIZE
      && |info| == |home| == NCSIZE && nameptr < NHSIZE
    }

    ghost predicate Linked()
      reads this, nameHash, next, prev
    {
      Sized() && Threaded(nameHash[..], ncfreelist, next[..], prev[..], lists, home)
    }

    ghost predicate Valid()
      reads this, nameHash, next, prev
    {
      Linked() && AllOk(info, home, latest) && Distinct(info)
    }

    // ------------------------------------------------------------ the lists

    lemma BucketFacts(b: nat)
      requires Linked() && b < NHSIZE
      ensures |lists| == NHSIZE + 1 && |lists[b]| <= NCSIZE && NoDup(lists[b])
      ensures nameHash[b] == if lists[b] == [] then NULLIDX else lists[b][0]
      ensures forall i: nat :: i in lists[b] <==> i < NCSIZE && home[i] == b
      ensures forall k | 0 <= k < |lists[b]| :: lists[b][k] < NCSIZE && home[lists[b][k]] == b
      ensures forall k {:trigger next[lists[b][k]]} | 0 <= k < |lists[b]| :: next[lists[b][k]] == Succ(lists[b], k)
      ensures forall k {:trigger prev[lists[b][k]]} | 0 <= k < |lists[b]| :: prev[lists[b][k]] == Pred(lists[b], k)
    {
      OneList(nameHash[..], ncfreelist, next[..], prev[..], lists, home, b);
      var s := lists[b];
      DistinctBounded(s, NCSIZE);
      forall k | 0 <= k < |s| ensures next[s[k]] == Succ(s, k) && prev[s[k]] == Pred(s, k) {
        RingAt(next[..], prev[..], s, k);
      }
    }

    /** Off its bucket.  Everything on a bucket has a prev pointer, so the "bogus free list" panic
        cannot happen. */
    method Unlink(tnc: nat, key: nat)
      requires Linked() && tnc < NCSIZE && key < NHSIZE && home[tnc] == key
      modifies nameHash, next, prev, this`lists, this`home
      ensures Linked() && home == old(home)[tnc := NULLIDX] && |lists| == NHSIZE + 1
      ensures |old(lists)| == NHSIZE + 1 && tnc in old(lists[key])
      ensures lists == old(lists)[key := Removed(old(lists[key]), Position(old(lists[key]), tnc))]
    {
      hide Threaded, NoDup;
      BucketFacts(key);
      ghost var s := lists[key];
      ghost var k := Position(s, tnc);
      ghost var heads0, next0, prev0 := nameHash[..], next[..], prev[..];
      ThreadRemove(heads0, ncfreelist, next0, prev0, lists, home, key, k);
      assert prev[tnc] != NULLIDX;
      HeadIs(s, k);
      if tnc == next[tnc] {
        nameHash[key] := NULLIDX;
      } else {
        if tnc == nameHash[key] {
          nameHash[key] := next[tnc];
        }
        var p, n := prev[tnc], next[tnc];
        next[p] := n;
        prev[n] := p;
      }
      assert nameHash[..] == heads0[key := RemovedHead(heads0[key], s, k)];
      assert next[..] == RemovedNext(next0, s, k) && prev[..] == RemovedPrev(prev0, s, k);
      lists := lists[key := Removed(s, k)];
      home := home[tnc := NULLIDX];
    }

    /** To the front of the free list, with a null prev pointer. */
    method PushFree(tnc: nat)
      requires Linked() && tnc < NCSIZE && home[tnc] == NULLIDX
      modifies next, prev, this`lists, this`home, this`ncfreelist
      ensures Linked() && home == old(home)[tnc := NHSIZE]
    {
      ListCount();
      hide Threaded;
      ghost var next0, prev0 := next[..], prev[..];
      ThreadFree(nameHash[..], ncfreelist, next0, prev0, lists, home, tnc);
      prev[tnc] := NULLIDX;
      assert prev[..] == prev0[tnc := NULLIDX] && next[..] == next0;
      next[tnc] := ncfreelist;
      assert next[..] == next0[tnc := ncfreelist];
      ncfreelist := tnc;
      lists := lists[NHSIZE := [tnc] + lists[NHSIZE]];
      home := home[tnc := NHSIZE];
    }

    lemma ListCount()
      requires Linked()
      ensures |lists| == NHSIZE + 1
    {
    }

    /** RemoveEntry, and on to the free list. */
    method DropEntry(tnc: nat, key: nat)
      requires Linked() && tnc < NCSIZE && key < NHSIZE && home[tnc] == key
      modifies nameHash, next, prev, this`lists, this`home, this`ncfreelist, this`info
      ensures Linked() && home == old(home)[tnc := NHSIZE]
      ensures info == old(info)[tnc := old(info)[tnc].(key := 0)]
    {
      hide Threaded;
      Unlink(tnc, key);
      info := info[tnc := info[tnc].(key := 0)];
      PushFree(tnc);
    }

    method InsertEntry(tnc: nat)
      requires Linked() && tnc < NCSIZE && home[tnc] == NULLIDX
      modifies nameHash, next, prev, this`lists, this`home
      ensures Linked() && home == old(home)[tnc := Bucket(info[tnc].key)]
      ensures var b := Bucket(info[tnc].key);
              |old(lists)| == NHSIZE + 1 && lists == old(lists)[b := [tnc] + old(lists)[b]]
    {
      hide Threaded, NoDup, Bucket;
      var key := Bucket(info[tnc].key);
      BucketFacts(key);
      ghost var s := lists[key];
      ghost var heads0, next0, prev0 := nameHash[..], next[..], prev[..];
      ThreadInsert(heads0, ncfreelist, next0, prev0, lists, home, key, tnc);
      if nameHash[key] == NULLIDX {
        nameHash[key] := tnc;
        prev[tnc] := tnc;
        next[tnc] := tnc;
      } else {
        assert prev[s[0]] == s[|s| - 1];
        next[tnc] := nameHash[key];
        prev[tnc] := prev[next[tnc]];
        prev[next[tnc]] := tnc;
        next[prev[tnc]] := tnc;
        nameHash[key] := tnc;
      }
      assert nameHash[..] == heads0[key := tnc];
      assert next[..] == InsertedNext(next0, s, tnc) && prev[..] == InsertedPrev(prev0, s, tnc);
      lists := lists[key := [tnc] + s];
      home := home[tnc := key];
    }

    /** Some bucket is in use when the free list is empty. */
    lemma SomeBucket() returns (b: nat)
      requires Linked() && ncfreelist == NULLIDX && forall i | 0 <= i < NCSIZE :: 0 <= home[i] <= NHSIZE
      ensures b < NHSIZE && nameHash[b] != NULLIDX
    {
      OneList(nameHash[..], ncfreelist, next[..], prev[..], lists, home, NHSIZE);
      assert lists[NHSIZE] == [];
      hide Threaded;
      assert 0 !in lists[NHSIZE];
      b := home[0];
      BucketFacts(b);
      assert 0 in lists[b];
    }

    /** An entry to use: a free one, or the oldest of the next bucket in turn that has any.  One
        is always found, so the "null tnc" panic cannot happen.  Entries are put in front, so the last
        of a list is the oldest. */
    method GetMeAnEntry() returns (tnc: nat)
      requires Linked() && forall i | 0 <= i < NCSIZE :: 0 <= home[i] <= NHSIZE
      modifies nameHash, next, prev, this`lists, this`home, this`ncfreelist, this`nameptr
      ensures Linked() && tnc < NCSIZE && home == old(home)[tnc := NULLIDX]
      ensures old(ncfreelist) != NULLIDX ==> tnc == old(ncfreelist) && nameptr == old(nameptr)
      ensures old(ncfreelist) == NULLIDX ==>
        && (forall c: nat | c < NHSIZE && old(nameHash[c]) != NULLIDX :: Turn(old(nameptr), nameptr) <= Turn(old(nameptr), c))
        && |old(lists)| == NHSIZE + 1
        && (var s := old(lists)[nameptr]; s != [] && tnc == s[|s| - 1] && lists == old(lists)[nameptr := s[..|s| - 1]])
    {
      if ncfreelist != NULLIDX {
        tnc := TakeFree();
        return;
      }
      ghost var b := SomeBucket();
      hide Threaded;
      NextBucket(b);
      BucketFacts(nameptr);
      tnc := nameHash[nameptr];
      if prev[tnc] != tnc {
        tnc := prev[tnc];
      }
      ghost var s := lists[nameptr];
      assert tnc == s[|s| - 1];
      ghost var k := Position(s, tnc);
      Unlink(tnc, nameptr);
      LastRemoved(s, k);
    }

    lemma LastRemoved(s: seq<nat>, k: nat)
      requires NoDup(s) && k < |s| && s[k] == s[|s| - 1]
      ensures Removed(s, k) == s[..|s| - 1]
    {
      DistinctFrom(s, |s| - 1);
    }

    /** How many buckets after p bucket c comes, round the table. */
    ghost function Turn(p: nat, c: nat): nat { (c - p) % NHSIZE }

    method TakeFree() returns (tnc: nat)
      requires Linked() && ncfreelist != NULLIDX
      modifies this`lists, this`home, this`ncfreelist
      ensures Linked() && tnc == old(ncfreelist) && tnc < NCSIZE && home == old(home)[tnc := NULLIDX]
    {
      FreeInUse();
      hide Threaded;
      ThreadTake(nameHash[..], ncfreelist, next[..], prev[..], lists, home);
      tnc := ncfreelist;
      ncfreelist := next[tnc];
      lists := lists[NHSIZE := lists[NHSIZE][1..]];
      home := home[tnc := NULLIDX];
    }

    lemma FreeInUse()
      requires Linked() && ncfreelist != NULLIDX
      ensures |lists| == NHSIZE + 1 && lists[NHSIZE] != []
    {
    }

    /** Go on to the next bucket that is in use; b is one. */
    method NextBucket(ghost b: nat)
      requires Linked() && b < NHSIZE && nameHash[b] != NULLIDX
      modifies this`nameptr
      ensures Linked() && nameHash[nameptr] != NULLIDX
      ensures forall c: nat | c < NHSIZE && nameHash[c] != NULLIDX :: Turn(old(nameptr), nameptr) <= Turn(old(nameptr), c)
    {
      hide Threaded;
      ghost var p := nameptr;
      var ptr: nat, j: nat := nameptr, 0;
      var found := false;
      while j < NHSIZE + 2 && !found
        invariant found || (j < NHSIZE && ptr == (if p + j <= NHSIZE then p + j else p + j - NHSIZE))
        invariant forall c: nat | c < NHSIZE && Turn(p, c) < j :: nameHash[c] == NULLIDX
        invariant found ==> ptr < NHSIZE && nameHash[ptr] != NULLIDX && Turn(p, ptr) == j
        decreases NHSIZE + 2 - j, !found
      {
        if ptr >= NHSIZE {
          ptr := 0;
        }
        if nameHash[ptr] != NULLIDX {
          found := true;
        } else {
          j := j + 1;
          ptr := ptr + 1;
        }
      }
      nameptr := ptr;
    }

    // ------------------------------------------------------------ finding a name

    /** Walk the bucket of a name.  The walk comes back to the head before it has taken more
        steps than there are entries: a "DNLC cycle" is never seen. */
    method Find(dirp: int, name: Name, skey: nat) returns (found: int)
      requires Valid() && dirp != NOBODY && skey == Bucket(Hash(name))
      ensures found != NULLIDX ==> 0 <= found < NCSIZE && Matches(info[found], dirp, name) && home[found] == skey
      ensures found == NULLIDX ==> forall i | 0 <= i < NCSIZE :: !Matches(info[i], dirp, name)
    {
      hide Threaded, NoDup;
      OnItsBucket(info, home, latest, dirp, name);
      BucketFacts(skey);
      hide AllOk, Distinct, Hash, Bucket;
      ghost var s := lists[skey];
      var tnc := nameHash[skey];
      var safety := 0;
      while tnc != NULLIDX
        invariant s == [] ==> tnc == NULLIDX
        invariant s != [] ==> safety < |s| && tnc == s[safety]
        invariant forall k | 0 <= k < safety && k < |s| :: !Matches(info[s[k]], dirp, name)
        decreases |s| - safety
      {
        if info[tnc].dirp == dirp && info[tnc].name == name {
          return tnc;
        }
        if next[tnc] == nameHash[skey] {
          EndOfRing(s, safety);
          return NULLIDX;
        }
        assert safety <= NCSIZE;
        assert safety + 1 < |s|;
        tnc := next[tnc];
        safety := safety + 1;
      }
      return NULLIDX;
    }

    // ------------------------------------------------------------ the operations

    /** Some entry has this name, for this vnode. */
    ghost predicate Caches(dirp: int, name: Name, vp: int)
      reads this
    {
      exists i :: 0 <= i < |info| && Matches(info[i], dirp, name) && info[i].vp == vp
    }

    ghost predicate CachesName(dirp: int, name: Name)
      reads this
    {
      exists i :: 0 <= i < |info| && Matches(info[i], dirp, name)
    }

    /** Enter a name, unless the directory's version is not known to be current or the name is too
        long.  A name that is cached already keeps its entry; another one takes the entry at the front of
        the free list, or else the oldest of some bucket, and all other names stay. */
    method Enter(adp: int, aname: Name, avc: int, current: bool)
      requires Valid() && adp != NOBODY && avc != NOBODY
      modifies this, nameHash, next, prev
      ensures Valid()
      ensures if |aname| < AFSNCNAMESIZE && current
              then latest == old(latest)[(adp, aname) := avc] && Caches(adp, aname, avc)
              else latest == old(latest) && info == old(info)
      ensures |aname| < AFSNCNAMESIZE && current ==>
                exists i :: Overwritten(old(info), info, i, Info(Hash(aname), adp, avc, aname)) &&
                  (if old(CachesName(adp, aname)) then Matches(old(info)[i], adp, aname)
                   else if old(ncfreelist) != NULLIDX then i == old(ncfreelist) && old(info)[i].dirp == NOBODY
                   else |old(lists)| == NHSIZE + 1 && OldestOf(old(lists)[nameptr], i))
    {
      hide Threaded, AllOk, Distinct, Hash, Bucket;
      var key := Hash(aname);
      if |aname| >= AFSNCNAMESIZE || !current {
        return;
      }
      var tnc := Find(adp, aname, Bucket(key));
      ghost var latest' := latest[(adp, aname) := avc];
      var e := Info(key, adp, avc, aname);
      if tnc == NULLIDX {
        HomesInRange(info, home, latest);
        if ncfreelist != NULLIDX { FreeIsBlank(); }
        tnc := GetMeAnEntry();
        EnterOk(info, old(home), latest, tnc, e);
        info := info[tnc := e];
        InsertEntry(tnc);
        assert home == old(home)[tnc := Bucket(key)];
      } else {
        MatchFacts(info, home, latest, tnc, adp, aname);
        EnterOk(info, home, latest, tnc, e);
        info := info[tnc := info[tnc].(vp := avc)];
        assert info[tnc] == e && home[tnc := Bucket(key)] == home;
      }
      latest := latest';
      assert Matches(info[tnc], adp, aname) && Overwritten(old(info), info, tnc, e);
    }

    /** Nobody has the entry at the front of the free list. */
    lemma FreeIsBlank()
      requires Valid() && ncfreelist != NULLIDX
      ensures 0 <= ncfreelist < NCSIZE && info[ncfreelist].dirp == NOBODY
    {
      FreeInUse();
      OneList(nameHash[..], ncfreelist, next[..], prev[..], lists, home, NHSIZE);
      hide Threaded;
      assert ncfreelist == lists[NHSIZE][0];
      assert home[ncfreelist] == NHSIZE;
      EntryAt(info, home, latest, ncfreelist);
    }

    /** Take a name out.  Without the write lock the entry is blanked and stays where it is. */
    method Remove(adp: int, aname: Name, locked: bool)
      requires Valid() && adp != NOBODY
      modifies this, nameHash, next, prev
      ensures Valid()
      ensures if |aname| < AFSNCNAMESIZE
              then latest == old(latest) - {(adp, aname)} && forall i | 0 <= i < |info| :: !Matches(info[i], adp, aname)
              else latest == old(latest) && info == old(info)
      ensures OthersStay(old(info), info, adp, aname) && (!locked ==> home == old(home) && ncfreelist == old(ncfreelist))
    {
      hide Threaded, AllOk, Distinct, Hash, Bucket;
      if |aname| >= AFSNCNAMESIZE {
        return;
      }
      var skey := Bucket(Hash(aname));
      var tnc := Find(adp, aname, skey);
      if tnc == NULLIDX {
        RemoveOk(info, home, latest, adp, aname);
      } else {
        OthersDiffer(info, tnc, adp, aname);
        BlankOk(info, home, latest, tnc, info[tnc].(dirp := NOBODY), home[tnc]);
        info := info[tnc := info[tnc].(dirp := NOBODY)];
        assert home[tnc := home[tnc]] == home;
        if locked {
          BlankOk(info, home, latest, tnc, info[tnc].(key := 0), NHSIZE);
          DropEntry(tnc, skey);
        }
        RemoveOk(info, home, latest, adp, aname);
      }
      latest := latest - {(adp, aname)};
    }

    /** A hit is the vnode entered last for this name, and not one that is still being set up. */
    method Lookup(adp: int, aname: Name, settingUp: set<int>, locked: bool) returns (tvc: int)
      requires Valid() && adp != NOBODY
      modifies this, nameHash, next, prev
      ensures Valid()
      ensures tvc != NOBODY ==>
        && latest == old(latest) && info == old(info) && tvc !in settingUp
        && (adp, aname) in latest && latest[(adp, aname)] == tvc
      ensures tvc == NOBODY ==> latest == old(latest) || latest == old(latest) - {(adp, aname)}
      ensures tvc == NOBODY && |aname| < AFSNCNAMESIZE ==>
                forall vp | vp !in settingUp :: !old(Caches(adp, aname, vp))
      ensures OthersStay(old(info), info, adp, aname)
    {
      hide Threaded, AllOk, Distinct, Hash, Bucket;
      tvc := NOBODY;
      if |aname| >= AFSNCNAMESIZE {
        return;
      }
      var tnc := Find(adp, aname, Bucket(Hash(aname)));
      if tnc != NULLIDX {
        MatchFacts(info, home, latest, tnc, adp, aname);
        OthersDiffer(info, tnc, adp, aname);
        tvc := info[tnc].vp;
        if tvc in settingUp {
          Remove(adp, aname, locked);
          tvc := NOBODY;
        }
      }
    }

    /** A null prev pointer tells an entry of the free list. */
    lemma PrevTells(i: nat)
      requires Linked() && i < NCSIZE && 0 <= home[i] <= NHSIZE
      ensures prev[i] != NULLIDX <==> home[i] < NHSIZE
    {
      OneList(nameHash[..], ncfreelist, next[..], prev[..], lists, home, home[i]);
      var s := lists[home[i]];
      var k := Position(s, i);
      if home[i] < NHSIZE {
        BucketFacts(home[i]);
        assert prev[s[k]] == Pred(s, k);
      } else {
        assert prev[..][s[k]] == NULLIDX;
      }
    }

    /** Blank one entry, and put it on the free list if we may. */
    method Blank(i: nat, writelocked: bool)
      requires Valid() && i < NCSIZE
      modifies nameHash, next, prev, this`lists, this`home, this`ncfreelist, this`info
      ensures Valid() && info == old(info)[i := info[i]] && info[i].dirp == info[i].vp == NOBODY
    {
      hide Threaded, AllOk, Distinct, Bucket;
      HomesInRange(info, home, latest);
      EntryAt(info, home, latest, i);
      BlankOk(info, home, latest, i, info[i].(dirp := NOBODY, vp := NOBODY), home[i]);
      info := info[i := info[i].(dirp := NOBODY, vp := NOBODY)];
      assert home[i := home[i]] == home;
      PrevTells(i);
      if writelocked && prev[i] != NULLIDX {
        BlankOk(info, home, latest, i, info[i].(key := 0), NHSIZE);
        DropEntry(i, Bucket(info[i].key));
      }
    }

    /** Purge a directory: its own names, and the names it goes by. */
    method PurgeDp(adp: int, writelocked: bool)
      requires Valid() && adp != NOBODY
      modifies this, nameHash, next, prev
      ensures Valid() && latest == PurgedDp(old(latest), adp)
      ensures forall i | 0 <= i < |info| && old(info)[i].dirp != adp && old(info)[i].vp != adp :: info[i] == old(info)[i]
    {
      hide Threaded, AllOk, Distinct;
      ghost var was := info;
      var i := 0;
      while i < NCSIZE
        invariant i <= NCSIZE && Valid() && |was| == NCSIZE && latest == old(latest)
        invariant forall j | 0 <= j < i :: info[j].dirp != adp && info[j].vp != adp
        invariant forall j | 0 <= j < NCSIZE && (i <= j || (was[j].dirp != adp && was[j].vp != adp)) :: info[j] == was[j]
      {
        if info[i].dirp == adp || info[i].vp == adp {
          Blank(i, writelocked);
        }
        i := i + 1;
      }
      PurgedDpOk(info, home, latest, adp);
      latest := PurgedDp(latest, adp);
    }

    /** Purge a file: all the names it goes by. */
    method PurgeVp(avc: int, writelocked: bool)
      requires Valid() && avc != NOBODY
      modifies this, nameHash, next, prev
      ensures Valid() && latest == PurgedVp(old(latest), avc)
      ensures forall i | 0 <= i < |info| && old(info)[i].vp != avc :: info[i] == old(info)[i]
    {
      hide Threaded, AllOk, Distinct;
      ghost var was := info;
      var i := 0;
      while i < NCSIZE
        invariant i <= NCSIZE && Valid() && |was| == NCSIZE && latest == old(latest)
        invariant forall j | 0 <= j < i :: info[j].vp != avc
        invariant forall j | 0 <= j < NCSIZE && (i <= j || was[j].vp != avc) :: info[j] == was[j]
      {
        if info[i].vp == avc {
          Blank(i, writelocked);
        }
        i := i + 1;
      }
      PurgedVpOk(info, home, latest, avc);
      latest := PurgedVp(latest, avc);
    }

    /** Zero the entries and the buckets; no entry is anywhere. */
    method Wipe()
      requires Sized()
      modifies this, nameHash, next, prev
      ensures Linked() && latest == map[] && |lists| == NHSIZE + 1
      ensures forall i | 0 <= i < NCSIZE :: info[i] == Info(0, NOBODY, NOBODY, []) && home[i] == NULLIDX
    {
      hide Threaded;
      forall i | 0 <= i < NCSIZE { next[i] := NULLIDX; }
      forall i | 0 <= i < NCSIZE { prev[i] := NULLIDX; }
      forall i | 0 <= i < NHSIZE { nameHash[i] := NULLIDX; }
      ncfreelist := NULLIDX;
      info := seq(NCSIZE, _ => Info(0, NOBODY, NOBODY, []));
      lists := seq(NHSIZE + 1, _ => []);
      home := seq(NCSIZE, _ => NULLIDX);
      latest := map[];
      NothingThreaded(nameHash[..], next[..], prev[..], lists, home);
    }

    /** All entries on the free list, and every bucket empty. */
    method Clear()
      requires Sized()
      modifies this, nameHash, next, prev
      ensures Valid() && latest == map[] && forall i | 0 <= i < NCSIZE :: info[i].dirp == NOBODY
    {
      hide Threaded;
      Wipe();
      var i := 0;
      while i < NCSIZE
        invariant i <= NCSIZE && Linked() && latest == map[]
        invariant forall j | 0 <= j < NCSIZE :: home[j] == if j < i then NHSIZE else NULLIDX
        invariant forall j | 0 <= j < NCSIZE :: info[j].dirp == NOBODY
      {
        PushFree(i);
        i := i + 1;
      }
    }

    method BlankAll()
      requires Valid()
      modifies nameHash, next, prev, this`lists, this`home, this`ncfreelist, this`info
      ensures Valid() && forall i | 0 <= i < NCSIZE :: info[i].dirp == NOBODY
    {
      hide Threaded, AllOk, Distinct;
      var i := 0;
      while i < NCSIZE
        invariant i <= NCSIZE && Valid()
        invariant forall j | 0 <= j < i :: info[j].dirp == NOBODY
      {
        Blank(i, false);
        i := i + 1;
      }
    }

    /** Purge everything.  Without the write lock all entries are blanked in place. */
    method Purge(writelocked: bool)
      requires Valid()
      modifies this, nameHash, next, prev
      ensures Valid() && latest == map[] && forall i | 0 <= i < NCSIZE :: info[i].dirp == NOBODY
    {
      hide Threaded, AllOk, Distinct;
      if writelocked {
        Clear();
      } else {
        BlankAll();
        AllBlank(info, home, latest);
        latest := map[];
      }
    }

    /** An empty cache. */
    constructor ()
      ensures Valid() && latest == map[] && forall i | 0 <= i < NCSIZE :: info[i].dirp == NOBODY
    {
      nameHash := new int[NHSIZE];
      next := new int[NCSIZE];
      prev := new int[NCSIZE];
      info := seq(NCSIZE, _ => Info(0, NOBODY, NOBODY, []));
      home := seq(NCSIZE, _ => NULLIDX);
      nameptr := 0;
      new;
      Clear();
    }
  }

  /** The element at k is the head only at 0, and its own successor only when it is alone. */
  lemma HeadIs(s: seq<nat>, k: nat)
    requires NoDup(s) && k < |s|
    ensures s[k] == s[0] <==> k == 0
    ensures s[k] == Succ(s, k) <==> |s| == 1
  {
    if k > 0 { DistinctAt(s, 0, k); }
    if k + 1 < |s| { DistinctAt(s, k, k + 1); }
  }

  /** The successor is the head again only at the end of the ring. */
  lemma EndOfRing(s: seq<nat>, k: nat)
    requires NoDup(s) && k < |s| && Succ(s, k) == s[0]
    ensures k == |s| - 1
  {
    DistinctFrom(s, 0);
  }
}
