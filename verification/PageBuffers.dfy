/** The pool of directory page buffers, updated in place: hash chains through the buffers,
    least-recently-used replacement with write-back, pinning, and the operations that empty or
    flush a file's buffers.  Every method keeps what a reader of any page would see. */
module PageBuffers {
  import opened Common
  import opened SlotChains
  import opened BufferPool

  class Pool {
    ghost const inodes: seq<int>
    const phTable: array<int>
    const hashNext: array<int>
    var bufs: seq<Buf>
    var timecounter: int
    var disk: Disk

    ghost var lists: seq<seq<nat>>
    ghost var home: seq<int>
    /** The buffers whose holder may have changed the data since it was last saved or marked. */
    ghost var unsaved: set<nat>

    ghost predicate Sized()
      reads this
    {
      phTable != hashNext && phTable.Length == |lists| == PHSIZE && hashNext.Length == |bufs| == |home|
    }

    ghost predicate Chained()
      reads this, phTable, hashNext
    {
      Sized() && Family(phTable[..], hashNext[..], lists, home)
    }

    ghost predicate AllHoused()
      reads this
      requires Sized()
    {
      forall i | 0 <= i < |bufs| :: Housed(bufs[i], home[i])
    }

    ghost predicate Valid()
      reads this, phTable, hashNext
    {
      && Chained() && AllHoused() && OwnInodes(inodes)
      && BufsOk(inodes, bufs, disk, unsaved) && Timely(bufs, timecounter)
    }

    ghost function Sees(fid: nat, page: nat): Option<Data>
      reads this
      requires fid < |inodes|
    {
      View(inodes, bufs, disk, fid, page)
    }

    /** The entry names the cache file it is the entry of. */
    ghost predicate Ours(adc: DCache) { adc.index < |inodes| && adc.inode == inodes[adc.index] }

    // ------------------------------------------------------------ the hash table

    lemma BucketFacts(b: nat)
      requires Chained() && b < PHSIZE
      ensures phTable[b] == (if lists[b] == [] then NULLIDX else lists[b][0])
      ensures forall k | 0 <= k < |lists[b]| :: lists[b][k] < |bufs|
      ensures forall k {:trigger hashNext[lists[b][k]]} | 0 <= k < |lists[b]| :: hashNext[lists[b][k]] == Follow(lists[b], k)
      ensures forall i | 0 <= i < |bufs| :: i in lists[b] <==> home[i] == b
      ensures NoDup(lists[b])
    {
      LinksAt(hashNext, phTable[b], lists[b]);
    }

    /** All buffers of a page are on the page's bucket. */
    lemma ChainFacts(b: nat)
      requires Chained() && AllHoused() && b < PHSIZE
      ensures phTable[b] == (if lists[b] == [] then NULLIDX else lists[b][0])
      ensures forall k | 0 <= k < |lists[b]| :: lists[b][k] < |bufs|
      ensures forall k {:trigger hashNext[lists[b][k]]} | 0 <= k < |lists[b]| :: hashNext[lists[b][k]] == Follow(lists[b], k)
      ensures forall i: nat | i < |bufs| && bufs[i].fid >= 0 && PHash(bufs[i].fid, bufs[i].page) == b :: i in lists[b]
      ensures NoDup(lists[b])
    {
      BucketFacts(b);
      hide Linked, NoDup, Family;
      forall i: nat | i < |bufs| && bufs[i].fid >= 0 && PHash(bufs[i].fid, bufs[i].page) == b
        ensures i in lists[b]
      {
        assert Housed(bufs[i], home[i]);
      }
    }

    /** The unrolled walk along a page's hash chain.  `parent` links to the buffer found, and
        `hint` is the last buffer looked at when there is none. */
    method Search(fid: nat, page: nat) returns (found: int, parent: int, hint: int, ghost pos: nat)
      requires Valid()
      ensures found != NULLIDX ==>
        && 0 <= found < |bufs| && Holds(bufs[found], fid, page)
        && pos < |lists[PHash(fid, page)]| && lists[PHash(fid, page)][pos] == found
        && parent == (if pos == 0 then NULLIDX else lists[PHash(fid, page)][pos - 1])
        && (pos == 0 ==> phTable[PHash(fid, page)] == found)
      ensures found == NULLIDX <==> !Cached(bufs, fid, page)
      ensures hint == NULLIDX || 0 <= hint < |bufs|
    {
      hide BufsOk, Timely, OwnInodes, Family, Housed;
      var h := PHash(fid, page);
      ghost var s := lists[h];
      ChainFacts(h);
      hide Chained, AllHoused, NoDup, PHash;
      pos := 0;
      found, parent, hint := NULLIDX, NULLIDX, NULLIDX;
      var tb := phTable[h];
      if tb == NULLIDX {
        return;
      }
      if Match(tb, fid, page) {
        found := tb;
        return;
      }
      var tb2 := NULLIDX;
      while true
        invariant pos < |s| && tb == s[pos]
        invariant forall k | 0 <= k <= pos :: !Holds(bufs[s[k]], fid, page)
        decreases |s| - pos
      {
        tb2 := hashNext[tb];
        if tb2 == NULLIDX {
          return NULLIDX, NULLIDX, tb, pos;
        }
        if Match(tb2, fid, page) {
          return tb2, tb, NULLIDX, pos + 1;
        }
        tb := hashNext[tb2];
        if tb == NULLIDX {
          return NULLIDX, NULLIDX, tb2, pos;
        }
        if Match(tb, fid, page) {
          return tb, tb2, NULLIDX, pos + 2;
        }
        pos := pos + 2;
      }
    }

    predicate Match(tb: int, fid: nat, page: nat)
      reads this
      requires 0 <= tb < |bufs|
      ensures Match(tb, fid, page) <==> Holds(bufs[tb], fid, page)
    {
      bufs[tb].page == page && bufs[tb].fid == fid
    }

    /** A buffer found further down its chain is moved to the front. */
    method Front(h: nat, parent: nat, p: nat, ghost pos: nat)
      requires Valid() && h < PHSIZE && 0 < pos < |lists[h]| && lists[h][pos] == p && lists[h][pos - 1] == parent
      requires p < |bufs| && parent < |bufs|
      modifies phTable, hashNext, this`lists
      ensures Valid() && phTable[h] == p && lists == old(lists)[h := [p] + Removed(old(lists[h]), pos)]
    {
      hide BufsOk, Timely, OwnInodes, Family;
      FrontFamily(phTable[..], hashNext[..], lists, home, h, pos);
      hashNext[parent] := hashNext[p];
      hashNext[p] := phTable[h];
      phTable[h] := p;
      lists := lists[h := [p] + Removed(lists[h], pos)];
      assert phTable[..] == old(phTable[..])[h := p];
      assert hashNext[..] == old(hashNext[..])[parent := old(hashNext[p])][p := old(phTable[h])];
    }

    /** Walk a bucket up to a buffer; `prev` is the buffer that links to where the walk ends. */
    method Locate(ap: nat, b: nat) returns (prev: int, tp: int, ghost k: nat)
      requires Chained() && ap < |bufs| && b < PHSIZE
      ensures if home[ap] == b then tp == ap && k < |lists[b]| && lists[b][k] == ap else tp == NULLIDX
      ensures k <= |lists[b]| && prev == if k == 0 then NULLIDX else lists[b][k - 1]
    {
      hide Linked, NoDup;
      BucketFacts(b);
      hide Chained;
      ghost var s := lists[b];
      prev, tp, k := NULLIDX, phTable[b], 0;
      while tp != NULLIDX && tp != ap
        invariant k <= |s| && tp == if k < |s| then s[k] else NULLIDX
        invariant prev == if k == 0 then NULLIDX else s[k - 1]
        invariant forall j | 0 <= j < k :: s[j] != ap
        decreases |s| - k
      {
        prev := tp;
        tp := hashNext[tp];
        k := k + 1;
      }
      assert k < |s| ==> s[k] in s;
    }

    /** Out of the bucket a buffer is on, if it is on one. */
    method Unbucket(ap: nat, b: nat)
      requires Chained() && ap < |bufs| && b < PHSIZE && (home[ap] == b || home[ap] == NULLIDX)
      modifies phTable, hashNext, this`lists, this`home
      ensures Chained() && home == old(home)[ap := NULLIDX]
    {
      hide Family, Linked, NoDup;
      var prev, tp, k := Locate(ap, b);
      if tp == ap {
        ghost var heads, next, s := phTable[..], hashNext[..], lists[b];
        RemoveFamily(heads, next, lists, home, b, k);
        if prev == NULLIDX {
          phTable[b] := hashNext[ap];
        } else {
          hashNext[prev] := hashNext[ap];
        }
        assert phTable[..] == HeadsWithout(heads, next, lists, b, k);
        assert hashNext[..] == NextWithout(next, s, k);
        lists := lists[b := Removed(s, k)];
        home := home[ap := NULLIDX];
      } else {
        assert home[ap := NULLIDX] == home;
      }
    }

    /** Move a buffer whose header has changed to the front of its new bucket. */
    method FixupBucket(ap: nat)
      requires Chained() && ap < |bufs| && bufs[ap].fid >= 0 && bufs[ap].hashIndex < PHSIZE
      requires home[ap] == bufs[ap].hashIndex || home[ap] == NULLIDX
      requires forall i | 0 <= i < |bufs| && i != ap :: Housed(bufs[i], home[i])
      modifies phTable, hashNext, this`lists, this`home, this`bufs
      ensures Chained() && AllHoused()
      ensures bufs == old(bufs)[ap := old(bufs[ap].(hashIndex := PHash(bufs[ap].fid, bufs[ap].page)))]
    {
      hide Family, PHash;
      Unbucket(ap, bufs[ap].hashIndex);
      var i := PHash(bufs[ap].fid, bufs[ap].page);
      PushFamily(phTable[..], hashNext[..], lists, home, i, ap);
      bufs := bufs[ap := bufs[ap].(hashIndex := i)];
      Chain(phTable, hashNext, i, ap);
      lists := lists[i := [ap] + lists[i]];
      home := home[ap := i];
    }

    // ------------------------------------------------------------ replacement

    ghost predicate AllLocked()
      reads this
    {
      forall i | 0 <= i < |bufs| :: bufs[i].lockers > 0
    }

    /** Nothing about the pool has changed but access times. */
    twostate predicate OnlyRetimed()
      reads this
    {
      Retimed(old(bufs), bufs) && disk == old(disk) && home == old(home) && lists == old(lists) && unsaved == old(unsaved)
    }

    /** The counter has wrapped: start all access times over, and settle for any unlocked
        buffer if the hint is not one. */
    method StartOver(hint: int) returns (lp: int)
      requires Valid() && (hint == NULLIDX || (0 <= hint < |bufs| && bufs[hint].lockers == 0))
      modifies this`bufs, this`timecounter
      ensures Valid() && OnlyRetimed() && timecounter == 1
      ensures SameViews(inodes, old(bufs), disk, bufs, disk)
      ensures lp == NULLIDX <==> old(AllLocked())
      ensures lp != NULLIDX ==> lp >= 0 && LeastRecent(bufs, lp)
    {
      ghost var was := bufs;
      hide BufsOk, Family, OwnInodes, SameViews;
      timecounter := 1;
      lp := hint;
      var i := 0;
      while i < |bufs|
        invariant i <= |bufs| == |was| && Retimed(was, bufs) && timecounter == 1
        invariant forall j | 0 <= j < i :: bufs[j].accesstime == 0
        invariant lp == NULLIDX || (0 <= lp < |bufs| && bufs[lp].lockers == 0)
        invariant lp == NULLIDX ==> forall j | 0 <= j < i :: was[j].lockers > 0
      {
        bufs := bufs[i := bufs[i].(accesstime := 0)];
        if lp == NULLIDX && bufs[i].lockers == 0 {
          lp := i;
        }
        i := i + 1;
      }
      RetimedOk(inodes, was, bufs, disk, unsaved);
      assert forall j | 0 <= j < |bufs| :: Housed(bufs[j], home[j]) by {
        forall j | 0 <= j < |bufs| ensures Housed(bufs[j], home[j]) {
          assert Housed(was[j], home[j]) && bufs[j] == was[j].(accesstime := 0);
        }
      }
    }

    /** The typical case: an unlocked buffer with the least access time, found by one pass that
        starts out from the hint's. */
    method PickOldest(hint: int) returns (lp: int)
      requires Timely(bufs, timecounter) && timecounter >= 0
      requires hint == NULLIDX || (0 <= hint < |bufs| && bufs[hint].lockers == 0)
      ensures lp == NULLIDX <==> AllLocked()
      ensures lp != NULLIDX ==> lp >= 0 && LeastRecent(bufs, lp)
    {
      lp := hint;
      var lt := if lp == NULLIDX then BUF_TIME_MAX else bufs[lp].accesstime;
      var i := 0;
      while i < |bufs|
        invariant i <= |bufs|
        invariant lp == NULLIDX || (0 <= lp < |bufs| && bufs[lp].lockers == 0)
        invariant lt == if lp == NULLIDX then BUF_TIME_MAX else bufs[lp].accesstime
        invariant forall j | 0 <= j < i && bufs[j].lockers == 0 :: lt <= bufs[j].accesstime
      {
        if bufs[i].lockers == 0 && bufs[i].accesstime < lt {
          lp := i;
          lt := bufs[i].accesstime;
        }
        i := i + 1;
      }
    }

    method ChooseSlot(hint: int) returns (lp: int)
      requires Valid() && (hint == NULLIDX || 0 <= hint < |bufs|)
      modifies this`bufs, this`timecounter
      ensures Valid() && OnlyRetimed() && timecounter == if old(timecounter) < 0 then 1 else old(timecounter)
      ensures old(timecounter) >= 0 ==> bufs == old(bufs)
      ensures SameViews(inodes, old(bufs), disk, bufs, disk)
      ensures lp == NULLIDX <==> old(AllLocked())
      ensures lp != NULLIDX ==> lp >= 0 && LeastRecent(bufs, lp)
    {
      hide BufsOk, Family, OwnInodes, Housed;
      lp := if hint != NULLIDX && bufs[hint].lockers == 0 then hint else NULLIDX;
      if timecounter < 0 {
        lp := StartOver(lp);
      } else {
        lp := PickOldest(lp);
      }
    }

    /** Write one buffer to its file. */
    method FlushBuffer(i: nat)
      requires Valid() && i < |bufs|
      modifies this`bufs, this`disk
      ensures Valid() && SameViews(inodes, old(bufs), old(disk), bufs, disk)
      ensures bufs == old(bufs)[i := old(bufs)[i].(dirty := false)]
    {
      hide BufsOk, Family, OwnInodes, SameViews;
      WriteBackOk(inodes, bufs, disk, unsaved, i);
      disk := Written(disk, bufs[i]);
      bufs := bufs[i := bufs[i].(dirty := false)];
    }

    /** The pool but for one buffer, which is in nobody's view: on its page's bucket, but not yet
        filled.  `was` and `wasDisk` are what readers still see. */
    ghost predicate Opening(lp: nat, adc: DCache, page: nat)
      reads this, phTable, hashNext
    {
      && Chained() && AllHoused() && OwnInodes(inodes) && Timely(bufs, timecounter)
      && lp < |bufs| && lp !in unsaved
      && bufs[lp].fid == adc.index && bufs[lp].inode == adc.inode && bufs[lp].page == page
      && bufs[lp].lockers == 0 && !bufs[lp].dirty
      && BufsOk(inodes, Emptied(bufs, lp), disk, unsaved)
    }

    /** A buffer for this page: none if and only if all are locked, and otherwise an unlocked one
        of least access time, whatever the hint; its old page is written back first if need be. */
    method NewSlot(adc: DCache, page: nat, hint: int) returns (lp: int)
      requires Valid() && Ours(adc) && (hint == NULLIDX || 0 <= hint < |bufs|)
      modifies this, phTable, hashNext
      ensures lp == NULLIDX <==> old(AllLocked())
      ensures lp == NULLIDX ==> Valid() && OnlyRetimed() && SameViews(inodes, old(bufs), old(disk), bufs, disk)
      ensures lp != NULLIDX ==>
        && lp >= 0 && Opening(lp, adc, page) && unsaved == old(unsaved) && OnlyTouched(old(bufs), bufs, lp, old(timecounter) < 0)
        && bufs[lp].accesstime == (if old(timecounter) < 0 then 1 else old(timecounter))
        && SameViews(inodes, old(bufs), old(disk), Emptied(bufs, lp), disk)
        && old(bufs)[lp].lockers == 0 && (old(timecounter) >= 0 ==> LeastRecent(old(bufs), lp))
    {
      hide BufsOk, Family, OwnInodes, SameViews, PHash;
      lp := ChooseSlot(hint);
      if lp == NULLIDX {
        return;
      }
      assert lp !in unsaved by { UnlockedIsSaved(lp); }
      ghost var bufs0, disk0 := bufs, disk;
      if bufs[lp].dirty {
        FlushBuffer(lp);
        SameViewsTwice(inodes, old(bufs), old(disk), bufs0, disk0, bufs, disk);
      }
      ghost var bufs1 := bufs;
      bufs := bufs[lp := bufs[lp].(fid := adc.index, inode := adc.inode, page := page, accesstime := timecounter)];
      timecounter := Tick(timecounter);
      FixupBucket(lp);
      EmptyOk(inodes, bufs1, disk, unsaved, lp, Emptied(bufs, lp)[lp]);
      assert bufs1[lp := Emptied(bufs, lp)[lp]] == Emptied(bufs, lp);
      SameViewsTwice(inodes, old(bufs), old(disk), bufs1, disk, Emptied(bufs, lp), disk);
    }

    lemma UnlockedIsSaved(i: nat)
      requires Valid() && i < |bufs| && bufs[i].lockers == 0
      ensures i !in unsaved
    {
      assert Saved(disk, bufs[i], i in unsaved);
    }

    // ------------------------------------------------------------ reading a page

    lemma FoundView(i: nat, fid: nat, page: nat)
      requires Valid() && i < |bufs| && Holds(bufs[i], fid, page) && fid < |inodes|
      ensures Sees(fid, page) == Some(bufs[i].data) && Cached(bufs, fid, page)
    {
      ViewOf(inodes, bufs, disk, i);
    }

    lemma InChain(h: nat, k: nat)
      requires Valid() && h < PHSIZE && k < |lists[h]|
      ensures lists[h][k] < |bufs|
    {
      BucketFacts(h);
    }

    /** Pin a buffer and note the access.  The counter does not come round to zero between two
        replacements. */
    method Pin(i: nat)
      requires Valid() && i < |bufs| && timecounter != -1
      modifies this`bufs, this`timecounter
      ensures Valid() && SameViews(inodes, old(bufs), disk, bufs, disk)
      ensures bufs == old(bufs)[i := old(bufs)[i].(lockers := old(bufs)[i].lockers + 1, accesstime := old(timecounter))]
    {
      hide BufsOk, Family, OwnInodes, SameViews;
      ghost var b := bufs[i].(lockers := bufs[i].lockers + 1, accesstime := timecounter);
      PinOk(inodes, bufs, disk, unsaved, unsaved, i, b);
      bufs := bufs[i := bufs[i].(lockers := bufs[i].lockers + 1, accesstime := timecounter)];
      timecounter := Tick(timecounter);
    }

    /** Bring the page in from disk, or give the buffer up again if there is no such page. */
    method Fill(lp: nat, adc: DCache, page: nat) returns (ok: bool)
      requires Ours(adc) && Opening(lp, adc, page) && !Cached(Emptied(bufs, lp), adc.index, page)
      modifies this`bufs
      ensures Valid() && ok == (page * PAGESIZE < adc.chunkBytes && (adc.inode, page) in disk)
      ensures SameViews(inodes, Emptied(old(bufs), lp), disk, bufs, disk)
      ensures bufs == old(bufs)[lp := bufs[lp]] && bufs[lp].accesstime == old(bufs[lp].accesstime)
      ensures !ok ==> bufs[lp].fid == NULLIDX && bufs[lp].lockers == 0
      ensures ok ==> lp < |bufs| && Holds(bufs[lp], adc.index, page) && bufs[lp].lockers == 1 &&
                     bufs[lp].data == disk[(adc.inode, page)]
    {
      hide BufsOk, Family, OwnInodes, SameViews, PHash;
      ghost var empty := Emptied(bufs, lp);
      ok := page * PAGESIZE < adc.chunkBytes && (adc.inode, page) in disk;
      if ok {
        bufs := bufs[lp := bufs[lp].(lockers := bufs[lp].lockers + 1, data := disk[(adc.inode, page)])];
        FillOk(inodes, empty, disk, unsaved, lp, bufs[lp]);
        assert empty[lp := bufs[lp]] == bufs;
        assert unsaved - {lp} == unsaved;
      } else {
        bufs := bufs[lp := bufs[lp].(fid := NULLIDX, inode := 0)];
        SameViewsOfSame(inodes, empty, disk);
        assert bufs == empty;
      }
    }

    /** Of all buffers only this one has been taken: it was not pinned, and of least access time. */
    ghost predicate TakenFor(was: seq<Buf>, now: seq<Buf>, lp: int, timecounter: int) {
      && OnlyTouched(was, now, lp, timecounter < 0) && was[lp].lockers == 0
      && (timecounter >= 0 ==> LeastRecent(was, lp))
    }

    /** Returns a pinned buffer with what a reader of the page sees, and changes nobody's view,
        whether it finds the page, replaces another one, or fails.  A page that is found is only pinned,
        its access time renewed, and moved up its chain; otherwise one unlocked buffer at most, of least
        access time, is taken, and every other one keeps its page, its pins and its data. */
    method DRead(adc: DCache, page: nat) returns (r: int)
      requires Valid() && Ours(adc) && timecounter != -1
      modifies this, phTable, hashNext
      ensures Valid() && SameViews(inodes, old(bufs), old(disk), bufs, disk)
      ensures r != NULLIDX ==>
        && 0 <= r < |bufs| == |old(bufs)| && Holds(bufs[r], adc.index, page)
        && bufs[r].lockers == old(bufs)[r].lockers + 1
        && Some(bufs[r].data) == old(Sees(adc.index, page))
      ensures r == NULLIDX <==> old(
        && !Cached(bufs, adc.index, page)
        && (AllLocked() || page * PAGESIZE >= adc.chunkBytes || Sees(adc.index, page) == None))
      ensures old(Cached(bufs, adc.index, page)) ==>
        && bufs == old(bufs)[r := old(bufs)[r].(lockers := old(bufs)[r].lockers + 1, accesstime := old(timecounter))]
        && phTable[PHash(adc.index, page)] == r
      ensures r != NULLIDX && !old(Cached(bufs, adc.index, page)) ==>
        && TakenFor(old(bufs), bufs, r, old(timecounter))
        && bufs[r].accesstime == if old(timecounter) < 0 then 1 else old(timecounter)
      ensures r == NULLIDX && old(AllLocked()) ==> Retimed(old(bufs), bufs)
      ensures r == NULLIDX && !old(AllLocked()) ==>
                exists lp :: TakenFor(old(bufs), bufs, lp, old(timecounter)) && bufs[lp].fid == NULLIDX && bufs[lp].lockers == 0
    {
      hide BufsOk, Family, OwnInodes, SameViews, PHash, Housed, LeastRecent;
      var found, parent, hint, pos := Search(adc.index, page);
      if found != NULLIDX {
        FoundView(found, adc.index, page);
        r := found;
        if parent != NULLIDX {
          InChain(PHash(adc.index, page), pos - 1);
          Front(PHash(adc.index, page), parent, found, pos);
        }
        Pin(found);
      } else {
        UncachedView(inodes, bufs, disk, adc.index, page);
        r := NewSlot(adc, page, hint);
        if r != NULLIDX {
          ghost var empty, disk1 := Emptied(bufs, r), disk;
          StillUncached(old(bufs), bufs, r, adc.index, page);
          UncachedView(inodes, empty, disk1, adc.index, page);
          SeenBefore(inodes, old(bufs), old(disk), empty, disk1, adc.index, page);
          ghost var lp: nat := r;
          var ok := Fill(r, adc, page);
          assert TakenFor(old(bufs), bufs, lp, old(timecounter));
          SameViewsTwice(inodes, old(bufs), old(disk), empty, disk1, bufs, disk);
          if !ok {
            r := NULLIDX;
          }
        }
      }
    }

    // ------------------------------------------------------------ making and changing a page

    /** A buffer other than i has this page. */
    ghost predicate Elsewhere(i: int, fid: nat, page: nat)
      reads this
    {
      exists j :: 0 <= j < |bufs| && j != i && Holds(bufs[j], fid, page)
    }

    /** A pinned buffer for a page that is not read in; the file's length is extended to cover
        it.  Nobody looks for a buffer that has the page already, so the pool stays in order if
        and only if there is none but the one that was replaced. */
    method DNew(adc: DCache, page: nat) returns (r: int, length: nat)
      requires Valid() && Ours(adc)
      modifies this, phTable, hashNext
      ensures r == NULLIDX <==> old(AllLocked())
      ensures r == NULLIDX ==>
        Valid() && SameViews(inodes, old(bufs), old(disk), bufs, disk) && length == adc.chunkBytes
      ensures r != NULLIDX ==>
        && 0 <= r < |bufs| && Holds(bufs[r], adc.index, page) && bufs[r].lockers == 1
        && (Valid() <==> !old(Elsewhere(r, adc.index, page)))
        && (!old(Cached(bufs, adc.index, page)) ==> Valid())
        && (Valid() ==> forall f: nat, p: nat | f < |inodes| && !(f == adc.index && p == page) :: Sees(f, p) == old(Sees(f, p)))
        && length >= (page + 1) * PAGESIZE && length >= adc.chunkBytes
        && (length == adc.chunkBytes || length == (page + 1) * PAGESIZE)
        && |bufs| == |old(bufs)| && old(bufs)[r].lockers == 0
        && forall j | 0 <= j < |bufs| && j != r :: bufs[j] == old(bufs)[j].(accesstime := bufs[j].accesstime)
    {
      hide BufsOk, Family, OwnInodes, SameViews, PHash, View;
      length := adc.chunkBytes;
      r := NewSlot(adc, page, NULLIDX);
      if r != NULLIDX {
        if (page + 1) * PAGESIZE > adc.chunkBytes {
          length := (page + 1) * PAGESIZE;
        }
        ghost var empty := Emptied(bufs, r);
        SlotElsewhere(old(bufs), bufs, r, adc.index, page);
        bufs := bufs[r := bufs[r].(lockers := bufs[r].lockers + 1)];
        unsaved := unsaved + {r as nat};
        assert empty[r := bufs[r]] == bufs;
        if !Cached(empty, adc.index, page) {
          FillOk(inodes, empty, disk, unsaved - {r}, r, bufs[r]);
          assert unsaved - {r} + {r} == unsaved;
          AllSeenBefore(inodes, old(bufs), old(disk), empty, disk);
        } else {
          TwiceIsNotOk(inodes, old(bufs), bufs, disk, unsaved, r, adc.index, page);
        }
      }
    }

    /** A holder changes the page through its pinned buffer. */
    method Store(i: nat, data: Data)
      requires Valid() && i < |bufs| && bufs[i].lockers > 0
      modifies this`bufs, this`unsaved
      ensures Valid() && bufs == old(bufs)[i := old(bufs)[i].(data := data)]
      ensures forall f: nat, p: nat | f < |inodes| ::
                Sees(f, p) == if Holds(bufs[i], f, p) then Some(data) else old(Sees(f, p))
    {
      hide BufsOk, Family, OwnInodes, View;
      StoreOk(inodes, bufs, disk, unsaved, i, data);
      bufs := bufs[i := bufs[i].(data := data)];
      unsaved := unsaved + {i};
    }

    /** Unpin a buffer, saying whether it has been changed.  The last holder to let go must say so
        if the change has not been marked yet. */
    method DRelease(i: int, modified: bool)
      requires i != NULLIDX ==> 0 <= i < |bufs| && bufs[i].lockers > 0 && (i in unsaved ==> modified || bufs[i].lockers > 1)
      requires Valid()
      modifies this`bufs, this`unsaved
      ensures Valid() && SameViews(inodes, old(bufs), disk, bufs, disk)
      ensures bufs == if i == NULLIDX then old(bufs) else
                old(bufs)[i := old(bufs)[i].(lockers := old(bufs)[i].lockers - 1, dirty := old(bufs)[i].dirty || modified)]
      ensures unsaved == if modified then old(unsaved) - {i} else old(unsaved)
    {
      hide BufsOk, Family, OwnInodes, SameViews;
      if i == NULLIDX {
        SameViewsOfSame(inodes, bufs, disk);
        assert unsaved - {i} == unsaved;
        return;
      }
      ghost var b := bufs[i].(lockers := bufs[i].lockers - 1, dirty := bufs[i].dirty || modified);
      ghost var left: set<nat> := if modified then unsaved - {i as nat} else unsaved;
      assert left == if i in left then unsaved else unsaved - {i as nat};
      PinOk(inodes, bufs, disk, unsaved, left, i, b);
      bufs := bufs[i := bufs[i].(lockers := bufs[i].lockers - 1)];
      if modified {
        bufs := bufs[i := bufs[i].(dirty := true)];
      }
      assert bufs == old(bufs)[i := b];
      unsaved := left;
    }

    // ------------------------------------------------------------ a whole file, and everything

    lemma ZappedIs(fid: nat, b: Buf)
      ensures ZappedBuf(fid, b) == if b.fid == fid then b.(fid := NULLIDX, inode := 0, dirty := false) else b
    {
    }

    /** Empty the buffers of a file on one bucket. */
    method ZapBucket(fid: nat, b: nat)
      requires Chained() && b < PHSIZE
      modifies this`bufs
      ensures |bufs| == |old(bufs)| && forall j | 0 <= j < |bufs| ::
                bufs[j] == if home[j] == b then ZappedBuf(fid, old(bufs)[j]) else old(bufs)[j]
    {
      hide Linked, NoDup, Family;
      BucketFacts(b);
      ghost var s, was := lists[b], bufs;
      assert |home| == |was| == hashNext.Length;
      assert forall k | 0 <= k < |s| :: home[s[k]] == b by { assert forall k | 0 <= k < |s| :: s[k] in s; }
      hide Chained, ZappedBuf;
      var tb := phTable[b];
      ghost var k := 0;
      ghost var done: set<nat> := {};
      while tb != NULLIDX
        invariant k <= |s| && tb == (if k < |s| then s[k] else NULLIDX) && |bufs| == |was|
        invariant forall j | 0 <= j < |s| :: s[j] in done <==> j < k
        invariant forall j | j in done :: j < |was| && home[j] == b
        invariant forall j | 0 <= j < |was| :: bufs[j] == if j in done then ZappedBuf(fid, was[j]) else was[j]
        decreases |s| - k
      {
        ZappedIs(fid, bufs[tb]);
        if bufs[tb].fid == fid {
          bufs := bufs[tb := bufs[tb].(fid := NULLIDX, inode := 0, dirty := false)];
        }
        DistinctFrom(s, k);
        done := done + {tb as nat};
        tb := hashNext[tb];
        k := k + 1;
      }
    }

    /** The four buckets hold all of the file's buffers. */
    lemma AllZapped(fid: nat, was: seq<Buf>)
      requires Sized() && |was| == |bufs|
      requires forall j | 0 <= j < |was| :: Housed(was[j], home[j])
      requires forall j | 0 <= j < |was| :: bufs[j] == was[j] || bufs[j] == ZappedBuf(fid, was[j])
      requires forall j, m | 0 <= j < |was| && 0 <= m <= PHPAGEMASK && home[j] == PHash(fid, m) ::
                 bufs[j] == ZappedBuf(fid, was[j])
      ensures ZappedBufs(fid, was, bufs) && AllHoused()
    {
      forall j | 0 <= j < |was| ensures bufs[j] == ZappedBuf(fid, was[j]) && Housed(bufs[j], home[j]) {
        hide PHash;
        assert Housed(was[j], home[j]);
        if was[j].fid == fid {
          FourBuckets(fid, was[j].page);
          assert home[j] == PHash(fid, was[j].page % 4);
        }
      }
    }

    /** Destroy a file's buffers, pinned or dirty as they may be: its four buckets are all there
        is to look at.  Readers of the file then see the disk. */
    method DZap(adc: DCache)
      requires Valid() && Ours(adc)
      modifies this`bufs
      ensures Valid() && ZappedBufs(adc.index, old(bufs), bufs)
      ensures forall f: nat, p: nat | f < |inodes| ::
                Sees(f, p) == if f == adc.index then DiskView(inodes, disk, f, p) else old(Sees(f, p))
    {
      ghost var was := bufs;
      hide BufsOk, Family, OwnInodes, View, ZappedBufs;
      assert forall j | 0 <= j < |was| :: Housed(was[j], home[j]);
      hide AllHoused, Housed;
      var i := 0;
      while i <= PHPAGEMASK
        invariant i <= PHPAGEMASK + 1 && Chained() && |bufs| == |was|
        invariant forall j | 0 <= j < |was| :: bufs[j] == was[j] || bufs[j] == ZappedBuf(adc.index, was[j])
        invariant forall j, m | 0 <= j < |was| && 0 <= m < i && home[j] == PHash(adc.index, m) ::
                    bufs[j] == ZappedBuf(adc.index, was[j])
      {
        ZapBucket(adc.index, PHash(adc.index, i));
        i := i + 1;
      }
      AllZapped(adc.index, was);
      ZappedViews(inodes, was, bufs, disk, unsaved, adc.index);
    }

    /** Write back the dirty buffers of a file on one bucket. */
    method FlushBucket(fid: nat, b: nat)
      requires Valid() && b < PHSIZE
      modifies this`bufs, this`disk
      ensures Valid() && SameViews(inodes, old(bufs), old(disk), bufs, disk)
      ensures |bufs| == |old(bufs)| && forall j | 0 <= j < |bufs| ::
                bufs[j] == if home[j] == b then FlushedBuf(fid, old(bufs)[j]) else old(bufs)[j]
    {
      hide Linked, NoDup, Family, BufsOk, OwnInodes, Housed, SameViews;
      BucketFacts(b);
      ghost var s, was, wasDisk := lists[b], bufs, disk;
      assert |home| == |was| == hashNext.Length;
      assert forall k | 0 <= k < |s| :: home[s[k]] == b by { assert forall k | 0 <= k < |s| :: s[k] in s; }
      SameViewsOfSame(inodes, bufs, disk);
      hide Valid;
      var tb := phTable[b];
      ghost var k := 0;
      ghost var done: set<nat> := {};
      while tb != NULLIDX
        invariant Valid() && SameViews(inodes, was, wasDisk, bufs, disk)
        invariant k <= |s| && tb == (if k < |s| then s[k] else NULLIDX) && |bufs| == |was|
        invariant forall j | 0 <= j < |s| :: s[j] in done <==> j < k
        invariant forall j | j in done :: j < |was| && home[j] == b
        invariant forall j | 0 <= j < |was| :: bufs[j] == if j in done then FlushedBuf(fid, was[j]) else was[j]
        decreases |s| - k
      {
        ghost var now, nowDisk := bufs, disk;
        if bufs[tb].fid == fid && bufs[tb].dirty {
          FlushBuffer(tb);
          SameViewsTwice(inodes, was, wasDisk, now, nowDisk, bufs, disk);
        }
        DistinctFrom(s, k);
        done := done + {tb as nat};
        tb := hashNext[tb];
        k := k + 1;
      }
    }

    /** Write back a file's dirty buffers.  They stay in the pool, and nobody's view changes. */
    method DFlushDCache(adc: DCache)
      requires Valid() && Ours(adc)
      modifies this`bufs, this`disk
      ensures Valid() && SameViews(inodes, old(bufs), old(disk), bufs, disk)
      ensures |bufs| == |old(bufs)| && forall j | 0 <= j < |bufs| :: bufs[j] == FlushedBuf(adc.index, old(bufs)[j])
      ensures forall p: nat | (forall j | 0 <= j < |bufs| && Holds(bufs[j], adc.index, p) :: j !in unsaved) ::
                DiskView(inodes, disk, adc.index, p) == old(Sees(adc.index, p))
    {
      ghost var was, wasDisk := bufs, disk;
      hide BufsOk, Family, OwnInodes, View, SameViews;
      assert forall j | 0 <= j < |was| :: Housed(was[j], home[j]);
      SameViewsOfSame(inodes, bufs, disk);
      assert Sized();
      hide AllHoused, Housed, Valid;
      var i := 0;
      while i <= PHPAGEMASK
        invariant i <= PHPAGEMASK + 1 && Valid() && |bufs| == |was|
        invariant SameViews(inodes, was, wasDisk, bufs, disk)
        invariant forall j | 0 <= j < |was| :: bufs[j] == was[j] || bufs[j] == FlushedBuf(adc.index, was[j])
        invariant forall j, m | 0 <= j < |was| && 0 <= m < i && home[j] == PHash(adc.index, m) ::
                    bufs[j] == FlushedBuf(adc.index, was[j])
      {
        ghost var now, nowDisk := bufs, disk;
        FlushBucket(adc.index, PHash(adc.index, i));
        SameViewsTwice(inodes, was, wasDisk, now, nowDisk, bufs, disk);
        i := i + 1;
      }
      AllFlushed(adc.index, was);
      FileOnDisk(adc, was, wasDisk);
    }

    lemma AllFlushed(fid: nat, was: seq<Buf>)
      requires Sized() && |was| == |bufs|
      requires forall j | 0 <= j < |was| :: Housed(was[j], home[j])
      requires forall j | 0 <= j < |was| :: bufs[j] == was[j] || bufs[j] == FlushedBuf(fid, was[j])
      requires forall j, m | 0 <= j < |was| && 0 <= m <= PHPAGEMASK && home[j] == PHash(fid, m) ::
                 bufs[j] == FlushedBuf(fid, was[j])
      ensures forall j | 0 <= j < |was| :: bufs[j] == FlushedBuf(fid, was[j])
    {
      forall j | 0 <= j < |was| ensures bufs[j] == FlushedBuf(fid, was[j]) {
        hide PHash;
        assert Housed(was[j], home[j]);
        if was[j].fid == fid {
          FourBuckets(fid, was[j].page);
          assert home[j] == PHash(fid, was[j].page % 4);
        }
      }
    }

    /** What is not being modified is on disk as it is seen. */
    lemma FileOnDisk(adc: DCache, was: seq<Buf>, wasDisk: Disk)
      requires Valid() && Ours(adc) && SameViews(inodes, was, wasDisk, bufs, disk) && |was| == |bufs|
      requires forall j | 0 <= j < |was| :: bufs[j] == FlushedBuf(adc.index, was[j])
      ensures forall p: nat | (forall j | 0 <= j < |bufs| && Holds(bufs[j], adc.index, p) :: j !in unsaved) ::
                DiskView(inodes, disk, adc.index, p) == View(inodes, was, wasDisk, adc.index, p)
    {
      forall p: nat | forall j | 0 <= j < |bufs| && Holds(bufs[j], adc.index, p) :: j !in unsaved
        ensures DiskView(inodes, disk, adc.index, p) == View(inodes, was, wasDisk, adc.index, p)
      {
        hide View, BufsOk;
        forall j | 0 <= j < |bufs| && Holds(bufs[j], adc.index, p) ensures !bufs[j].dirty {
          assert bufs[j] == FlushedBuf(adc.index, was[j]);
        }
        SavedPageIsOnDisk(inodes, bufs, disk, unsaved, adc.index, p);
        SeenBefore(inodes, was, wasDisk, bufs, disk, adc.index, p);
      }
    }

    /** Write back every dirty buffer.  Afterwards every page that nobody is modifying is on disk
        as readers have seen it all along. */
    method DFlush()
      requires Valid()
      modifies this`bufs, this`disk
      ensures Valid() && SameViews(inodes, old(bufs), old(disk), bufs, disk)
      ensures |bufs| == |old(bufs)| && forall j | 0 <= j < |bufs| :: bufs[j] == old(bufs)[j].(dirty := false)
      ensures forall f: nat, p: nat | f < |inodes| && (forall j | 0 <= j < |bufs| && Holds(bufs[j], f, p) :: j !in unsaved) ::
                DiskView(inodes, disk, f, p) == old(Sees(f, p))
    {
      ghost var was, wasDisk := bufs, disk;
      hide BufsOk, Family, OwnInodes, View, SameViews, Housed;
      SameViewsOfSame(inodes, bufs, disk);
      hide Valid;
      var i := 0;
      while i < |bufs|
        invariant i <= |bufs| == |was| && Valid()
        invariant SameViews(inodes, was, wasDisk, bufs, disk)
        invariant forall j | 0 <= j < |was| :: bufs[j] == if j < i then was[j].(dirty := false) else was[j]
      {
        ghost var now, nowDisk := bufs, disk;
        if bufs[i].dirty {
          FlushBuffer(i);
          SameViewsTwice(inodes, was, wasDisk, now, nowDisk, bufs, disk);
        }
        i := i + 1;
      }
      forall f: nat, p: nat | f < |inodes| && (forall j | 0 <= j < |bufs| && Holds(bufs[j], f, p) :: j !in unsaved)
        ensures DiskView(inodes, disk, f, p) == View(inodes, was, wasDisk, f, p)
      {
        PoolOnDisk(f, p);
        SeenBefore(inodes, was, wasDisk, bufs, disk, f, p);
      }
    }

    lemma PoolOnDisk(f: nat, p: nat)
      requires Valid() && f < |inodes| && forall j | 0 <= j < |bufs| :: !bufs[j].dirty
      requires forall j | 0 <= j < |bufs| && Holds(bufs[j], f, p) :: j !in unsaved
      ensures Sees(f, p) == DiskView(inodes, disk, f, p)
    {
      SavedPageIsOnDisk(inodes, bufs, disk, unsaved, f, p);
    }

    /** The pool starts out with empty buffers in no bucket. */
    constructor (nbuffers: nat, files: Disk, ghost own: seq<int>)
      requires OwnInodes(own)
      ensures Valid() && fresh(phTable) && fresh(hashNext) && inodes == own && disk == files
      ensures bufs == seq(nbuffers, _ => Buf(NULLIDX, 0, 0, 0, 0, false, 0, []))
      ensures forall f: nat, p: nat | f < |own| :: Sees(f, p) == DiskView(own, files, f, p)
    {
      inodes := own;
      phTable := new int[PHSIZE](_ => NULLIDX);
      hashNext := new int[nbuffers](_ => NULLIDX);
      bufs := seq(nbuffers, _ => Buf(NULLIDX, 0, 0, 0, 0, false, 0, []));
      timecounter := 1;
      disk := files;
      lists := seq(PHSIZE, _ => []);
      home := seq(nbuffers, _ => NULLIDX);
      unsaved := {};
    }
  }

  /** A page made anew twice, with two buffers to be had: each has one of its own. */
  method PageTwice(page: nat) returns (p: Pool)
    ensures !p.Valid() && |p.bufs| == 2 && Holds(p.bufs[0], 0, page) && Holds(p.bufs[1], 0, page)
  {
    p := new Pool(2, map[], [1]);
    hide SameViews, View, Pool.Sees, Pool.Valid;
    var adc := DCache(0, 1, 0);
    assert forall i | 0 <= i < 2 :: p.bufs[i].lockers == 0 && p.bufs[i].fid == NULLIDX;
    assert p.bufs[0].lockers == 0;
    var r0, length0 := p.DNew(adc, page);
    assert r0 != NULLIDX && p.bufs[r0].lockers == 1 && p.bufs[1 - r0].lockers == 0;
    var r1, length1 := p.DNew(adc, page);
    assert r1 == 1 - r0;
  }
}
