/** The disk cache's slot table updated in place: index arrays for two families of hash chains,
    a free and a discard list threaded through the second family's links, and the block
    counters.  `State` is the table as a value of CacheState; every method is proved against
    the changes defined there.  Each method runs under the cache's write lock. */
module DiskCache {
  import opened SlotChains
  import opened CacheState

  class SlotTable {
    const config: Config
    const dchashTbl: array<int>
    const dvhashTbl: array<int>
    const dcnextTbl: array<int>
    const dvnextTbl: array<int>
    var slots: seq<Entry>
    var numEntries: nat
    var ends: Ends
    var usage: Usage

    ghost var place: seq<Place>
    ghost var dcLists: seq<seq<nat>>
    ghost var dvLists: seq<seq<nat>>

    ghost function Repr(): set<object> {
      {this, dchashTbl, dvhashTbl, dcnextTbl, dvnextTbl}
    }

    ghost function State(): Table
      reads Repr()
    {
      Table(dchashTbl[..], dcnextTbl[..], dvhashTbl[..], dvnextTbl[..],
            ends, usage, slots, numEntries, place, dcLists, dvLists)
    }

    ghost predicate Separate() {
      && dchashTbl != dvhashTbl && dchashTbl != dcnextTbl && dchashTbl != dvnextTbl
      && dvhashTbl != dcnextTbl && dvhashTbl != dvnextTbl && dcnextTbl != dvnextTbl
    }

    ghost predicate Valid()
      reads Repr()
    {
      Separate() && Sized(config, State()) && Inv(config, State())
    }

    ghost function FreeList(): seq<nat>
      reads Repr()
      requires Sized(config, State())
    {
      FreeSlots(config, State())
    }

    ghost function DiscardList(): seq<nat>
      reads Repr()
      requires Sized(config, State())
    {
      DiscardedSlots(config, State())
    }

    // ------------------------------------------------------------ onto and off the lists

    /** Off both hash chains; the "dcache hc" and "dcache hv" panics are the walks of Unchain. */
    method Unhash(i: nat)
      requires Valid() && i < config.files && place[i] == Hashed
      modifies Repr()
      ensures Valid() && State() == Unhashed(config, old(State()), i)
      ensures OthersKept(old(dvnextTbl[..]), dvnextTbl[..], i)
    {
      hide Inv, Linked, NoDup, OthersKept;
      ghost var t := State();
      UnhashInv(config, t, i);
      OnBothChains(config, t, i);
      ghost var t' := Unhashed(config, t, i);
      var e := slots[i];
      var b, v := DcHash(config, e.fid, e.chunk), DvHash(config, e.fid);
      ghost var k, m := Position(dcLists[b], i), Position(dvLists[v], i);
      NextWithoutKeepsOthers(dvnextTbl[..], dvhashTbl[v], dvLists[v], m);
      Unchain(dchashTbl, dcnextTbl, b, i, dcLists[b], k);
      assert dchashTbl[..] == t'.dcHeads && dcnextTbl[..] == t'.dcNext;
      Unchain(dvhashTbl, dvnextTbl, v, i, dvLists[v], m);
      assert dvhashTbl[..] == t'.dvHeads && dvnextTbl[..] == t'.dvNext;
      hide HeadsWithout, NextWithout;
      dcLists := dcLists[b := Removed(dcLists[b], k)];
      dvLists := dvLists[v := Removed(dvLists[v], m)];
      place := place[i := Held];
      assert State() == t';
    }

    /** Onto the front of both hash chains. */
    method Rehash(i: nat)
      requires Valid() && i < config.files && place[i] == Held && !slots[i].discarded
      requires slots[i].fid.volume != 0 && slots[i].unique == slots[i].fid.unique
      modifies Repr()
      ensures Valid() && State() == Rehashed(config, old(State()), i)
      ensures OthersKept(old(dvnextTbl[..]), dvnextTbl[..], i)
    {
      hide Inv, OthersKept;
      ghost var t := State();
      RehashInv(config, t, i);
      var e := slots[i];
      var b, v := DcHash(config, e.fid, e.chunk), DvHash(config, e.fid);
      Chain(dchashTbl, dcnextTbl, b, i);
      Chain(dvhashTbl, dvnextTbl, v, i);
      dcLists := dcLists[b := [i] + dcLists[b]];
      dvLists := dvLists[v := [i] + dvLists[v]];
      place := place[i := Hashed];
      SameKeepsOthers(t.dvNext, dvnextTbl[..], i, t.dvHeads[v]);
      assert State() == Rehashed(config, t, i);
    }

    method FreeDCache(i: nat)
      requires Valid() && i < config.files && place[i] == Held && !slots[i].discarded
      requires slots[i].fid.volume == 0 && slots[i].chunkBytes == 0
      modifies Repr()
      ensures Valid() && place == old(place)[i := Free] && slots == old(slots)[i := old(slots)[i].(free := true)]
      ensures FreeList() == [i] + old(FreeList()) && DiscardList() == old(DiscardList())
      ensures usage == old(usage) && numEntries == old(numEntries)
      ensures OthersKept(old(dvnextTbl[..]), dvnextTbl[..], i)
    {
      hide Inv, Blocks, OthersKept;
      ghost var t := State();
      PutFreeInv(config, t, i);
      dvnextTbl[i] := ends.free;
      ends := ends.(free := i, freeCount := ends.freeCount + 1);
      slots := slots[i := slots[i].(free := true)];
      dvLists := dvLists[config.hashSize := [i] + dvLists[config.hashSize]];
      place := place[i := Free];
      assert dvnextTbl[..] == t.dvNext[i := t.ends.free];
      SameKeepsOthers(t.dvNext, dvnextTbl[..], i, t.ends.free);
      assert State() == PutFree(config, t, i);
    }

    method DiscardDCache(i: nat)
      requires Valid() && i < config.files && place[i] == Held
      modifies Repr()
      ensures Valid() && place == old(place)[i := Discarded]
      ensures slots == old(slots)[i := old(slots)[i].(fid := old(slots)[i].fid.(volume := 0), discarded := true)]
      ensures DiscardList() == [i] + old(DiscardList()) && FreeList() == old(FreeList())
      ensures usage == old(usage).(discarded := old(usage.discarded) + Blocks(config.mask, slots[i].chunkBytes))
      ensures numEntries == old(numEntries)
      ensures OthersKept(old(dvnextTbl[..]), dvnextTbl[..], i)
    {
      hide Inv, Blocks, OthersKept;
      ghost var t := State();
      PutDiscardedInv(config, t, i);
      var e := slots[i];
      usage := usage.(discarded := usage.discarded + Blocks(config.mask, e.chunkBytes));
      dvnextTbl[i] := ends.discard;
      ends := ends.(discard := i, discardCount := ends.discardCount + 1);
      slots := slots[i := e.(fid := e.fid.(volume := 0), discarded := true)];
      dvLists := dvLists[config.hashSize + 1 := [i] + dvLists[config.hashSize + 1]];
      place := place[i := Discarded];
      assert dvnextTbl[..] == t.dvNext[i := t.ends.discard];
      SameKeepsOthers(t.dvNext, dvnextTbl[..], i, t.ends.discard);
      assert State() == PutDiscarded(config, t, i);
    }

    method PopFree() returns (i: nat)
      requires Valid() && ends.free != NULLIDX
      modifies this
      ensures Valid() && i == old(ends.free) && i < config.files && old(place)[i] == Free
      ensures place == old(place)[i := Held] && slots == old(slots)[i := old(slots)[i].(free := false)]
      ensures old(FreeList()) == [i] + FreeList() && DiscardList() == old(DiscardList())
      ensures usage == old(usage) && numEntries == old(numEntries)
    {
      hide Inv, Blocks;
      ghost var t := State();
      FreeHead(config, t);
      TakeFreeInv(config, t);
      i := ends.free;
      ends := ends.(free := dvnextTbl[i], freeCount := ends.freeCount - 1);
      slots := slots[i := slots[i].(free := false)];
      dvLists := dvLists[config.hashSize := dvLists[config.hashSize][1..]];
      place := place[i := Held];
      assert State() == TakeFree(config, t);
    }

    method PopDiscarded() returns (i: nat)
      requires Valid() && ends.discard != NULLIDX
      modifies this
      ensures Valid() && i == old(ends.discard) && i < config.files && old(place)[i] == Discarded
      ensures place == old(place)[i := Held] && slots == old(slots) && slots[i].fid.volume == 0
      ensures old(DiscardList()) == [i] + DiscardList() && FreeList() == old(FreeList())
      ensures usage == old(usage).(discarded := old(usage.discarded) - Blocks(config.mask, slots[i].chunkBytes))
      ensures numEntries == old(numEntries)
    {
      hide Inv, Blocks;
      ghost var t := State();
      DiscardHead(config, t);
      SlotHeld(config, t);
      TakeDiscardedInv(config, t);
      i := ends.discard;
      ends := ends.(discard := dvnextTbl[i], discardCount := ends.discardCount - 1);
      usage := usage.(discarded := usage.discarded - Blocks(config.mask, slots[i].chunkBytes));
      dvLists := dvLists[config.hashSize + 1 := dvLists[config.hashSize + 1][1..]];
      place := place[i := Held];
      assert State() == TakeDiscarded(config, t);
    }

    // ------------------------------------------------------------ sizes and buckets

    /** The split-cache counters follow the bucket the slot is in. */
    method DCAdjustSize(bucket: nat, delta: int)
      requires |usage.buckets| == 3
      modifies this`usage
      ensures usage == if config.split then old(usage).(buckets := AddedTo(old(usage.buckets), bucket, delta))
                       else old(usage)
    {
      if config.split && bucket < 3 {
        usage := usage.(buckets := usage.buckets[bucket := usage.buckets[bucket] + delta]);
      }
    }

    method AdjustSize(i: nat, newSize: nat)
      requires Valid() && i < config.files && (place[i] == Held || place[i] == Hashed)
      modifies this
      ensures Valid() && State() == Resized(config, old(State()), i, newSize)
      ensures config.split && old(SplitExact(config, State())) ==> SplitExact(config, State())
    {
      hide Inv, Blocks, AddedTo, SplitExact;
      ghost var t := State();
      ResizedInv(config, t, i, newSize);
      InitedUnlessUninit(config, t, i);
      if config.split && SplitExact(config, t) {
        ResizedKeepsSplitExact(config, t, i, newSize);
      }
      var oldBlocks: int := Blocks(config.mask, slots[i].chunkBytes);
      slots := slots[i := slots[i].(chunkBytes := newSize)];
      var newBlocks: int := Blocks(config.mask, newSize);
      DCAdjustSize(slots[i].bucket, newBlocks - oldBlocks);
      usage := usage.(used := usage.used + (newBlocks - oldBlocks));
    }

    method DCMoveBucket(i: nat, size: int, bucket: nat)
      requires Valid() && i < config.files && bucket <= 2
      modifies this
      ensures Valid() && State() == Rebucketed(config, old(State()), i, size, bucket)
      ensures slots == old(slots)[i := slots[i]] && slots[i] == old(slots)[i].(bucket := slots[i].bucket)
      ensures place == old(place) && numEntries == old(numEntries) && ends == old(ends)
      ensures usage.used == old(usage.used) && usage.discarded == old(usage.discarded)
      ensures config.split && old(SplitExact(config, State())) && place[i] != Uninit ==>
                (SplitExact(config, State()) <==>
                 old(slots)[i].bucket == bucket || size == Blocks(config.mask, slots[i].chunkBytes))
    {
      hide Inv, AddedTo, SplitExact, Blocks;
      ghost var t := State();
      RebucketedInv(config, t, i, size, bucket);
      if config.split && SplitExact(config, t) && place[i] != Uninit {
        InitedUnlessUninit(config, t, i);
        RebucketedKeepsSplitExact(config, t, i, size, bucket);
      }
      if config.split {
        DCAdjustSize(slots[i].bucket, -size);
        slots := slots[i := slots[i].(bucket := bucket)];
        DCAdjustSize(bucket, size);
      }
    }

    // ------------------------------------------------------------ dropping a slot

    method HashOutDCache(i: nat, zap: bool)
      requires Valid() && i < config.files
      requires place[i] == Hashed || (place[i] == Held && slots[i].fid.volume == 0)
      modifies Repr()
      ensures Valid() && place == old(place)[i := Held]
      ensures slots == if zap then old(slots)[i := old(slots)[i].(fid := old(slots)[i].fid.(volume := 0))] else old(slots)
      ensures usage == old(usage) && ends == old(ends) && numEntries == old(numEntries)
      ensures FreeList() == old(FreeList())
      ensures DiscardList() == old(DiscardList())
      ensures OthersKept(old(dvnextTbl[..]), dvnextTbl[..], i)
    {
      hide Inv, OthersKept;
      SlotFacts(config, State(), i);
      UntouchedKeepsOthers(dvnextTbl[..], i);
      if slots[i].fid.volume != 0 {
        UnhashPlaced(config, State(), i);
        UnhashInv(config, State(), i);
        Unhash(i);
        hide Unhashed;
      }
      if zap {
        VolumeClearedInv(config, State(), i);
        slots := slots[i := slots[i].(fid := slots[i].fid.(volume := 0))];
      }
    }

    /** Out of the hash tables, and onto the discard list if there is something to truncate. */
    method FlushDCache(i: nat)
      requires Valid() && i < config.files && place[i] == Hashed
      modifies Repr()
      ensures Valid() && place == old(place)[i := if old(slots[i].chunkBytes) != 0 then Discarded else Free]
      ensures slots == old(slots)[i := slots[i]]
      ensures slots[i].chunkBytes == old(slots[i].chunkBytes) && slots[i].fid.volume == 0
      ensures usage.used == old(usage.used) && numEntries == old(numEntries)
      ensures OthersKept(old(dvnextTbl[..]), dvnextTbl[..], i)
    {
      hide Inv, Blocks, OthersKept;
      SlotFacts(config, State(), i);
      assert |slots| == |place| == config.files && !slots[i].discarded;
      hide Valid, Sized, State, FreeList, DiscardList;
      ghost var next := dvnextTbl[..];
      HashOutDCache(i, true);
      ghost var between := dvnextTbl[..];
      if slots[i].chunkBytes != 0 {
        DiscardDCache(i);
      } else {
        FreeDCache(i);
      }
      OthersKeptTwice(next, between, dvnextTbl[..], i);
    }

    /** The second half of freeing a discarded slot: truncate it and put it on the free list.
        Other threads may have run since it was popped. */
    method FinishFreeing(i: nat)
      requires Valid() && i < config.files && place[i] == Held && slots[i].fid.volume == 0
      modifies Repr()
      ensures Valid() && place == old(place)[i := Free]
      ensures slots == old(slots)[i := slots[i]]
      ensures usage.used == old(usage.used) - old(Blocks(config.mask, slots[i].chunkBytes))
      ensures usage.discarded == old(usage.discarded) && numEntries == old(numEntries)
      ensures FreeList() == [i] + old(FreeList())
      ensures DiscardList() == old(DiscardList())
    {
      hide Inv;
      NoBytesNoBlocks(config.mask);
      hide Blocks, AddedTo;
      AdjustSize(i, 0);
      DCMoveBucket(i, 0, 0);
      NotDiscardedInv(config, State(), i);
      slots := slots[i := slots[i].(discarded := false)];
      FreeDCache(i);
    }
  
    /** Free the next discarded slot, if any blocks are discarded.  Blocks in use that are not
        discarded are neither gained nor lost. */
    method FreeDiscardedDCache() returns (freed: bool)
      requires Valid()
      modifies Repr()
      ensures Valid() && freed == (old(usage.discarded) != 0)
      ensures !freed ==> State() == old(State())
      ensures freed ==>
        && (var i := old(ends.discard);
            && 0 <= i < config.files && old(place)[i] == Discarded && place == old(place)[i := Free]
            && old(DiscardList()) == [i] + DiscardList() && FreeList() == [i] + old(FreeList())
            && |old(slots)| == config.files && slots == old(slots)[i := slots[i]])
      ensures usage.used - usage.discarded == old(usage.used - usage.discarded)
      ensures numEntries == old(numEntries)
    {
      freed := usage.discarded != 0;
      if freed {
        DiscardedSomewhere(config, State());
        hide Inv, Blocks;
        var i := PopDiscarded();
        FinishFreeing(i);
      }
    }

    /** Free discarded slots until none is left or the blocks in use are down to `limit`: every
        turn takes one slot off the discard list. */
    method MaybeFreeDiscardedDCache(limit: int)
      requires Valid()
      modifies Repr()
      ensures Valid() && (usage.discarded == 0 || usage.used <= limit)
      ensures usage.used - usage.discarded == old(usage.used - usage.discarded)
      ensures forall j | 0 <= j < config.files ::
                if place[j] == old(place)[j] then slots[j] == old(slots)[j]
                else old(place)[j] == Discarded && place[j] == Free
    {
      ghost var p, e := place, slots;
      assert |p| == config.files && |e| == config.files;
      hide Inv;
      while usage.discarded != 0 && usage.used > limit
        invariant Valid()
        invariant usage.used - usage.discarded == old(usage.used - usage.discarded)
        invariant forall j | 0 <= j < config.files ::
                    if place[j] == p[j] then slots[j] == e[j] else p[j] == Discarded && place[j] == Free
        decreases |DiscardList()|
      {
        var freed := FreeDiscardedDCache();
      }
    }
  
    // ------------------------------------------------------------ taking a slot into use

    /** A discarded slot, taken back before anyone truncated it.  Its blocks move to bucket 0
        with it, and go away only when the caller wants an empty file. */
    method TakeBack(overwrite: bool) returns (i: nat)
      requires Valid() && ends.discard != NULLIDX
      modifies this
      ensures Valid() && i == old(ends.discard) && i < config.files && old(place)[i] == Discarded
      ensures place == old(place)[i := Held] && slots == old(slots)[i := slots[i]] && numEntries == old(numEntries)
      ensures !slots[i].discarded && slots[i].chunkBytes == if overwrite then 0 else old(slots)[i].chunkBytes
      ensures usage.used - usage.discarded ==
              old(usage.used - usage.discarded) + Blocks(config.mask, slots[i].chunkBytes)
      ensures usage.buckets == AfterReuse(config, old(usage.buckets), old(slots)[i], overwrite)
      ensures !config.split ==> slots[i].bucket == old(slots)[i].bucket
    {
      NoBytesNoBlocks(config.mask);
      hide Inv, Blocks, AddedTo;
      i := PopDiscarded();
      TwoMoves(config, usage.buckets, slots[i]);
      NotDiscardedInv(config, State(), i);
      slots := slots[i := slots[i].(discarded := false)];
      DCMoveBucket(i, Blocks(config.mask, slots[i].chunkBytes), 0);
      if overwrite {
        AdjustSize(i, 0);
      }
    }

    method Retag(i: nat, fid: Fid, chunk: int)
      requires Valid() && i < config.files && place[i] == Held
      modifies this`slots
      ensures Valid() && slots == old(slots)[i := old(slots)[i].(fid := fid, chunk := chunk, unique := fid.unique)]
    {
      hide Inv;
      RetaggedInv(config, State(), i, fid, chunk);
      slots := slots[i := slots[i].(fid := fid, chunk := chunk, unique := fid.unique)];
    }

    method TakeFresh(overwrite: bool) returns (i: nat)
      requires Valid() && (ends.free != NULLIDX || ends.discard != NULLIDX)
      modifies this
      ensures Valid() && i < config.files
      ensures i == old(if ends.discard == NULLIDX || (overwrite && ends.free != NULLIDX) then ends.free else ends.discard)
      ensures old(place)[i] == if i == old(ends.free) then Free else Discarded
      ensures place == old(place)[i := Held] && slots == old(slots)[i := slots[i]] && numEntries == old(numEntries)
      ensures !slots[i].discarded
      ensures slots[i].chunkBytes == if overwrite then 0 else old(slots)[i].chunkBytes
      ensures usage.used - usage.discarded ==
              old(usage.used - usage.discarded) + Blocks(config.mask, slots[i].chunkBytes)
      ensures usage.buckets == AfterReuse(config, old(usage.buckets), old(slots)[i], overwrite)
      ensures !config.split ==> slots[i].bucket == old(slots)[i].bucket
    {
      NoBytesNoBlocks(config.mask);
      FreeSlotsAreEmpty(config, State());
      hide Inv, Blocks, AfterReuse;
      ghost var was := slots;
      if ends.discard == NULLIDX || (overwrite && ends.free != NULLIDX) {
        i := PopFree();
        EmptySlotReused(config, usage.buckets, was[i], overwrite);
      } else {
        i := TakeBack(overwrite);
      }
    }

    /** A fresh slot for a chunk, from the free or the discard list.  `overwrite` asks for an
        empty one: the free list is preferred, and a discarded slot is truncated.  When the cache is
        split, a discarded slot reused with its data leaves its blocks in the wrong counter. */
    method AllocDCache(fid: Fid, chunk: int, overwrite: bool, bucket: nat) returns (i: nat)
      requires Valid() && (ends.free != NULLIDX || ends.discard != NULLIDX) && bucket <= 2
      modifies this
      ensures Valid() && i < config.files
      ensures i == old(if ends.discard == NULLIDX || (overwrite && ends.free != NULLIDX) then ends.free else ends.discard)
      ensures old(place)[i] == if i == old(ends.free) then Free else Discarded
      ensures place == old(place)[i := Held] && slots == old(slots)[i := slots[i]] && numEntries == old(numEntries)
      ensures slots[i].fid == fid && slots[i].chunk == chunk && slots[i].unique == fid.unique && !slots[i].discarded
      ensures slots[i].chunkBytes == if overwrite then 0 else old(slots)[i].chunkBytes
      ensures slots[i].bucket == if config.split then bucket else old(slots)[i].bucket
      ensures usage.used - usage.discarded ==
              old(usage.used - usage.discarded) + Blocks(config.mask, slots[i].chunkBytes)
      ensures usage.buckets == AfterReuse(config, old(usage.buckets), old(slots)[i], overwrite)
      ensures config.split && old(SplitExact(config, State())) ==>
                (SplitExact(config, State()) <==>
                 overwrite || bucket == 0 || Blocks(config.mask, slots[i].chunkBytes) == 0)
    {
      hide Inv, Blocks, SplitExact, AfterReuse;
      ghost var t := State();
      i := TakeFresh(overwrite);
      InitedUnlessUninit(config, t, i);
      Retag(i, fid, chunk);
      MovedLabel(i, bucket);
      if config.split && SplitExact(config, t) {
        ReuseMisfilesBlocks(config, t, State(), i, overwrite);
      }
    }

    /** A slot gets its label; its blocks stay where they are counted. */
    method MovedLabel(i: nat, bucket: nat)
      requires Valid() && i < config.files && place[i] == Held && bucket <= 2
      modifies this
      ensures Valid() && slots == old(slots)[i := slots[i]] && place == old(place) && numEntries == old(numEntries)
      ensures slots[i] == old(slots)[i].(bucket := if config.split then bucket else old(slots)[i].bucket)
      ensures usage == old(usage) && ends == old(ends)
    {
      NothingMoved(usage.buckets, slots[i].bucket, bucket);
      hide Inv, AddedTo;
      DCMoveBucket(i, 0, bucket);
    }
  
    // ------------------------------------------------------------ finding a chunk

    /** Slot i is hashed and holds this chunk of this file. */
    ghost predicate Holds(i: nat, fid: Fid, chunk: int)
      reads Repr()
      requires Sized(config, State())
    {
      i < config.files && place[i] == Hashed && slots[i].fid == fid && slots[i].chunk == chunk
    }

    ghost predicate Cached(fid: Fid, chunk: int)
      reads Repr()
      requires Sized(config, State())
    {
      exists i :: 0 <= i < config.files && Holds(i, fid, chunk)
    }

    /** Walk the chunk's hash chain; `us` is the slot before the one found. */
    method Search(fid: Fid, chunk: int) returns (index: int, us: int, ghost pos: nat)
      requires Valid()
      ensures index != NULLIDX ==>
        && 0 <= index < config.files && Holds(index, fid, chunk)
        && (var s := dcLists[DcHash(config, fid, chunk)];
            && pos < |s| && s[pos] == index
            && us == (if pos == 0 then NULLIDX else s[pos - 1]) && us < config.files)
      ensures index == NULLIDX <==> !Cached(fid, chunk)
    {
      hide Inv, Valid, Sized, State, DcHash;
      SearchFacts(fid, chunk);
      var b := DcHash(config, fid, chunk);
      ghost var s := dcLists[b];
      us := NULLIDX;
      index := dchashTbl[b];
      pos := 0;
      while index != NULLIDX
        invariant pos <= |s| && index == if pos < |s| then s[pos] else NULLIDX
        invariant us == if pos == 0 then NULLIDX else s[pos - 1]
        invariant forall k | 0 <= k < pos :: !Holds(s[k], fid, chunk)
        decreases |s| - pos
      {
        if slots[index].unique == fid.unique && slots[index].fid == fid && slots[index].chunk == chunk {
          assert Holds(index, fid, chunk);
          return;
        }
        us := index;
        index := dcnextTbl[index];
        pos := pos + 1;
      }
    }

    /** What a search needs to know of the chain it walks. */
    lemma SearchFacts(fid: Fid, chunk: int)
      requires Valid()
      ensures Sized(config, State()) && |slots| == |place| == dcnextTbl.Length == config.files
      ensures dchashTbl.Length == |dcLists| == config.hashSize > DcHash(config, fid, chunk) >= 0
      ensures var s := dcLists[DcHash(config, fid, chunk)];
              && dchashTbl[DcHash(config, fid, chunk)] == (if s == [] then NULLIDX else s[0])
              && (forall k | 0 <= k < |s| ::
                    s[k] < config.files && place[s[k]] == Hashed && slots[s[k]].unique == slots[s[k]].fid.unique)
              && (forall k {:trigger dcnextTbl[s[k]]} | 0 <= k < |s| :: dcnextTbl[s[k]] == Follow(s, k))
              && (forall i | 0 <= i < config.files && Holds(i, fid, chunk) :: i in s)
    {
      var b := DcHash(config, fid, chunk);
      DcChain(config, State(), b);
      hide Inv;
      LinksAt(dcnextTbl, dchashTbl[b], dcLists[b]);
      assert forall k | 0 <= k < |dcLists[b]| :: dcLists[b][k] in dcLists[b];
    }

    /** Finds a slot if and only if one is hashed for the chunk. */
    method FindDCache(fid: Fid, chunk: int) returns (index: int)
      requires Valid()
      ensures index != NULLIDX ==> 0 <= index < config.files && Holds(index, fid, chunk)
      ensures index == NULLIDX <==> !Cached(fid, chunk)
    {
      ghost var pos;
      var us;
      index, us, pos := Search(fid, chunk);
    }
  
    ghost predicate OneSlotPerChunk()
      reads Repr()
      requires Sized(config, State())
    {
      OnePerChunk(config, State())
    }

    lemma UnheldUnclaimed(fid: Fid, chunk: int)
      requires Sized(config, State()) && forall j | 0 <= j < config.files :: !Holds(j, fid, chunk)
      ensures Unclaimed(config, State(), fid, chunk)
    {
      forall j | 0 <= j < config.files && place[j] == Hashed
        ensures !(slots[j].fid == fid && slots[j].chunk == chunk)
      {
        assert !Holds(j, fid, chunk);
      }
    }

    /** A found slot is moved up to the beginning of its chain. */
    method MoveUp(b: nat, index: nat, us: int, ghost pos: nat)
      requires Valid() && b < config.hashSize
      requires pos < |dcLists[b]| && dcLists[b][pos] == index < config.files
      requires us == (if pos == 0 then NULLIDX else dcLists[b][pos - 1]) && us < config.files
      modifies Repr()
      ensures Valid() && place == old(place) && slots == old(slots) && usage == old(usage) && ends == old(ends)
      ensures numEntries == old(numEntries) && dchashTbl[b] == index
    {
      ghost var t := State();
      MoveUpFacts(config, t, b, pos);
      hide Inv;
      if dchashTbl[b] != index {
        FrontedInv(config, t, b, pos);
        dcnextTbl[us] := dcnextTbl[index];
        dcnextTbl[index] := dchashTbl[b];
        dchashTbl[b] := index;
        dcLists := dcLists[b := [index] + Removed(dcLists[b], pos)];
        assert State() == Fronted(config, t, b, pos);
      }
    }

    /** The lookup of a fetch: the slot that holds the chunk, or a fresh one entered for it, with the
        data, the label and the counters as the allocation leaves them. */
    method GetDCache(fid: Fid, chunk: int, overwrite: bool, bucket: nat) returns (i: nat, created: bool)
      requires Valid() && fid.volume != 0 && bucket <= 2
      requires Cached(fid, chunk) || ends.free != NULLIDX || ends.discard != NULLIDX
      modifies Repr()
      ensures Valid() && Holds(i, fid, chunk) && dchashTbl[DcHash(config, fid, chunk)] == i
      ensures created == !old(Cached(fid, chunk))
      ensures !created ==> place == old(place) && slots == old(slots) && usage == old(usage)
      ensures created ==> old(place)[i] in {Free, Discarded} &&
                          place == old(place)[i := Hashed] && slots == old(slots)[i := slots[i]]
      ensures created ==>
                && i == old(if ends.discard == NULLIDX || (overwrite && ends.free != NULLIDX) then ends.free else ends.discard)
                && slots[i].chunkBytes == (if overwrite then 0 else old(slots)[i].chunkBytes)
                && slots[i].bucket == (if config.split then bucket else old(slots)[i].bucket)
                && usage.used - usage.discarded ==
                   old(usage.used - usage.discarded) + Blocks(config.mask, slots[i].chunkBytes)
                && usage.buckets == AfterReuse(config, old(usage.buckets), old(slots)[i], overwrite)
      ensures created && config.split && old(SplitExact(config, State())) ==>
                (SplitExact(config, State()) <==>
                 overwrite || bucket == 0 || Blocks(config.mask, slots[i].chunkBytes) == 0)
      ensures old(OneSlotPerChunk()) ==> OneSlotPerChunk()
    {
      hide Inv, Blocks, OnePerChunk, AfterReuse;
      var b := DcHash(config, fid, chunk);
      var index, us, pos := Search(fid, chunk);
      created := index == NULLIDX;
      ghost var t := State();
      if !created {
        i := index;
        MoveUp(b, i, us, pos);
        SameOnePerChunk(config, t, State());
      } else {
        assert Unclaimed(config, t, fid, chunk) by {
          assert forall j | 0 <= j < config.files :: !Holds(j, fid, chunk);
          UnheldUnclaimed(fid, chunk);
        }
        i := AllocDCache(fid, chunk, overwrite, bucket);
        AllocKeepsOnePerChunk(config, t, State(), i);
        RehashInv(config, State(), i);
        Rehash(i);
      }
    }

    // ------------------------------------------------------------ walking a file's slots

    /** What a walk along a file-hash chain needs to know when it sets out. */
    lemma FileChain(fid: Fid)
      requires Valid()
      ensures var v := DvHash(config, fid); var s := dvLists[v];
              && dvhashTbl[v] == (if s == [] then NULLIDX else s[0]) && NoDup(s) && Ahead(dvnextTbl[..], s, 0)
              && (forall k | 0 <= k < |s| :: s[k] < config.files && place[s[k]] == Hashed)
              && (forall j: nat | j < config.files && place[j] == Hashed && slots[j].fid == fid :: j in s)
      ensures forall j | 0 <= j < config.files && place[j] == Hashed :: slots[j].unique == slots[j].fid.unique
    {
      var v := DvHash(config, fid);
      DvChain(config, State(), v);
      hide Inv;
      LinksAt(dvnextTbl, dvhashTbl[v], dvLists[v]);
      assert forall k | 0 <= k < |dvLists[v]| :: dvLists[v][k] in dvLists[v];
    }

    /** What smushing a file makes of a slot: a file's slot that may go is dropped, and every
        other one is left alone. */
    ghost predicate Smushed(fid: Fid, busy: bool, p: Place, e: Entry, p': Place, e': Entry) {
      if p == Hashed && e.fid == fid && !busy
      then p' == (if e.chunkBytes != 0 then Discarded else Free) && e'.fid.volume == 0 && e'.chunkBytes == e.chunkBytes
      else p' == p && e' == e
    }

    /** One stop of the walk: drop the slot if it is the file's and may go. */
    method SmushOne(i: nat, fid: Fid, busy: set<nat>, ghost s: seq<nat>, ghost p: nat)
      requires Valid() && NoDup(s) && p < |s| && s[p] == i < config.files && Ahead(dvnextTbl[..], s, p)
      requires place[i] == Hashed
      modifies Repr()
      ensures Valid() && usage.used == old(usage.used) && numEntries == old(numEntries) && Ahead(dvnextTbl[..], s, p + 1)
      ensures |slots| == |place| == config.files
      ensures slots == old(slots)[i := slots[i]] && place == old(place)[i := place[i]]
      ensures Smushed(fid, i in busy, Hashed, old(slots[i]), place[i], slots[i])
    {
      hide Ahead, NoDup, OthersKept, Inv, Blocks;
      SlotFacts(config, State(), i);
      hide Sized;
      ghost var next := dvnextTbl[..];
      if slots[i].unique == fid.unique && slots[i].fid == fid && i !in busy {
        FlushDCache(i);
      } else {
        UntouchedKeepsOthers(next, i);
      }
      StillAhead(next, dvnextTbl[..], s, p);
    }

    /** Drop every slot of a file that is neither dirty nor in use, and no other slot. */
    method TryToSmush(fid: Fid, busy: set<nat>)
      requires Valid()
      modifies Repr()
      ensures Valid() && usage.used == old(usage.used) && numEntries == old(numEntries)
      ensures forall j | 0 <= j < config.files ::
                Smushed(fid, j in busy, old(place)[j], old(slots)[j], place[j], slots[j])
    {
      hide Inv, Ahead, NoDup;
      var v := DvHash(config, fid);
      ghost var s, p0, e0 := dvLists[v], place, slots;
      assert |p0| == |e0| == config.files;
      FileChain(fid);
      hide Valid, Sized, State, DvHash, Blocks, FreeList, DiscardList;
      ghost var done: set<nat> := {};
      ghost var p := 0;
      var index := dvhashTbl[v];
      while index != NULLIDX
        invariant Valid() && usage.used == old(usage.used) && numEntries == old(numEntries)
        invariant |place| == |slots| == config.files
        invariant p <= |s| && index == (if p < |s| then s[p] else NULLIDX) && Ahead(dvnextTbl[..], s, p)
        invariant forall k | 0 <= k < |s| :: s[k] in done <==> k < p
        invariant forall j | 0 <= j < config.files :: j !in done ==> place[j] == p0[j] && slots[j] == e0[j]
        invariant forall j | j in done :: j < config.files && Smushed(fid, j in busy, p0[j], e0[j], place[j], slots[j])
        decreases |s| - p
      {
        NextAhead(dvnextTbl[..], s, p);
        var next := dvnextTbl[index];
        DistinctFrom(s, p);
        SmushOne(index, fid, busy, s, p);
        done := done + {index as nat};
        p := p + 1;
        index := next;
      }
    }

    // ------------------------------------------------------------ a new name for a file

    /** One stop of the walk: a slot of the old file becomes a slot of the new one. */
    method RekeyOne(i: nat, oldFid: Fid, newFid: Fid, ghost s: seq<nat>, ghost p: nat)
      requires Valid() && NoDup(s) && p < |s| && s[p] == i < config.files && Ahead(dvnextTbl[..], s, p)
      requires place[i] == Hashed && newFid.volume != 0
      modifies Repr()
      ensures Valid() && usage == old(usage) && ends == old(ends) && numEntries == old(numEntries)
      ensures Ahead(dvnextTbl[..], s, p + 1)
      ensures |slots| == |place| == config.files && place == old(place)
      ensures slots == old(slots)[i := Rekeyed(oldFid, newFid, Hashed, old(slots[i]))]
    {
      hide Ahead, NoDup, OthersKept, Inv, Blocks;
      SlotFacts(config, State(), i);
      ghost var next := dvnextTbl[..];
      if slots[i].unique == oldFid.unique && slots[i].fid == oldFid {
        HashOutDCache(i, false);
        ghost var between := dvnextTbl[..];
        Retag(i, newFid, slots[i].chunk);
        Rehash(i);
        OthersKeptTwice(next, between, dvnextTbl[..], i);
      } else {
        UntouchedKeepsOthers(next, i);
      }
      StillAhead(next, dvnextTbl[..], s, p);
    }

    /** After a file made while disconnected gets its real fid: every slot of the old fid is
        found under the new one, in the new buckets, and no other slot is touched.  Old and new
        fid may share buckets. */
    method Rekey(oldFid: Fid, newFid: Fid)
      requires Valid() && newFid.volume != 0
      modifies Repr()
      ensures Valid() && usage == old(usage) && ends == old(ends) && numEntries == old(numEntries)
      ensures RekeyedTable(config, old(State()), State(), oldFid, newFid)
    {
      hide Inv, Ahead, NoDup;
      var v := DvHash(config, oldFid);
      ghost var s, p0, e0 := dvLists[v], place, slots;
      assert |p0| == |e0| == config.files;
      FileChain(oldFid);
      hide Valid, Sized, State, DvHash;
      ghost var done: set<nat> := {};
      ghost var p := 0;
      var index := dvhashTbl[v];
      while index != NULLIDX
        invariant Valid() && usage == old(usage) && ends == old(ends) && numEntries == old(numEntries)
        invariant place == p0 && |slots| == config.files
        invariant p <= |s| && index == (if p < |s| then s[p] else NULLIDX) && Ahead(dvnextTbl[..], s, p)
        invariant forall k | 0 <= k < |s| :: s[k] in done <==> k < p
        invariant forall j | 0 <= j < config.files :: j !in done ==> slots[j] == e0[j]
        invariant forall j | j in done :: j < config.files && slots[j] == Rekeyed(oldFid, newFid, p0[j], e0[j])
        decreases |s| - p
      {
        NextAhead(dvnextTbl[..], s, p);
        var next := dvnextTbl[index];
        DistinctFrom(s, p);
        RekeyOne(index, oldFid, newFid, s, p);
        done := done + {index as nat};
        p := p + 1;
        index := next;
      }
    }

    /** Zap a slot after a failed fetch: it stays hashed, but nobody asks for unique number 0. */
    method Zap(i: nat)
      requires Valid() && i < config.files && place[i] == Hashed
      modifies this`slots
      ensures Valid() && slots == old(slots)[i := old(slots)[i].(fid := old(slots)[i].fid.(unique := 0), unique := 0)]
      ensures old(OneSlotPerChunk()) ==> OneSlotPerChunk()
    {
      ghost var t := State();
      ZappedInv(config, t, i);
      hide Inv, OnePerChunk;
      slots := slots[i := slots[i].(fid := slots[i].fid.(unique := 0), unique := 0)];
      assert State() == Zapped(t, i);
    }

    // ------------------------------------------------------------ start-up

    constructor (c: Config)
      requires c.hashSize > 0
      ensures Valid() && config == c && numEntries == 0 && usage == Usage(0, 0, [0, 0, 0])
      ensures forall i | 0 <= i < c.files :: place[i] == Uninit
    {
      config := c;
      dchashTbl := new int[c.hashSize](_ => NULLIDX);
      dvhashTbl := new int[c.hashSize](_ => NULLIDX);
      dcnextTbl := new int[c.files](_ => NULLIDX);
      dvnextTbl := new int[c.files](_ => NULLIDX);
      slots := seq(c.files, _ => BLANK);
      numEntries := 0;
      ends := Ends(NULLIDX, 0, NULLIDX, 0);
      usage := Usage(0, 0, [0, 0, 0]);
      place := seq(c.files, _ => Uninit);
      dcLists := seq(c.hashSize, _ => []);
      dvLists := seq(c.hashSize + 2, _ => []);
      new;
      assert State() == Empty(c);
      EmptyInv(c);
    }

    /** The next slot is read in, with no bytes charged to it yet. */
    method Begin(e: Entry) returns (i: nat)
      requires Valid() && e.bucket <= 2 && numEntries < config.files
      modifies this
      ensures Valid() && i == old(numEntries) && numEntries == i + 1 && i < config.files
      ensures place == old(place)[i := Held] && usage == old(usage)
      ensures slots == old(slots)[i := e.(chunkBytes := 0, free := false, discarded := false)]
    {
      hide Inv;
      BegunInv(config, State(), e);
      i := numEntries;
      slots := slots[i := e.(chunkBytes := 0, free := false, discarded := false)];
      numEntries := numEntries + 1;
      place := place[i := Held];
    }

    /** Its data can be used: into the hash tables with it, and charge its blocks. */
    method StartCached(i: nat, fileSize: nat)
      requires Valid() && i < config.files && place[i] == Held && !slots[i].discarded && slots[i].chunkBytes == 0
      requires slots[i].fid.volume != 0 && slots[i].unique == slots[i].fid.unique
      modifies Repr()
      ensures Valid() && place == old(place)[i := Hashed] && numEntries == old(numEntries)
      ensures slots == old(slots)[i := old(slots)[i].(chunkBytes := fileSize)]
      ensures usage.used == old(usage.used) + Blocks(config.mask, fileSize) && usage.discarded == old(usage.discarded)
    {
      NoBytesNoBlocks(config.mask);
      hide Inv, Blocks, AddedTo, OthersKept;
      RehashInv(config, State(), i);
      Rehash(i);
      AdjustSize(i, fileSize);
    }

    /** It cannot: onto the free list. */
    method StartFree(i: nat)
      requires Valid() && i < config.files && place[i] == Held && !slots[i].discarded && slots[i].chunkBytes == 0
      requires slots[i].fid.volume == 0
      modifies Repr()
      ensures Valid() && place == old(place)[i := Free] && numEntries == old(numEntries)
      ensures slots == old(slots)[i := slots[i]] && slots[i].fid.volume == 0 && slots[i].chunkBytes == 0
      ensures usage.used == old(usage.used) && usage.discarded == old(usage.discarded)
    {
      hide Inv, OthersKept, Rebucketed;
      DCMoveBucket(i, 0, 0);
      FreeDCache(i);
    }

    /** Take up the next slot of the cache-info file, whose record is e.  The cached data is
        used only if it has the recorded length and nothing else speaks against it (`suspect`);
        otherwise the slot starts out free. */
    method InitCacheFile(e: Entry, fileSize: nat, suspect: bool) returns (ok: bool)
      requires Valid() && e.bucket <= 2
      modifies Repr()
      ensures Valid() && ok == (old(numEntries) < config.files)
      ensures !ok ==> State() == old(State())
      ensures ok ==>
        && numEntries == old(numEntries) + 1
        && (var i := old(numEntries); var good := !suspect && e.fid.volume != 0 && e.chunkBytes == fileSize;
            && place == old(place)[i := if good then Hashed else Free]
            && |old(slots)| == config.files && slots == old(slots)[i := slots[i]]
            && (good ==> slots[i].fid == e.fid && slots[i].chunk == e.chunk && slots[i].chunkBytes == fileSize)
            && usage.used == old(usage.used) + if good then Blocks(config.mask, fileSize) else 0)
      ensures usage.discarded == old(usage.discarded)
    {
      hide Inv, Blocks, OthersKept;
      ok := numEntries < config.files;
      if ok {
        if suspect || e.fid.volume == 0 || e.chunkBytes != fileSize {
          var i := Begin(e.(fid := e.fid.(volume := 0), unique := 0));
          StartFree(i);
        } else {
          var i := Begin(e.(unique := e.fid.unique));
          StartCached(i, fileSize);
        }
      }
    }
  }
}
