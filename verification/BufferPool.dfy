/** The directory page buffers as values: what a buffer record holds, what a reader of a file
    sees through the pool, and the facts every operation on the pool relies on. */
module BufferPool {
  import opened Common
  import opened SlotChains

  const PHPAGEMASK: nat := 3
  const PHSIZE: nat := 128
  const PAGESIZE: nat := 2048
  const BUF_TIME_MAX: int := 0x7fffffff

  /** The contents of a page. */
  type Data = seq<int>

  /** `fid` is the number of the cache file, or NULLIDX for an empty buffer. */
  datatype Buf = Buf(fid: int, inode: int, page: nat, accesstime: int, lockers: nat,
                     dirty: bool, hashIndex: nat, data: Data)

  /** The pages on disk, by inode and page number. */
  type Disk = map<(int, nat), Data>

  /** The cache entry of a directory, as far as the pool looks at it. */
  datatype DCache = DCache(index: nat, inode: int, chunkBytes: nat)

  /** Five bits of the file number and two of the page number. */
  function PHash(fid: nat, page: nat): (h: nat)
    ensures h < PHSIZE
  {
    fid % 128 / 4 * 4 + page % 4
  }

  /** A file's buffers are in the four buckets of its first four pages. */
  lemma FourBuckets(fid: nat, page: nat)
    ensures PHash(fid, page) == PHash(fid, page % 4) && page % 4 <= PHPAGEMASK
    ensures PHash(fid, page) / 4 == fid % 128 / 4 && PHash(fid, page) % 4 == page % 4
  {
  }

  /** The signed 32-bit access counter. */
  function Tick(t: int): int { if t == 0x7fffffff then -0x80000000 else t + 1 }

  ghost predicate Holds(b: Buf, fid: nat, page: nat) { b.fid == fid && b.page == page }

  ghost predicate Cached(bufs: seq<Buf>, fid: nat, page: nat) {
    exists i :: 0 <= i < |bufs| && Holds(bufs[i], fid, page)
  }

  ghost function DiskView(inodes: seq<int>, disk: Disk, fid: nat, page: nat): Option<Data>
    requires fid < |inodes|
  {
    if (inodes[fid], page) in disk then Some(disk[(inodes[fid], page)]) else None
  }

  /** What a reader of this page sees: the buffered data if there is any, else the disk. */
  ghost function View(inodes: seq<int>, bufs: seq<Buf>, disk: Disk, fid: nat, page: nat): Option<Data>
    requires fid < |inodes|
  {
    if Cached(bufs, fid, page) then
      (var i :| 0 <= i < |bufs| && Holds(bufs[i], fid, page); Some(bufs[i].data))
    else DiskView(inodes, disk, fid, page)
  }

  /** No two cache files share an inode, and inode 0 is nobody's. */
  ghost predicate OwnInodes(inodes: seq<int>) {
    && (forall f | 0 <= f < |inodes| :: inodes[f] != 0)
    && (forall f, g | 0 <= f < g < |inodes| :: inodes[f] != inodes[g])
  }

  ghost predicate Unique(bufs: seq<Buf>) {
    forall i, j | 0 <= i < j < |bufs| && bufs[i].fid != NULLIDX ::
      !(bufs[i].fid == bufs[j].fid && bufs[i].page == bufs[j].page)
  }

  /** A buffer belongs to a cache file and carries its inode, or it is empty. */
  ghost predicate Named(inodes: seq<int>, b: Buf) {
    if b.fid == NULLIDX then b.inode == 0
    else 0 <= b.fid < |inodes| && b.inode == inodes[b.fid]
  }

  /** A buffer that is neither dirty nor under modification agrees with the disk, and only a
      locked buffer can be under modification. */
  ghost predicate Saved(disk: Disk, b: Buf, unsaved: bool) {
    && (unsaved ==> b.lockers > 0)
    && (b.fid != NULLIDX && !b.dirty && !unsaved ==> (b.inode, b.page) in disk && disk[(b.inode, b.page)] == b.data)
  }

  ghost predicate BufsOk(inodes: seq<int>, bufs: seq<Buf>, disk: Disk, unsaved: set<nat>) {
    && Unique(bufs)
    && forall i | 0 <= i < |bufs| :: Named(inodes, bufs[i]) && Saved(disk, bufs[i], i in unsaved)
  }

  /** Where a buffer is in the hash table; a fresh buffer is in no bucket, and an emptied one
      stays in its old bucket. */
  ghost predicate Housed(b: Buf, home: int) {
    && b.hashIndex < PHSIZE
    && (home == NULLIDX || home == b.hashIndex)
    && (b.fid >= 0 ==> home == PHash(b.fid, b.page))
  }

  /** Access times are below the counter, unless it has just wrapped. */
  ghost predicate Timely(bufs: seq<Buf>, timecounter: int) {
    && -0x80000000 <= timecounter <= 0x7fffffff
    && forall i | 0 <= i < |bufs| && timecounter >= 0 :: bufs[i].accesstime < timecounter
  }

  lemma ViewOf(inodes: seq<int>, bufs: seq<Buf>, disk: Disk, i: nat)
    requires Unique(bufs) && i < |bufs| && 0 <= bufs[i].fid < |inodes|
    ensures View(inodes, bufs, disk, bufs[i].fid, bufs[i].page) == Some(bufs[i].data)
  {
    var (f, p) := (bufs[i].fid, bufs[i].page);
    assert Holds(bufs[i], f, p);
    var j :| 0 <= j < |bufs| && Holds(bufs[j], f, p) && View(inodes, bufs, disk, f, p) == Some(bufs[j].data);
  }

  ghost predicate SameViews(inodes: seq<int>, bufs: seq<Buf>, disk: Disk, bufs': seq<Buf>, disk': Disk) {
    forall f: nat, p: nat | f < |inodes| :: View(inodes, bufs', disk', f, p) == View(inodes, bufs, disk, f, p)
  }

  /** Changing one buffer and its own file's page cannot be seen through any other page. */
  lemma OtherViews(inodes: seq<int>, bufs: seq<Buf>, disk: Disk, bufs': seq<Buf>, disk': Disk, i: nat, f: nat, p: nat)
    requires Unique(bufs) && Unique(bufs') && |bufs'| == |bufs| && i < |bufs| && f < |inodes|
    requires bufs' == bufs[i := bufs'[i]]
    requires !Holds(bufs[i], f, p) && !Holds(bufs'[i], f, p)
    requires DiskView(inodes, disk', f, p) == DiskView(inodes, disk, f, p)
    ensures View(inodes, bufs', disk', f, p) == View(inodes, bufs, disk, f, p)
  {
    assert Cached(bufs', f, p) <==> Cached(bufs, f, p) by {
      forall j | 0 <= j < |bufs| ensures Holds(bufs'[j], f, p) <==> Holds(bufs[j], f, p) {}
    }
    if Cached(bufs, f, p) {
      var j :| 0 <= j < |bufs| && Holds(bufs[j], f, p);
      ViewOf(inodes, bufs, disk, j);
      ViewOf(inodes, bufs', disk', j);
    }
  }

  // ---------------------------------------------------------------- writing back

  function Written(disk: Disk, b: Buf): Disk { disk[(b.inode, b.page) := b.data] }

  /** Writing a buffer back changes no view and makes it agree with the disk. */
  lemma WriteBackOk(inodes: seq<int>, bufs: seq<Buf>, disk: Disk, unsaved: set<nat>, i: nat)
    requires OwnInodes(inodes) && BufsOk(inodes, bufs, disk, unsaved) && i < |bufs|
    ensures var (bufs', disk') := (bufs[i := bufs[i].(dirty := false)], Written(disk, bufs[i]));
            && BufsOk(inodes, bufs', disk', unsaved)
            && SameViews(inodes, bufs, disk, bufs', disk')
  {
    var (bufs', disk') := (bufs[i := bufs[i].(dirty := false)], Written(disk, bufs[i]));
    forall j | 0 <= j < |bufs'| ensures Named(inodes, bufs'[j]) && Saved(disk', bufs'[j], j in unsaved) {
      assert Named(inodes, bufs[j]) && Saved(disk, bufs[j], j in unsaved);
      assert Named(inodes, bufs[i]);
    }
    forall f: nat, p: nat | f < |inodes|
      ensures View(inodes, bufs', disk', f, p) == View(inodes, bufs, disk, f, p)
    {
      assert Named(inodes, bufs[i]);
      if Holds(bufs[i], f, p) {
        ViewOf(inodes, bufs, disk, i);
        ViewOf(inodes, bufs', disk', i);
      } else {
        OtherViews(inodes, bufs, disk, bufs', disk', i, f, p);
      }
    }
  }

  // ---------------------------------------------------------------- reusing a buffer

  /** Emptying an unlocked buffer that is not dirty changes no view: the disk has its data. */
  lemma EmptyOk(inodes: seq<int>, bufs: seq<Buf>, disk: Disk, unsaved: set<nat>, i: nat, b: Buf)
    requires OwnInodes(inodes) && BufsOk(inodes, bufs, disk, unsaved) && i < |bufs|
    requires bufs[i].fid == NULLIDX || (!bufs[i].dirty && i !in unsaved)
    requires b.fid == NULLIDX && b.inode == 0 && (i in unsaved ==> b.lockers > 0)
    ensures BufsOk(inodes, bufs[i := b], disk, unsaved)
    ensures SameViews(inodes, bufs, disk, bufs[i := b], disk)
  {
    var bufs' := bufs[i := b];
    forall f: nat, p: nat | f < |inodes|
      ensures View(inodes, bufs', disk, f, p) == View(inodes, bufs, disk, f, p)
    {
      if Holds(bufs[i], f, p) {
        ViewOf(inodes, bufs, disk, i);
        assert Saved(disk, bufs[i], i in unsaved);
        assert !Cached(bufs', f, p);
      } else {
        OtherViews(inodes, bufs, disk, bufs', disk, i, f, p);
      }
    }
  }

  /** Filling an empty buffer with a page that is not buffered.  With what the disk has, no
      view changes; with anything else, only that page's does, and it counts as unsaved. */
  lemma FillOk(inodes: seq<int>, bufs: seq<Buf>, disk: Disk, unsaved: set<nat>, i: nat, b: Buf)
    requires OwnInodes(inodes) && BufsOk(inodes, bufs, disk, unsaved) && i < |bufs|
    requires bufs[i].fid == NULLIDX && b.lockers > 0 && !b.dirty
    requires 0 <= b.fid < |inodes| && b.inode == inodes[b.fid] && !Cached(bufs, b.fid, b.page)
    ensures BufsOk(inodes, bufs[i := b], disk, unsaved + {i})
    ensures Cached(bufs[i := b], b.fid, b.page)
    ensures View(inodes, bufs[i := b], disk, b.fid, b.page) == Some(b.data)
    ensures forall f: nat, p: nat | f < |inodes| && !(f == b.fid && p == b.page) ::
              View(inodes, bufs[i := b], disk, f, p) == View(inodes, bufs, disk, f, p)
    ensures DiskView(inodes, disk, b.fid, b.page) == Some(b.data) ==>
              BufsOk(inodes, bufs[i := b], disk, unsaved - {i}) && SameViews(inodes, bufs, disk, bufs[i := b], disk)
  {
    var bufs' := bufs[i := b];
    assert Holds(bufs'[i], b.fid, b.page);
    assert Unique(bufs') by {
      forall j | 0 <= j < |bufs| ensures !Holds(bufs[j], b.fid, b.page) {}
    }
    ViewOf(inodes, bufs', disk, i);
    forall f: nat, p: nat | f < |inodes| && !(f == b.fid && p == b.page)
      ensures View(inodes, bufs', disk, f, p) == View(inodes, bufs, disk, f, p)
    {
      OtherViews(inodes, bufs, disk, bufs', disk, i, f, p);
    }
  }

  // ---------------------------------------------------------------- access times

  /** Only access times differ. */
  ghost predicate Retimed(bufs: seq<Buf>, bufs': seq<Buf>) {
    |bufs'| == |bufs| && forall i | 0 <= i < |bufs| :: bufs'[i] == bufs[i].(accesstime := bufs'[i].accesstime)
  }

  lemma RetimedOk(inodes: seq<int>, bufs: seq<Buf>, bufs': seq<Buf>, disk: Disk, unsaved: set<nat>)
    requires BufsOk(inodes, bufs, disk, unsaved) && Retimed(bufs, bufs')
    ensures BufsOk(inodes, bufs', disk, unsaved) && SameViews(inodes, bufs, disk, bufs', disk)
  {
    forall i | 0 <= i < |bufs| ensures Named(inodes, bufs'[i]) && Saved(disk, bufs'[i], i in unsaved) {
      assert bufs'[i] == bufs[i].(accesstime := bufs'[i].accesstime);
      assert Named(inodes, bufs[i]) && Saved(disk, bufs[i], i in unsaved);
    }
    forall f: nat, p: nat | f < |inodes|
      ensures View(inodes, bufs', disk, f, p) == View(inodes, bufs, disk, f, p)
    {
      forall j | 0 <= j < |bufs| ensures Holds(bufs'[j], f, p) <==> Holds(bufs[j], f, p) {
        assert bufs'[j] == bufs[j].(accesstime := bufs'[j].accesstime);
      }
      if Cached(bufs, f, p) {
        var j :| 0 <= j < |bufs| && Holds(bufs[j], f, p);
        ViewOf(inodes, bufs, disk, j);
        ViewOf(inodes, bufs', disk, j);
      }
    }
  }

  lemma SameViewsTwice(inodes: seq<int>, bufs: seq<Buf>, disk: Disk, bufs1: seq<Buf>, disk1: Disk, bufs2: seq<Buf>, disk2: Disk)
    requires SameViews(inodes, bufs, disk, bufs1, disk1) && SameViews(inodes, bufs1, disk1, bufs2, disk2)
    ensures SameViews(inodes, bufs, disk, bufs2, disk2)
  {
    hide View;
  }

  /** Only buffer i is not as it was, apart from access times if they have been started over. */
  ghost predicate OnlyTouched(was: seq<Buf>, now: seq<Buf>, i: int, startedOver: bool) {
    && 0 <= i < |now| == |was|
    && forall j | 0 <= j < |now| && j != i ::
         now[j] == (if startedOver then was[j].(accesstime := now[j].accesstime) else was[j])
  }

  /** An unlocked buffer that was used no later than any other unlocked one. */
  ghost predicate LeastRecent(bufs: seq<Buf>, lp: nat) {
    && lp < |bufs| && bufs[lp].lockers == 0
    && forall i | 0 <= i < |bufs| && bufs[i].lockers == 0 :: bufs[lp].accesstime <= bufs[i].accesstime
  }

  // ---------------------------------------------------------------- pins and stores

  ghost function Emptied(bufs: seq<Buf>, i: nat): seq<Buf>
    requires i < |bufs|
  {
    bufs[i := bufs[i].(fid := NULLIDX, inode := 0)]
  }

  /** Pinning, touching and releasing a buffer can be seen by nobody. */
  lemma PinOk(inodes: seq<int>, bufs: seq<Buf>, disk: Disk, unsaved: set<nat>, unsaved': set<nat>, i: nat, b: Buf)
    requires BufsOk(inodes, bufs, disk, unsaved) && i < |bufs|
    requires b == bufs[i].(accesstime := b.accesstime, lockers := b.lockers, dirty := b.dirty)
    requires unsaved' == (if i in unsaved' then unsaved else unsaved - {i})
    requires bufs[i].dirty ==> b.dirty
    requires (i in unsaved' ==> b.lockers > 0) && (i in unsaved && i !in unsaved' ==> b.dirty)
    ensures BufsOk(inodes, bufs[i := b], disk, unsaved') && SameViews(inodes, bufs, disk, bufs[i := b], disk)
  {
    var bufs' := bufs[i := b];
    forall j | 0 <= j < |bufs| ensures Named(inodes, bufs'[j]) && Saved(disk, bufs'[j], j in unsaved') {
      assert Named(inodes, bufs[j]) && Saved(disk, bufs[j], j in unsaved);
    }
    forall f: nat, p: nat | f < |inodes|
      ensures View(inodes, bufs', disk, f, p) == View(inodes, bufs, disk, f, p)
    {
      if Holds(bufs[i], f, p) {
        ViewOf(inodes, bufs, disk, i);
        ViewOf(inodes, bufs', disk, i);
      } else {
        OtherViews(inodes, bufs, disk, bufs', disk, i, f, p);
      }
    }
  }

  /** A store through a pinned buffer shows on that buffer's page and nowhere else. */
  lemma StoreOk(inodes: seq<int>, bufs: seq<Buf>, disk: Disk, unsaved: set<nat>, i: nat, data: Data)
    requires BufsOk(inodes, bufs, disk, unsaved) && i < |bufs| && bufs[i].lockers > 0
    ensures var bufs' := bufs[i := bufs[i].(data := data)];
            && BufsOk(inodes, bufs', disk, unsaved + {i})
            && (forall f: nat, p: nat | f < |inodes| ::
                  View(inodes, bufs', disk, f, p) == if Holds(bufs[i], f, p) then Some(data) else View(inodes, bufs, disk, f, p))
  {
    var bufs' := bufs[i := bufs[i].(data := data)];
    forall j | 0 <= j < |bufs| ensures Named(inodes, bufs'[j]) && Saved(disk, bufs'[j], j in unsaved + {i}) {
      assert Named(inodes, bufs[j]) && Saved(disk, bufs[j], j in unsaved);
    }
    forall f: nat, p: nat | f < |inodes|
      ensures View(inodes, bufs', disk, f, p) == if Holds(bufs[i], f, p) then Some(data) else View(inodes, bufs, disk, f, p)
    {
      if Holds(bufs[i], f, p) {
        ViewOf(inodes, bufs', disk, i);
      } else {
        OtherViews(inodes, bufs, disk, bufs', disk, i, f, p);
      }
    }
  }

  // ---------------------------------------------------------------- a whole file at once

  ghost function ZappedBuf(fid: nat, b: Buf): Buf {
    if b.fid == fid then b.(fid := NULLIDX, inode := 0, dirty := false) else b
  }

  ghost function FlushedBuf(fid: nat, b: Buf): Buf {
    if b.fid == fid then b.(dirty := false) else b
  }

  ghost predicate ZappedBufs(fid: nat, bufs: seq<Buf>, bufs': seq<Buf>) {
    |bufs'| == |bufs| && forall j | 0 <= j < |bufs| :: bufs'[j] == ZappedBuf(fid, bufs[j])
  }

  /** Zapping a file's buffers brings the disk's pages back into view, and leaves every other
      file's view alone. */
  lemma ZappedViews(inodes: seq<int>, bufs: seq<Buf>, bufs': seq<Buf>, disk: Disk, unsaved: set<nat>, fid: nat)
    requires BufsOk(inodes, bufs, disk, unsaved) && ZappedBufs(fid, bufs, bufs')
    ensures BufsOk(inodes, bufs', disk, unsaved)
    ensures forall f: nat, p: nat | f < |inodes| ::
              View(inodes, bufs', disk, f, p) == if f == fid then DiskView(inodes, disk, f, p) else View(inodes, bufs, disk, f, p)
  {
    forall j | 0 <= j < |bufs| ensures Named(inodes, bufs'[j]) && Saved(disk, bufs'[j], j in unsaved) {
      assert bufs'[j] == ZappedBuf(fid, bufs[j]);
      assert Named(inodes, bufs[j]) && Saved(disk, bufs[j], j in unsaved);
    }
    forall f: nat, p: nat | f < |inodes|
      ensures View(inodes, bufs', disk, f, p) == if f == fid then DiskView(inodes, disk, f, p) else View(inodes, bufs, disk, f, p)
    {
      forall j | 0 <= j < |bufs| ensures Holds(bufs'[j], f, p) <==> f != fid && Holds(bufs[j], f, p) {
        assert bufs'[j] == ZappedBuf(fid, bufs[j]);
      }
      if f != fid && Cached(bufs, f, p) {
        var j :| 0 <= j < |bufs| && Holds(bufs[j], f, p);
        assert Holds(bufs'[j], f, p) && bufs'[j] == ZappedBuf(fid, bufs[j]);
        ViewOf(inodes, bufs, disk, j);
        ViewOf(inodes, bufs', disk, j);
      }
    }
  }

  /** A page that no dirty buffer and nobody's modification covers is on disk as it is seen. */
  lemma SavedPageIsOnDisk(inodes: seq<int>, bufs: seq<Buf>, disk: Disk, unsaved: set<nat>, f: nat, p: nat)
    requires BufsOk(inodes, bufs, disk, unsaved) && f < |inodes|
    requires forall i | 0 <= i < |bufs| && Holds(bufs[i], f, p) :: !bufs[i].dirty && i !in unsaved
    ensures View(inodes, bufs, disk, f, p) == DiskView(inodes, disk, f, p)
  {
    if Cached(bufs, f, p) {
      var i :| 0 <= i < |bufs| && Holds(bufs[i], f, p);
      ViewOf(inodes, bufs, disk, i);
      assert Named(inodes, bufs[i]) && Saved(disk, bufs[i], i in unsaved);
    }
  }

  // ---------------------------------------------------------------- pages that are not buffered

  lemma UncachedView(inodes: seq<int>, bufs: seq<Buf>, disk: Disk, f: nat, p: nat)
    requires f < |inodes| && !Cached(bufs, f, p)
    ensures View(inodes, bufs, disk, f, p) == DiskView(inodes, disk, f, p)
  {
  }

  lemma StillUncached(bufs: seq<Buf>, bufs': seq<Buf>, i: nat, f: nat, p: nat)
    requires !Cached(bufs, f, p) && i < |bufs'| == |bufs|
    requires forall j | 0 <= j < |bufs| && j != i :: bufs'[j] == bufs[j].(accesstime := bufs'[j].accesstime)
    ensures !Cached(Emptied(bufs', i), f, p)
  {
    forall j | 0 <= j < |bufs| ensures !Holds(Emptied(bufs', i)[j], f, p) {
      assert !Holds(bufs[j], f, p);
    }
  }

  lemma SeenBefore(inodes: seq<int>, bufs: seq<Buf>, disk: Disk, bufs': seq<Buf>, disk': Disk, f: nat, p: nat)
    requires SameViews(inodes, bufs, disk, bufs', disk') && f < |inodes|
    ensures View(inodes, bufs', disk', f, p) == View(inodes, bufs, disk, f, p)
  {
  }

  lemma SameViewsOfSame(inodes: seq<int>, bufs: seq<Buf>, disk: Disk)
    ensures SameViews(inodes, bufs, disk, bufs, disk)
  {
  }

  lemma AllSeenBefore(inodes: seq<int>, bufs: seq<Buf>, disk: Disk, bufs': seq<Buf>, disk': Disk)
    requires SameViews(inodes, bufs, disk, bufs', disk')
    ensures forall f: nat, p: nat | f < |inodes| :: View(inodes, bufs', disk', f, p) == View(inodes, bufs, disk, f, p)
  {
  }

  /** A page is buffered apart from buffer i exactly if it was before i was taken over. */
  lemma SlotElsewhere(bufs: seq<Buf>, bufs': seq<Buf>, i: nat, f: nat, p: nat)
    requires i < |bufs'| == |bufs|
    requires forall j | 0 <= j < |bufs| && j != i :: bufs'[j] == bufs[j].(accesstime := bufs'[j].accesstime)
    ensures Cached(Emptied(bufs', i), f, p) <==> exists j :: 0 <= j < |bufs| && j != i && Holds(bufs[j], f, p)
  {
    forall j | 0 <= j < |bufs| ensures Holds(Emptied(bufs', i)[j], f, p) <==> j != i && Holds(bufs[j], f, p) {
    }
  }

  lemma TwiceIsNotOk(inodes: seq<int>, bufs: seq<Buf>, bufs': seq<Buf>, disk: Disk, unsaved: set<nat>, i: nat, f: nat, p: nat)
    requires i < |bufs'| == |bufs| && Holds(bufs'[i], f, p)
    requires exists j :: 0 <= j < |bufs| && j != i && Holds(bufs[j], f, p)
    requires forall j | 0 <= j < |bufs| && j != i :: bufs'[j] == bufs[j].(accesstime := bufs'[j].accesstime)
    ensures !BufsOk(inodes, bufs', disk, unsaved)
  {
    var j :| 0 <= j < |bufs| && j != i && Holds(bufs[j], f, p);
    assert Holds(bufs'[j], f, p);
    assert !Unique(bufs');
  }
}
