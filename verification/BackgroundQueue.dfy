/** The table of background requests: users put requests in, daemons claim them, and a slot is
    given back when the daemon and everybody who asked to be told have let go of it.  Each method
    is one step under the table's lock, so any interleaving of users and daemons is a sequence of
    them. */
module BackgroundQueue {
  import opened SlotChains

  const NBRS: nat := 15
  const NONE: int := -1

  /** What is asked for, and of which file. */
  datatype Request = Request(opcode: int, vc: int, param: int)

  datatype Slot = Slot(refCount: int, started: bool, ts: int, request: Request)

  /** A signed 32-bit counter. */
  function Wrap(n: int): int { (n + 0x8000_0000) % 0x1_0000_0000 - 0x8000_0000 }

  /** Two stamps taken within half a cycle of each other compare as their numbers do. */
  lemma StampsCompare(a: int, b: int)
    requires -0x8000_0000 <= a - b < 0x8000_0000
    ensures Wrap(Wrap(a) - Wrap(b)) == a - b
  {
    var (m, n) := ((a + 0x8000_0000) / 0x1_0000_0000, (b + 0x8000_0000) / 0x1_0000_0000);
    assert Wrap(a) == a - m * 0x1_0000_0000 && Wrap(b) == b - n * 0x1_0000_0000;
    assert Wrap(a) - Wrap(b) == (a - b) + (n - m) * 0x1_0000_0000;
  }

  lemma WrapNext(n: int)
    ensures Wrap(Wrap(n) + 1) == Wrap(n + 1)
  {
  }

  /** The reference count is the daemon and the users who hold the slot; a request that waits to
      be started is one not started, and its daemon still has to come. */
  ghost predicate HeldAt(s: Slot, waiting: bool, daemon: bool, users: nat) {
    && s.refCount == users + (if daemon then 1 else 0)
    && (waiting <==> s.refCount > 0 && !s.started)
    && (waiting ==> daemon)
  }

  ghost predicate AllHeld(slots: seq<Slot>, pending: seq<nat>, daemon: seq<bool>, users: seq<nat>) {
    && |slots| == |daemon| == |users| == NBRS
    && forall i: nat | i < NBRS :: HeldAt(slots[i], i in pending, daemon[i], users[i])
  }

  /** The waiting requests are the last ones queued, and carry their numbers as stamps. */
  ghost predicate Ordered(slots: seq<Slot>, queued: seq<Request>, begun: nat, pending: seq<nat>) {
    && |slots| == NBRS && NoDup(pending) && begun + |pending| == |queued|
    && (forall k | 0 <= k < |pending| :: pending[k] < NBRS)
    && (forall k {:trigger pending[k]} | 0 <= k < |pending| ::
          slots[pending[k]].ts == Wrap(begun + k) && slots[pending[k]].request == queued[begun + k])
  }

  /** One slot changes hands, and the others do not notice. */
  lemma OneHeld(slots: seq<Slot>, pending: seq<nat>, daemon: seq<bool>, users: seq<nat>,
                i: nat, s: Slot, pending': seq<nat>, d: bool, u: nat)
    requires AllHeld(slots, pending, daemon, users) && i < NBRS
    requires forall j: nat | j != i :: j in pending' <==> j in pending
    requires HeldAt(s, i in pending', d, u)
    ensures AllHeld(slots[i := s], pending', daemon[i := d], users[i := u])
  {
  }

  lemma QueueOrdered(slots: seq<Slot>, queued: seq<Request>, begun: nat, pending: seq<nat>, i: nat, s: Slot)
    requires Ordered(slots, queued, begun, pending) && i < NBRS && i !in pending && s.ts == Wrap(|queued|)
    ensures Ordered(slots[i := s], queued + [s.request], begun, pending + [i])
    ensures forall j: nat :: j in pending + [i] <==> j in pending || j == i
  {
    hide Wrap;
    assert forall k | 0 <= k < |pending| :: pending[k] in pending;
  }

  lemma ClaimOrdered(slots: seq<Slot>, queued: seq<Request>, begun: nat, pending: seq<nat>)
    requires Ordered(slots, queued, begun, pending) && pending != []
    ensures pending[0] < NBRS && slots[pending[0]].request == queued[begun]
    ensures Ordered(slots[pending[0] := slots[pending[0]].(started := true)], queued, begun + 1, pending[1..])
    ensures forall j: nat :: j in pending <==> j in pending[1..] || j == pending[0]
    ensures pending[0] !in pending[1..]
  {
    hide Wrap;
    DistinctFrom(pending, 0);
    var rest := pending[1..];
    forall k | 0 <= k < |rest|
      ensures rest[k] < NBRS && rest[k] != pending[0] && slots[rest[k]].ts == Wrap(begun + 1 + k) && slots[rest[k]].request == queued[begun + 1 + k]
    {
      assert rest[k] == pending[k + 1];
    }
  }

  /** A change to a slot's counts alone does not touch the order. */
  lemma SameOrdered(slots: seq<Slot>, queued: seq<Request>, begun: nat, pending: seq<nat>, i: nat, s: Slot)
    requires Ordered(slots, queued, begun, pending) && i < NBRS
    requires s.ts == slots[i].ts && s.request == slots[i].request
    ensures Ordered(slots[i := s], queued, begun, pending)
  {
    hide Wrap;
  }

  /** The place of a slot among the waiting ones. */
  ghost function RankOf(pending: seq<nat>, i: nat): (r: int)
    ensures r == NONE <==> i !in pending
    ensures r != NONE ==> 0 <= r < |pending| && pending[r] == i
  {
    if i in pending then (var k :| 0 <= k < |pending| && pending[k] == i; k) else NONE
  }

  /** The first waiting slot is the only one of rank 0, and all others rank higher. */
  lemma FirstRanked(slots: seq<Slot>, queued: seq<Request>, begun: nat, pending: seq<nat>)
    requires Ordered(slots, queued, begun, pending)
    ensures pending == [] ==> forall i: nat :: RankOf(pending, i) == NONE
    ensures pending != [] ==> pending[0] < NBRS && RankOf(pending, pending[0]) == 0
    ensures pending != [] ==> forall i: nat | RankOf(pending, i) == 0 :: i == pending[0]
    ensures forall i: nat :: RankOf(pending, i) >= NONE && RankOf(pending, i) < |pending|
  {
    if pending != [] {
      DistinctFrom(pending, 0);
      assert pending[0] in pending;
    }
  }

  class Table {
    var slots: seq<Slot>
    var count: int

    /** Every request ever queued, and how many of them have been started. */
    ghost var queued: seq<Request>
    ghost var begun: nat
    /** The slots of the requests not started yet, in the order they were queued. */
    ghost var pending: seq<nat>
    /** Who holds a slot: its daemon, until the request is done, and so many users. */
    ghost var daemon: seq<bool>
    ghost var users: seq<nat>

    ghost predicate Valid()
      reads this
    {
      && AllHeld(slots, pending, daemon, users) && Ordered(slots, queued, begun, pending)
      && count == Wrap(|queued|)
    }

    constructor ()
      ensures Valid() && queued == [] && begun == 0
    {
      slots := seq(NBRS, _ => Slot(0, false, 0, Request(0, 0, 0)));
      count := 0;
      queued, begun, pending := [], 0, [];
      daemon, users := seq(NBRS, _ => false), seq(NBRS, _ => 0);
    }

    /** A slot nobody holds. */
    method FindFree() returns (tb: int)
      requires |slots| == NBRS
      ensures tb != NONE ==> 0 <= tb < NBRS && slots[tb].refCount == 0
      ensures tb == NONE <==> forall i | 0 <= i < NBRS :: slots[i].refCount != 0
    {
      var i := 0;
      while i < NBRS
        invariant i <= NBRS && forall j | 0 <= j < i :: slots[j].refCount != 0
      {
        if slots[i].refCount == 0 {
          return i;
        }
        i := i + 1;
      }
      return NONE;
    }

    /** Queue a request for `ause` users besides the daemon, in a slot that everybody has let go
        of.  When there is none the caller is told so, or tries again later. */
    method BQueue(request: Request, ause: nat) returns (tb: int)
      requires Valid()
      modifies this
      ensures Valid() && begun == old(begun)
      ensures |slots| == NBRS && (tb == NONE <==> forall i | 0 <= i < NBRS :: old(slots)[i].refCount != 0)
      ensures tb == NONE ==> slots == old(slots) && queued == old(queued) && pending == old(pending)
      ensures tb != NONE ==>
        && 0 <= tb < NBRS && !old(daemon)[tb] && old(users)[tb] == 0
        && queued == old(queued) + [request] && pending == old(pending) + [tb]
        && daemon == old(daemon)[tb := true] && users == old(users)[tb := ause]
        && forall i | 0 <= i < NBRS && i != tb :: slots[i] == old(slots)[i]
    {
      hide Wrap, Ordered;
      tb := FindFree();
      if tb == NONE {
        return;
      }
      assert HeldAt(slots[tb], tb in pending, daemon[tb], users[tb]);
      ghost var s := Slot(ause + 1, false, count, request);
      WrapNext(|queued|);
      QueueOrdered(slots, queued, begun, pending, tb, s);
      OneHeld(slots, pending, daemon, users, tb, s, pending + [tb], true, ause);
      slots := slots[tb := Slot(ause + 1, false, count, request)];
      count := Wrap(count + 1);
      queued := queued + [request];
      pending := pending + [tb];
      daemon := daemon[tb := true];
      users := users[tb := ause];
    }

    /** The place in the queue of every slot that waits. */
    lemma Ranks() returns (rank: seq<int>)
      requires Valid()
      ensures |rank| == |slots| == NBRS
      ensures forall i | 0 <= i < NBRS :: rank[i] != NONE <==> slots[i].refCount > 0 && !slots[i].started
      ensures forall i | 0 <= i < NBRS && rank[i] != NONE :: 0 <= rank[i] < NBRS && slots[i].ts == Wrap(begun + rank[i])
      ensures forall i | 0 <= i < NBRS && rank[i] == 0 :: pending != [] && pending[0] == i
      ensures pending != [] ==> pending[0] < NBRS && rank[pending[0]] == 0
    {
      var waiting := pending;
      rank := seq(NBRS, i requires 0 <= i < NBRS => RankOf(waiting, i));
      DistinctBounded(pending, NBRS);
      FirstRanked(slots, queued, begun, pending);
      hide Wrap, NoDup;
      forall i: nat | i < NBRS ensures rank[i] != NONE <==> slots[i].refCount > 0 && !slots[i].started {
        assert HeldAt(slots[i], i in pending, daemon[i], users[i]);
      }
    }

    /** The waiting request with the smallest stamp is the one queued first: there are never more
        requests waiting than slots, so the stamps compare as they should. */
    method Oldest() returns (tb: int)
      requires Valid()
      ensures tb == if pending == [] then NONE else pending[0]
    {
      ghost var rank := Ranks();
      hide Wrap, Valid;
      var minTs := 0;
      tb := NONE;
      var i := 0;
      while i < NBRS
        invariant i <= NBRS
        invariant tb == NONE ==> forall j | 0 <= j < i :: rank[j] == NONE
        invariant tb != NONE ==> 0 <= tb < i && rank[tb] != NONE && minTs == Wrap(begun + rank[tb])
        invariant tb != NONE ==> forall j | 0 <= j < i && rank[j] != NONE :: rank[tb] <= rank[j]
      {
        if slots[i].refCount > 0 && !slots[i].started {
          if tb != NONE {
            StampsCompare(begun + rank[tb], begun + rank[i]);
          }
          if tb == NONE || Wrap(minTs - slots[i].ts) > 0 {
            tb := i;
            minTs := slots[i].ts;
          }
        }
        i := i + 1;
      }
    }

    /** A daemon claims the request queued first among those not started: so the k-th request to
        be started is the k-th that was queued, and each is started once. */
    method Claim() returns (tb: int)
      requires Valid()
      modifies this
      ensures Valid() && queued == old(queued) && daemon == old(daemon) && users == old(users)
      ensures tb == NONE <==> old(begun) == |queued|
      ensures tb == NONE ==> slots == old(slots) && begun == old(begun)
      ensures tb != NONE ==>
        && 0 <= tb < NBRS && old(pending) == [tb] + pending && begun == old(begun) + 1 && daemon[tb]
        && !old(slots)[tb].started && slots == old(slots)[tb := old(slots)[tb].(started := true)]
        && slots[tb].request == queued[old(begun)]
    {
      tb := Oldest();
      assert begun + |pending| == |queued|;
      hide Wrap, Ordered;
      if tb == NONE {
        return;
      }
      ClaimOrdered(slots, queued, begun, pending);
      assert HeldAt(slots[tb], tb in pending, daemon[tb], users[tb]);
      OneHeld(slots, pending, daemon, users, tb, slots[tb].(started := true), pending[1..], daemon[tb], users[tb]);
      assert daemon[tb := daemon[tb]] == daemon && users[tb := users[tb]] == users;
      slots := slots[tb := slots[tb].(started := true)];
      pending := pending[1..];
      begun := begun + 1;
    }

    /** Let go of a slot.  It is free again when the daemon and all users have done so. */
    method BRelease(tb: nat, ghost byDaemon: bool)
      requires Valid() && tb < NBRS
      requires if byDaemon then daemon[tb] && slots[tb].started else users[tb] > 0
      modifies this
      ensures Valid() && queued == old(queued) && begun == old(begun) && pending == old(pending)
      ensures daemon == (if byDaemon then old(daemon)[tb := false] else old(daemon))
      ensures users == if byDaemon then old(users) else old(users)[tb := old(users)[tb] - 1]
      ensures |slots| == NBRS && (slots[tb].refCount == 0 <==> !daemon[tb] && users[tb] == 0)
      ensures slots[tb] == old(slots)[tb].(refCount := old(slots)[tb].refCount - 1,
                                           started := old(slots)[tb].started && slots[tb].refCount > 0)
      ensures forall i | 0 <= i < NBRS && i != tb :: slots[i] == old(slots)[i]
    {
      hide Wrap, Ordered;
      assert HeldAt(slots[tb], tb in pending, daemon[tb], users[tb]);
      ghost var slots0, daemon0, users0 := slots, daemon, users;
      slots := slots[tb := slots[tb].(refCount := slots[tb].refCount - 1)];
      if slots[tb].refCount <= 0 {
        slots := slots[tb := slots[tb].(started := false)];
      }
      if byDaemon {
        daemon := daemon[tb := false];
      } else {
        users := users[tb := users[tb] - 1];
      }
      assert daemon0[tb := daemon[tb]] == daemon && users0[tb := users[tb]] == users && slots0[tb := slots[tb]] == slots;
      SameOrdered(slots0, queued, begun, pending, tb, slots[tb]);
      OneHeld(slots0, pending, daemon0, users0, tb, slots[tb], pending, daemon[tb], users[tb]);
    }
  }
}
