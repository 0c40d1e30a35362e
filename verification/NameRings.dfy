/** The name cache's threads as values: circular doubly linked hash buckets and a singly linked
    free list over one pool of entries, each entry on exactly one of them. */
module NameRings {
  import opened SlotChains

  const NCSIZE: nat := 300
  const NHSIZE: nat := 256

  ghost function Succ(s: seq<nat>, k: nat): nat
    requires k < |s|
  {
    if k + 1 < |s| then s[k + 1] else s[0]
  }

  ghost function Pred(s: seq<nat>, k: nat): nat
    requires k < |s|
  {
    if k > 0 then s[k - 1] else s[|s| - 1]
  }

  ghost predicate NextRing(next: seq<int>, s: seq<nat>) {
    && (forall k | 0 <= k < |s| :: s[k] < |next|)
    && (forall k {:trigger next[s[k]]} | 0 <= k < |s| :: next[s[k]] == Succ(s, k))
  }

  ghost predicate PrevRing(prev: seq<int>, s: seq<nat>) {
    && (forall k | 0 <= k < |s| :: s[k] < |prev|)
    && (forall k {:trigger prev[s[k]]} | 0 <= k < |s| :: prev[s[k]] == Pred(s, k))
  }

  /** From `head`, `next` goes round s and `prev` goes round it backwards. */
  ghost predicate Circular(next: seq<int>, prev: seq<int>, head: int, s: seq<nat>) {
    head == (if s == [] then NULLIDX else s[0]) && NextRing(next, s) && PrevRing(prev, s)
  }

  /** Things on the free list always have null prev pointers. */
  ghost predicate FreeChain(next: seq<int>, prev: seq<int>, head: int, s: seq<nat>) {
    && Linked(next, head, s)
    && (forall k | 0 <= k < |s| :: s[k] < |prev|)
    && (forall k {:trigger prev[s[k]]} | 0 <= k < |s| :: prev[s[k]] == NULLIDX)
  }

  /** The buckets, and after them the free list; `home[i]` is the one that entry i is on. */
  ghost predicate Threaded(heads: seq<int>, free: int, next: seq<int>, prev: seq<int>, lists: seq<seq<nat>>, home: seq<int>) {
    && |heads| == NHSIZE && |lists| == NHSIZE + 1 && |next| == |prev| == |home|
    && (forall b | 0 <= b < NHSIZE :: Circular(next, prev, heads[b], lists[b]))
    && FreeChain(next, prev, free, lists[NHSIZE])
    && (forall b | 0 <= b <= NHSIZE :: NoDup(lists[b]))
    && AtHome(lists, home)
  }

  lemma CircularOff(next: seq<int>, prev: seq<int>, next': seq<int>, prev': seq<int>, head: int, s: seq<nat>)
    requires Circular(next, prev, head, s) && |next'| == |next| && |prev'| == |prev|
    requires forall i | i in s && i < |next| && i < |prev| :: next'[i] == next[i] && prev'[i] == prev[i]
    ensures Circular(next', prev', head, s)
  {
    forall k | 0 <= k < |s| ensures s[k] < |next'| && next'[s[k]] == Succ(s, k) && s[k] < |prev'| && prev'[s[k]] == Pred(s, k) {
      assert s[k] in s && next[s[k]] == Succ(s, k) && prev[s[k]] == Pred(s, k);
    }
  }

  lemma FreeOff(next: seq<int>, prev: seq<int>, next': seq<int>, prev': seq<int>, head: int, s: seq<nat>)
    requires FreeChain(next, prev, head, s) && |next'| == |next| && |prev'| == |prev|
    requires forall i | i in s && i < |next| && i < |prev| :: next'[i] == next[i] && prev'[i] == prev[i]
    ensures FreeChain(next', prev', head, s)
  {
    forall k | 0 <= k < |s| ensures s[k] < |next'| && next'[s[k]] == Follow(s, k) && s[k] < |prev'| && prev'[s[k]] == NULLIDX {
      assert s[k] in s && next[s[k]] == Follow(s, k) && prev[s[k]] == NULLIDX;
    }
  }

  // ---------------------------------------------------------------- one ring

  lemma NextInsert(next: seq<int>, s: seq<nat>, i: nat)
    requires NextRing(next, s) && NoDup(s) && i !in s && i < |next|
    ensures s == [] ==> NextRing(next[i := i], [i])
    ensures s != [] ==> NextRing(next[i := s[0]][s[|s| - 1] := i], [i] + s)
  {
    if s != [] {
      var s' := [i] + s;
      var next' := next[i := s[0]][s[|s| - 1] := i];
      DistinctFrom(s, |s| - 1);
      hide NoDup;
      assert s[|s| - 1] in s;
      forall k | 0 <= k < |s'| ensures s'[k] < |next'| && next'[s'[k]] == Succ(s', k) {
        if k > 0 {
          assert s'[k] == s[k - 1] && s[k - 1] in s && next[s[k - 1]] == Succ(s, k - 1);
        }
      }
    }
  }

  lemma PrevInsert(prev: seq<int>, s: seq<nat>, i: nat)
    requires PrevRing(prev, s) && NoDup(s) && i !in s && i < |prev|
    ensures s == [] ==> PrevRing(prev[i := i], [i])
    ensures s != [] ==> PrevRing(prev[i := s[|s| - 1]][s[0] := i], [i] + s)
  {
    if s != [] {
      var s' := [i] + s;
      var prev' := prev[i := s[|s| - 1]][s[0] := i];
      DistinctFrom(s, 0);
      hide NoDup;
      forall k | 0 <= k < |s'| ensures s'[k] < |prev'| && prev'[s'[k]] == Pred(s', k) {
        if k > 0 {
          assert s'[k] == s[k - 1] && s[k - 1] in s && prev[s[k - 1]] == Pred(s, k - 1);
        }
      }
    }
  }

  lemma NextRemove(next: seq<int>, s: seq<nat>, k: nat)
    requires NextRing(next, s) && NoDup(s) && k < |s| && |s| > 1
    ensures NextRing(next[Pred(s, k) := Succ(s, k)], Removed(s, k))
  {
    var kp := if k > 0 then k - 1 else |s| - 1;
    var (s', next') := (Removed(s, k), next[Pred(s, k) := Succ(s, k)]);
    RemovedAt(s, k);
    DistinctFrom(s, kp);
    hide NoDup, Removed;
    forall j | 0 <= j < |s'| ensures s'[j] < |next'| && next'[s'[j]] == Succ(s', j) {
      var o := if j < k then j else j + 1;
      assert s'[j] == s[o] && next[s[o]] == Succ(s, o);
    }
  }

  lemma PrevRemove(prev: seq<int>, s: seq<nat>, k: nat)
    requires PrevRing(prev, s) && NoDup(s) && k < |s| && |s| > 1
    ensures PrevRing(prev[Succ(s, k) := Pred(s, k)], Removed(s, k))
  {
    var kn := if k + 1 < |s| then k + 1 else 0;
    var (s', prev') := (Removed(s, k), prev[Succ(s, k) := Pred(s, k)]);
    RemovedAt(s, k);
    DistinctFrom(s, kn);
    hide NoDup, Removed;
    forall j | 0 <= j < |s'| ensures s'[j] < |prev'| && prev'[s'[j]] == Pred(s', j) {
      var o := if j < k then j else j + 1;
      assert s'[j] == s[o] && prev[s[o]] == Pred(s, o);
    }
  }

  // ---------------------------------------------------------------- all the lists

  ghost function InsertedNext(next: seq<int>, s: seq<nat>, i: nat): seq<int>
    requires i < |next| && (s != [] ==> s[|s| - 1] < |next|)
  {
    if s == [] then next[i := i] else next[i := s[0]][s[|s| - 1] := i]
  }

  ghost function InsertedPrev(prev: seq<int>, s: seq<nat>, i: nat): seq<int>
    requires i < |prev| && (s != [] ==> s[0] < |prev|)
  {
    if s == [] then prev[i := i] else prev[i := s[|s| - 1]][s[0] := i]
  }

  ghost function RemovedNext(next: seq<int>, s: seq<nat>, k: nat): seq<int>
    requires k < |s| && Pred(s, k) < |next|
  {
    if |s| == 1 then next else next[Pred(s, k) := Succ(s, k)]
  }

  ghost function RemovedPrev(prev: seq<int>, s: seq<nat>, k: nat): seq<int>
    requires k < |s| && Succ(s, k) < |prev|
  {
    if |s| == 1 then prev else prev[Succ(s, k) := Pred(s, k)]
  }

  ghost function RemovedHead(head: int, s: seq<nat>, k: nat): int
    requires k < |s|
  {
    if |s| == 1 then NULLIDX else if k == 0 then s[1] else head
  }

  /** Pointers of entries on no list, or on list b, may change without touching another list. */
  lemma OtherLists(heads: seq<int>, free: int, next: seq<int>, prev: seq<int>, lists: seq<seq<nat>>, home: seq<int>,
                   next': seq<int>, prev': seq<int>, b: int)
    requires Threaded(heads, free, next, prev, lists, home) && |next'| == |prev'| == |home|
    requires forall i | 0 <= i < |home| && home[i] != b && home[i] != NULLIDX :: next'[i] == next[i] && prev'[i] == prev[i]
    ensures forall c | 0 <= c < NHSIZE && c != b :: Circular(next', prev', heads[c], lists[c])
    ensures b != NHSIZE ==> FreeChain(next', prev', free, lists[NHSIZE])
  {
    forall c | 0 <= c < NHSIZE && c != b ensures Circular(next', prev', heads[c], lists[c]) {
      assert forall i: nat | i in lists[c] :: i < |home| && home[i] == c;
      CircularOff(next, prev, next', prev', heads[c], lists[c]);
    }
    if b != NHSIZE {
      assert forall i: nat | i in lists[NHSIZE] :: i < |home| && home[i] == NHSIZE;
      FreeOff(next, prev, next', prev', free, lists[NHSIZE]);
    }
  }

  /** A list of the table as the facts about it that its own changes need. */
  lemma OneList(heads: seq<int>, free: int, next: seq<int>, prev: seq<int>, lists: seq<seq<nat>>, home: seq<int>, b: nat)
    requires Threaded(heads, free, next, prev, lists, home) && b <= NHSIZE
    ensures NoDup(lists[b])
    ensures forall i: nat :: i in lists[b] <==> i < |home| && home[i] == b
    ensures forall k | 0 <= k < |lists[b]| :: lists[b][k] < |home| && home[lists[b][k]] == b
    ensures b < NHSIZE ==> heads[b] == (if lists[b] == [] then NULLIDX else lists[b][0]) && NextRing(next, lists[b]) && PrevRing(prev, lists[b])
    ensures b == NHSIZE ==> FreeChain(next, prev, free, lists[b])
  {
    assert forall k | 0 <= k < |lists[b]| :: lists[b][k] in lists[b];
    hide NoDup, NextRing, PrevRing, FreeChain;
  }

  lemma PushHome(lists: seq<seq<nat>>, home: seq<int>, b: nat, i: nat)
    requires AtHome(lists, home) && b < |lists| && i < |home| && home[i] == NULLIDX && NoDup(lists[b])
    ensures AtHome(lists[b := [i] + lists[b]], home[i := b]) && NoDup([i] + lists[b])
  {
    assert i !in lists[b];
  }

  lemma ThreadInsert(heads: seq<int>, free: int, next: seq<int>, prev: seq<int>, lists: seq<seq<nat>>, home: seq<int>, b: nat, i: nat)
    requires Threaded(heads, free, next, prev, lists, home) && b < NHSIZE && i < |home| && home[i] == NULLIDX
    ensures lists[b] != [] ==> lists[b][|lists[b]| - 1] < |home| && lists[b][0] < |home|
    ensures Threaded(heads[b := i], free, InsertedNext(next, lists[b], i), InsertedPrev(prev, lists[b], i),
                     lists[b := [i] + lists[b]], home[i := b])
  {
    var s := lists[b];
    OneList(heads, free, next, prev, lists, home, b);
    NextInsert(next, s, i);
    PrevInsert(prev, s, i);
    PushHome(lists, home, b, i);
    var (next', prev') := (InsertedNext(next, s, i), InsertedPrev(prev, s, i));
    hide NextRing, PrevRing, NoDup, AtHome;
    OtherLists(heads, free, next, prev, lists, home, next', prev', b);
    hide FreeChain;
    assert Circular(next', prev', i, [i] + s);
  }

  lemma ThreadRemove(heads: seq<int>, free: int, next: seq<int>, prev: seq<int>, lists: seq<seq<nat>>, home: seq<int>, b: nat, k: nat)
    requires Threaded(heads, free, next, prev, lists, home) && b < NHSIZE && k < |lists[b]|
    ensures Succ(lists[b], k) < |prev| && Pred(lists[b], k) < |next| && lists[b][k] < |home|
    ensures next[lists[b][k]] == Succ(lists[b], k) && prev[lists[b][k]] == Pred(lists[b], k)
    ensures Threaded(heads[b := RemovedHead(heads[b], lists[b], k)], free,
                     RemovedNext(next, lists[b], k), RemovedPrev(prev, lists[b], k),
                     lists[b := Removed(lists[b], k)], home[lists[b][k] := NULLIDX])
  {
    hide NextRing, PrevRing, NoDup, AtHome, FreeChain, Removed;
    var s := lists[b];
    OneList(heads, free, next, prev, lists, home, b);
    RingAt(next, prev, s, k);
    RemovedRing(next, prev, heads[b], s, k);
    RemovedElements(s, k);
    RemoveHomes(lists, home, b, k);
    OtherLists(heads, free, next, prev, lists, home, RemovedNext(next, s, k), RemovedPrev(prev, s, k), b);
  }

  lemma RingAt(next: seq<int>, prev: seq<int>, s: seq<nat>, k: nat)
    requires NextRing(next, s) && PrevRing(prev, s) && k < |s|
    ensures s[k] < |next| && s[k] < |prev| && next[s[k]] == Succ(s, k) && prev[s[k]] == Pred(s, k)
    ensures Succ(s, k) in s && Pred(s, k) in s && Succ(s, k) < |prev| && Pred(s, k) < |next|
  {
    var (kp, kn) := (if k > 0 then k - 1 else |s| - 1, if k + 1 < |s| then k + 1 else 0);
    assert s[kp] == Pred(s, k) && s[kn] == Succ(s, k);
  }

  lemma RemovedRing(next: seq<int>, prev: seq<int>, head: int, s: seq<nat>, k: nat)
    requires Circular(next, prev, head, s) && NoDup(s) && k < |s| && Succ(s, k) < |prev| && Pred(s, k) < |next|
    ensures Circular(RemovedNext(next, s, k), RemovedPrev(prev, s, k), RemovedHead(head, s, k), Removed(s, k))
  {
    RemovedAt(s, k);
    if |s| > 1 {
      NextRemove(next, s, k);
      PrevRemove(prev, s, k);
    } else {
      EmptyRing(next, prev);
    }
    hide NextRing, PrevRing, NoDup, Removed;
  }

  lemma EmptyRing(next: seq<int>, prev: seq<int>)
    ensures NextRing(next, []) && PrevRing(prev, [])
  {
  }

  lemma ThreadFree(heads: seq<int>, free: int, next: seq<int>, prev: seq<int>, lists: seq<seq<nat>>, home: seq<int>, i: nat)
    requires Threaded(heads, free, next, prev, lists, home) && i < |home| && home[i] == NULLIDX
    ensures Threaded(heads, i, next[i := free], prev[i := NULLIDX],
                     lists[NHSIZE := [i] + lists[NHSIZE]], home[i := NHSIZE])
  {
    var s := lists[NHSIZE];
    OneList(heads, free, next, prev, lists, home, NHSIZE);
    PushLinked(next, free, s, i);
    FreePush(prev, s, i);
    PushHome(lists, home, NHSIZE, i);
    var (next', prev') := (next[i := free], prev[i := NULLIDX]);
    hide NextRing, PrevRing, NoDup, AtHome, Linked;
    OtherLists(heads, free, next, prev, lists, home, next', prev', NHSIZE);
    hide Circular;
  }

  lemma FreePush(prev: seq<int>, s: seq<nat>, i: nat)
    requires (forall k | 0 <= k < |s| :: s[k] < |prev| && prev[s[k]] == NULLIDX) && i < |prev|
    ensures forall k | 0 <= k < |[i] + s| :: ([i] + s)[k] < |prev| && prev[i := NULLIDX][([i] + s)[k]] == NULLIDX
  {
  }

  lemma FreePop(next: seq<int>, prev: seq<int>, head: int, s: seq<nat>)
    requires FreeChain(next, prev, head, s) && NoDup(s) && s != []
    ensures head == s[0] < |next| && FreeChain(next, prev, next[head], s[1..])
  {
    RemoveLinked(next, head, s, 0);
    assert Removed(s, 0) == s[1..];
  }

  lemma ThreadTake(heads: seq<int>, free: int, next: seq<int>, prev: seq<int>, lists: seq<seq<nat>>, home: seq<int>)
    requires Threaded(heads, free, next, prev, lists, home) && lists[NHSIZE] != []
    ensures free == lists[NHSIZE][0] < |home| && home[free] == NHSIZE
    ensures Threaded(heads, next[free], next, prev, lists[NHSIZE := lists[NHSIZE][1..]], home[free := NULLIDX])
  {
    hide NextRing, PrevRing, NoDup, AtHome, FreeChain, Circular;
    var s := lists[NHSIZE];
    OneList(heads, free, next, prev, lists, home, NHSIZE);
    FreePop(next, prev, free, s);
    RemovedElements(s, 0);
    RemoveHomes(lists, home, NHSIZE, 0);
    assert Removed(s, 0) == s[1..];
  }
}
