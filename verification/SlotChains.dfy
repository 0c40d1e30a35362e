/** Index-linked lists that share one array of next links, as the disk cache keeps its hash
    chains, its free list and its discard list. */
module SlotChains {

  const NULLIDX: int := -1

  ghost predicate NoDup(s: seq<nat>) { forall j, k :: 0 <= j < k < |s| ==> s[j] != s[k] }

  ghost function Follow(s: seq<nat>, k: nat): int
    requires k < |s|
  {
    if k + 1 < |s| then s[k + 1] else NULLIDX
  }

  /** Starting at `head` and following `next` visits exactly s and ends. */
  ghost predicate Linked(next: seq<int>, head: int, s: seq<nat>) {
    && head == (if s == [] then NULLIDX else s[0])
    && (forall k | 0 <= k < |s| :: s[k] < |next|)
    && (forall k {:trigger next[s[k]]} | 0 <= k < |s| :: next[s[k]] == Follow(s, k))
  }

  /** A family of lists over one `next` array.  `home[i]` is the one list slot i is on, or
      NULLIDX when it is on none: so no slot is on two lists, or on one list twice. */
  ghost predicate Family(heads: seq<int>, next: seq<int>, lists: seq<seq<nat>>, home: seq<int>) {
    && |heads| == |lists| && |next| == |home|
    && (forall b | 0 <= b < |lists| :: Linked(next, heads[b], lists[b]) && NoDup(lists[b]))
    && AtHome(lists, home)
  }

  ghost predicate AtHome(lists: seq<seq<nat>>, home: seq<int>) {
    && (forall b, i: nat {:trigger i in lists[b]} | 0 <= b < |lists| && i in lists[b] :: i < |home| && home[i] == b)
    && (forall i | 0 <= i < |home| && 0 <= home[i] < |lists| :: i in lists[home[i]])
  }

  ghost function Removed(s: seq<nat>, k: nat): seq<nat>
    requires k < |s|
  {
    s[..k] + s[k + 1..]
  }

  ghost function Position(s: seq<nat>, i: nat): (k: nat)
    requires i in s
    ensures k < |s| && s[k] == i
  {
    var k :| 0 <= k < |s| && s[k] == i; k
  }

  lemma LinkedOff(next: seq<int>, head: int, s: seq<nat>, i: nat, v: int)
    requires Linked(next, head, s) && i < |next| && i !in s
    ensures Linked(next[i := v], head, s)
  {
  }

  lemma PushLinked(next: seq<int>, head: int, s: seq<nat>, i: nat)
    requires Linked(next, head, s) && NoDup(s) && i < |next| && i !in s
    ensures Linked(next[i := head], i, [i] + s) && NoDup([i] + s)
  {
    var next' := next[i := head];
    var s' := [i] + s;
    forall k | 0 <= k < |s'| ensures s'[k] < |next'| && next'[s'[k]] == Follow(s', k) {
      if k > 0 {
        assert s'[k] == s[k - 1];
      }
    }
  }

  lemma RemovedAt(s: seq<nat>, k: nat)
    requires k < |s|
    ensures |Removed(s, k)| == |s| - 1
    ensures forall j | 0 <= j < |s| - 1 :: Removed(s, k)[j] == s[if j < k then j else j + 1]
  {
  }

  lemma RemovedElements(s: seq<nat>, k: nat)
    requires k < |s| && NoDup(s)
    ensures NoDup(Removed(s, k))
    ensures forall x :: x in Removed(s, k) <==> x in s && x != s[k]
  {
    var s' := Removed(s, k);
    RemovedAt(s, k);
    forall x | x in s && x != s[k] ensures x in s' {
      var j :| 0 <= j < |s| && s[j] == x;
      assert s'[if j < k then j else j - 1] == x;
    }
  }

  lemma RemoveLinked(next: seq<int>, head: int, s: seq<nat>, k: nat)
    requires Linked(next, head, s) && NoDup(s) && k < |s|
    ensures k == 0 ==> Linked(next, next[s[0]], Removed(s, 0))
    ensures k > 0 ==> Linked(next[s[k - 1] := next[s[k]]], head, Removed(s, k))
  {
    var s' := Removed(s, k);
    RemovedAt(s, k);
    if k > 0 {
      var next' := next[s[k - 1] := next[s[k]]];
      forall j | 0 <= j < |s'| ensures s'[j] < |next'| && next'[s'[j]] == Follow(s', j) {
        var o := if j < k then j else j + 1;
        assert s'[j] == s[o] && s[o] < |next| && next[s[o]] == Follow(s, o);
        if j != k - 1 {
          DistinctAt(s, o, k - 1);
        }
      }
      assert head == s'[0];
    } else {
      forall j | 0 <= j < |s'| ensures s'[j] < |next| && next[s'[j]] == Follow(s', j) {
        assert next[s[j + 1]] == Follow(s, j + 1);
      }
      assert next[s[0]] == Follow(s, 0);
    }
  }

  lemma DistinctAt(s: seq<nat>, j: nat, k: nat)
    requires NoDup(s) && j < |s| && k < |s| && j != k
    ensures s[j] != s[k]
  {
  }

  lemma DistinctFrom(s: seq<nat>, k: nat)
    requires NoDup(s) && k < |s|
    ensures forall j | 0 <= j < |s| && j != k :: s[j] != s[k]
  {
  }

  lemma PushFamily(heads: seq<int>, next: seq<int>, lists: seq<seq<nat>>, home: seq<int>, b: nat, i: nat)
    requires Family(heads, next, lists, home) && b < |lists| && i < |home| && home[i] == NULLIDX
    ensures Family(heads[b := i], next[i := heads[b]], lists[b := [i] + lists[b]], home[i := b])
  {
    assert i !in lists[b];
    PushLinked(next, heads[b], lists[b], i);
    forall c | 0 <= c < |lists| && c != b ensures Linked(next[i := heads[b]], heads[c], lists[c]) {
      assert i !in lists[c];
      LinkedOff(next, heads[c], lists[c], i, heads[b]);
    }
  }

  /** Taking the slot at position k off its list: the head moves, or the link before it does. */
  ghost function HeadsWithout(heads: seq<int>, next: seq<int>, lists: seq<seq<nat>>, b: nat, k: nat): seq<int>
    requires b < |lists| && k < |lists[b]| && lists[b][k] < |next| && b < |heads|
  {
    if k == 0 then heads[b := next[lists[b][k]]] else heads
  }

  ghost function NextWithout(next: seq<int>, s: seq<nat>, k: nat): seq<int>
    requires k < |s| && s[k] < |next| && (k > 0 ==> s[k - 1] < |next|)
  {
    if k == 0 then next else next[s[k - 1] := next[s[k]]]
  }

  lemma RemoveFamily(heads: seq<int>, next: seq<int>, lists: seq<seq<nat>>, home: seq<int>, b: nat, k: nat)
    requires Family(heads, next, lists, home) && b < |lists| && k < |lists[b]|
    ensures lists[b][k] < |home| && home[lists[b][k]] == b
    ensures k > 0 ==> lists[b][k - 1] < |next|
    ensures Family(HeadsWithout(heads, next, lists, b, k), NextWithout(next, lists[b], k),
                   lists[b := Removed(lists[b], k)], home[lists[b][k] := NULLIDX])
  {
    var s := lists[b];
    assert s[k] in s;
    if k > 0 { assert s[k - 1] in s; }
    RemoveLinked(next, heads[b], s, k);
    RemovedElements(s, k);
    var next' := NextWithout(next, s, k);
    var heads' := HeadsWithout(heads, next, lists, b, k);
    forall c | 0 <= c < |lists| && c != b ensures Linked(next', heads'[c], lists[c]) && NoDup(lists[c]) {
      hide NoDup, Removed;
      if k > 0 {
        assert s[k - 1] !in lists[c];
        LinkedOff(next, heads[c], lists[c], s[k - 1], next[s[k]]);
      }
    }
    hide Linked, NoDup, Removed;
    RemoveHomes(lists, home, b, k);
  }

  lemma RemoveHomes(lists: seq<seq<nat>>, home: seq<int>, b: nat, k: nat)
    requires b < |lists| && k < |lists[b]| && lists[b][k] < |home|
    requires AtHome(lists, home) && NoDup(lists[b])
    ensures AtHome(lists[b := Removed(lists[b], k)], home[lists[b][k] := NULLIDX])
  {
    RemovedElements(lists[b], k);
    hide NoDup, Removed;
    var r := lists[b][k];
    var (lists', home') := (lists[b := Removed(lists[b], k)], home[r := NULLIDX]);
    assert r in lists[b];
    forall c, i: nat | 0 <= c < |lists'| && i in lists'[c] ensures i < |home'| && home'[i] == c {
      assert i in lists[c];
      assert home[i] == c;
      assert i != r;
    }
  }

  /** Moving a slot to the front of its own list is taking it off and putting it back. */
  lemma FrontFamily(heads: seq<int>, next: seq<int>, lists: seq<seq<nat>>, home: seq<int>, b: nat, k: nat)
    requires Family(heads, next, lists, home) && b < |lists| && 0 < k < |lists[b]|
    ensures var (i, p) := (lists[b][k], lists[b][k - 1]);
            && i < |next| && p < |next|
            && Family(heads[b := i], next[p := next[i]][i := heads[b]],
                      lists[b := [i] + Removed(lists[b], k)], home)
  {
    var (i, p) := (lists[b][k], lists[b][k - 1]);
    RemoveFamily(heads, next, lists, home, b, k);
    PushFamily(heads, next[p := next[i]], lists[b := Removed(lists[b], k)], home[i := NULLIDX], b, i);
    hide Family, Linked, NoDup;
    assert home[i := NULLIDX][i := b] == home;
    assert lists[b := Removed(lists[b], k)][b := [i] + Removed(lists[b], k)] ==
           lists[b := [i] + Removed(lists[b], k)];
  }

  /** Distinct slots below n are no more than n. */
  lemma {:induction false} DistinctBounded(s: seq<nat>, n: nat)
    requires NoDup(s) && forall k | 0 <= k < |s| :: s[k] < n
    ensures |s| <= n
    decreases n
  {
    var first := if s == [] then 0 else s[0];
    if n == 0 {
    } else if k :| 0 <= k < |s| && s[k] == n - 1 {
      RemovedAt(s, k);
      RemovedElements(s, k);
      var s' := Removed(s, k);
      forall j | 0 <= j < |s'| ensures s'[j] < n - 1 {
        assert s'[j] in s' && s'[j] in s;
      }
      DistinctBounded(s', n - 1);
    } else {
      DistinctBounded(s, n - 1);
    }
  }

  // ---------------------------------------------------------------- walking while relinking

  /** The links ahead of a walker that has p slots of chain s behind it. */
  ghost predicate Ahead(next: seq<int>, s: seq<nat>, p: nat) {
    forall k | p <= k < |s| :: s[k] < |next| && next[s[k]] == Follow(s, k)
  }

  lemma NextAhead(next: seq<int>, s: seq<nat>, p: nat)
    requires Ahead(next, s, p) && p < |s|
    ensures s[p] < |next| && next[s[p]] == if p + 1 < |s| then s[p + 1] else NULLIDX
  {
  }

  /** Only slot i's own link and links that led to slot i have changed. */
  ghost predicate OthersKept(next: seq<int>, next': seq<int>, i: nat) {
    |next'| == |next| && forall j | 0 <= j < |next| && j != i :: next'[j] == next[j] || next[j] == i
  }

  /** Relinking the slot a walker stands on does not move the links ahead of it. */
  lemma StillAhead(next: seq<int>, next': seq<int>, s: seq<nat>, p: nat)
    requires NoDup(s) && p < |s| && Ahead(next, s, p) && OthersKept(next, next', s[p])
    ensures Ahead(next', s, p + 1)
  {
    DistinctFrom(s, p);
    hide NoDup;
  }

  lemma NextWithoutKeepsOthers(next: seq<int>, head: int, s: seq<nat>, k: nat)
    requires Linked(next, head, s) && k < |s|
    ensures OthersKept(next, NextWithout(next, s, k), s[k])
  {
    if k > 0 { assert next[s[k - 1]] == Follow(s, k - 1); }
  }

  lemma SameKeepsOthers(next: seq<int>, next': seq<int>, i: nat, v: int)
    requires i < |next| && next' == next[i := v]
    ensures OthersKept(next, next', i)
  {
  }

  lemma UntouchedKeepsOthers(next: seq<int>, i: nat)
    ensures OthersKept(next, next, i)
  {
  }

  lemma OthersKeptTwice(next: seq<int>, next': seq<int>, next'': seq<int>, i: nat)
    requires OthersKept(next, next', i) && OthersKept(next', next'', i)
    ensures OthersKept(next, next'', i)
  {
  }

  /** Put slot i at the front of chain b. */
  method Chain(heads: array<int>, next: array<int>, b: nat, i: nat)
    requires heads != next && b < heads.Length && i < next.Length
    modifies heads, next
    ensures next[..] == old(next[..])[i := old(heads[b])]
    ensures heads[..] == old(heads[..])[b := i]
  {
    next[i] := heads[b];
    heads[b] := i;
  }

  lemma LinksAt(next: array<int>, head: int, s: seq<nat>)
    requires Linked(next[..], head, s)
    ensures head == if s == [] then NULLIDX else s[0]
    ensures forall k | 0 <= k < |s| :: s[k] < next.Length
    ensures forall k {:trigger next[s[k]]} | 0 <= k < |s| :: next[s[k]] == Follow(s, k)
  {
    forall k | 0 <= k < |s| ensures next[s[k]] == Follow(s, k) {
      assert next[..][s[k]] == Follow(s, k);
    }
  }

  /** The slot linking to i on the chain s that starts at `first`.  The walk always finds it:
      running off the end of the chain, where the original panics, cannot happen. */
  method Predecessor(next: array<int>, first: int, i: nat, ghost s: seq<nat>, ghost k: nat) returns (us: int)
    requires Linked(next[..], first, s) && NoDup(s) && 0 < k < |s| && s[k] == i
    ensures us == s[k - 1] && us != NULLIDX
  {
    hide Linked, NoDup;
    LinksAt(next, first, s);
    DistinctFrom(s, k);
    us := first;
    ghost var pos: nat := 0;
    while us != NULLIDX && next[us] != i
      invariant 0 <= pos < k && us == s[pos]
      decreases k - pos
    {
      us := next[us];
      pos := pos + 1;
    }
  }

  /** Take slot i off chain b, which is s with i at position k. */
  method Unchain(heads: array<int>, next: array<int>, b: nat, i: nat, ghost s: seq<nat>, ghost k: nat)
    requires heads != next && b < heads.Length && i < next.Length
    requires Linked(next[..], heads[b], s) && NoDup(s) && k < |s| && s[k] == i
    modifies heads, next
    ensures k > 0 ==> s[k - 1] < next.Length
    ensures heads[..] == if k == 0 then old(heads[..])[b := old(next[i])] else old(heads[..])
    ensures next[..] == NextWithout(old(next[..]), s, k)
  {
    if k > 0 { DistinctAt(s, 0, k); }
    hide NoDup;
    if heads[b] == i {
      heads[b] := next[i];
    } else {
      var us := Predecessor(next, heads[b], i, s, k);
      next[us] := next[i];
    }
  }
}
