/** Replaying disconnected changes: the queue of dirty vnodes is worked off from the front, and a
    vnode whose turn has not come, because its directory does not exist on the server yet or
    because its own entries are not dealt with, goes to the back again. */
module Resync {

  const EAGAIN: int := 35

  /** What is still to be replayed of a vnode, and whether it has been made on the server. */
  datatype Flags = Flags(remove: bool, create: bool, created: bool, rename: bool, other: bool)

  const CLEAN: Flags := Flags(false, false, false, false, false)

  /** A vnode's directory, and for a directory the entries of its shadow copy. */
  datatype Vnode = Vnode(parent: nat, isDir: bool, listed: seq<nat>)

  /** What looking up the parent, and then each call to the server, comes back with. */
  datatype Answers = Answers(lookup: int, remove: int, create: int, rename: int, fetch: int, send: int)

  /** Only being deferred yields EAGAIN. */
  ghost predicate Honest(a: Answers) {
    a.lookup != EAGAIN && a.remove != EAGAIN && a.create != EAGAIN && a.rename != EAGAIN && a.fetch != EAGAIN && a.send != EAGAIN
  }

  /** What the calls come back with that the flags of a vnode ask for, in the order they are made. */
  function Asked(f: Flags, a: Answers): seq<int> {
    if f.remove then [a.lookup, a.remove]
    else (if f.create then [a.lookup, a.create] else []) + (if f.rename then [a.rename] else []) + [a.fetch, a.send]
  }

  ghost predicate AllSucceed(codes: seq<int>) { forall c <- codes :: c == 0 }

  /** A removal has succeeded, or everything else that the flags ask for, with the changes sent. */
  ghost predicate Succeeded(f: Flags, a: Answers) {
    if f.remove then a.lookup == a.remove == 0
    else (f.create ==> a.lookup == a.create == 0) && (f.rename ==> a.rename == 0) && a.fetch == 0 && a.send == 0
  }

  lemma SucceededIfAll(f: Flags, a: Answers)
    ensures AllSucceed(Asked(f, a)) <==> Succeeded(f, a)
  {
    var codes := Asked(f, a);
    assert |codes| >= 2 && codes[|codes| - 1] in codes && codes[|codes| - 2] in codes;
    if f.create && !f.remove { assert codes[0] in codes && codes[1] in codes; }
    if f.rename && !f.remove { assert codes[|codes| - 3] in codes; }
  }

  /** No call was made in vain before this one failed. */
  ghost predicate FirstFailure(codes: seq<int>, code: int) {
    code != 0 && exists k: nat :: k < |codes| && codes[k] == code && AllSucceed(codes[..k])
  }

  /** A creation succeeded, a rename was sent, or all there was to replay of a vnode is done. */
  datatype Event = Created(v: nat) | RenameSent(v: nat) | Done(v: nat)

  ghost predicate TreeOk(vs: seq<Vnode>) {
    forall v | 0 <= v < |vs| :: vs[v].parent < |vs| && forall k | 0 <= k < |vs[v].listed| :: vs[v].listed[k] < |vs|
  }

  predicate Dirty(f: Flags) { f != CLEAN }

  /** v cannot be replayed before w: w is its directory and is not made yet, or v is a directory
      to be removed and w one of its entries. */
  ghost predicate WaitsFor(vs: seq<Vnode>, fs: seq<Flags>, v: nat, w: nat)
    requires TreeOk(vs) && |fs| == |vs| && v < |vs| && w < |vs|
  {
    || ((fs[v].remove || fs[v].create) && w == vs[v].parent && fs[w].create)
    || (fs[v].remove && vs[v].isDir && w in vs[v].listed && Dirty(fs[w]))
  }

  ghost predicate Blocked(vs: seq<Vnode>, fs: seq<Flags>, v: nat)
    requires TreeOk(vs) && |fs| == |vs| && v < |vs|
  {
    exists w: nat :: w < |vs| && WaitsFor(vs, fs, v, w)
  }

  lemma BlockedKind(vs: seq<Vnode>, fs: seq<Flags>, v: nat)
    requires TreeOk(vs) && |fs| == |vs| && v < |vs| && Blocked(vs, fs, v)
    ensures fs[v].remove || fs[v].create
  {
  }

  /** The queue holds exactly the dirty vnodes, once each. */
  ghost predicate QueueOk(vs: seq<Vnode>, fs: seq<Flags>, q: seq<nat>) {
    && TreeOk(vs) && |fs| == |vs|
    && (forall k | 0 <= k < |q| :: q[k] < |vs|)
    && (forall j, k | 0 <= j < k < |q| :: q[j] != q[k])
    && (forall v: nat :: v in q <==> v < |vs| && Dirty(fs[v]))
  }

  /** Nothing waits in a circle. */
  ghost predicate Ranked(vs: seq<Vnode>, fs: seq<Flags>, rank: seq<nat>)
    requires TreeOk(vs) && |fs| == |vs|
  {
    |rank| == |vs| && forall v: nat, w: nat | v < |vs| && w < |vs| && WaitsFor(vs, fs, v, w) :: rank[w] < rank[v]
  }

  /** Flags have only been cleared. */
  ghost predicate Fewer(fs: seq<Flags>, fs': seq<Flags>) {
    && |fs'| == |fs|
    && forall v | 0 <= v < |fs| ::
         && (fs'[v].remove ==> fs[v].remove) && (fs'[v].create ==> fs[v].create) && (Dirty(fs'[v]) ==> Dirty(fs[v]))
  }

  lemma StillRanked(vs: seq<Vnode>, fs: seq<Flags>, fs': seq<Flags>, rank: seq<nat>)
    requires TreeOk(vs) && |fs| == |vs| && Ranked(vs, fs, rank) && Fewer(fs, fs')
    ensures Ranked(vs, fs', rank)
  {
    forall v: nat, w: nat | v < |vs| && w < |vs| && WaitsFor(vs, fs', v, w) ensures rank[w] < rank[v] {
      assert WaitsFor(vs, fs, v, w);
    }
  }

  /** What a vnode waits for is itself dirty, and so in the queue. */
  lemma WaitedForIsQueued(vs: seq<Vnode>, fs: seq<Flags>, q: seq<nat>, v: nat, w: nat)
    requires QueueOk(vs, fs, q) && v < |vs| && w < |vs| && WaitsFor(vs, fs, v, w)
    ensures w in q
  {
    assert Dirty(fs[w]);
  }

  /** Following what blocks what ends at a vnode that is ready. */
  lemma {:induction false} SomeoneReady(vs: seq<Vnode>, fs: seq<Flags>, q: seq<nat>, rank: seq<nat>, k: nat) returns (r: nat)
    requires QueueOk(vs, fs, q) && Ranked(vs, fs, rank) && k < |q|
    ensures r < |q| && !Blocked(vs, fs, q[r])
    decreases rank[q[k]]
  {
    r := k;
    if Blocked(vs, fs, q[k]) {
      var w: nat :| w < |vs| && WaitsFor(vs, fs, q[k], w);
      WaitedForIsQueued(vs, fs, q, q[k], w);
      var j :| 0 <= j < |q| && q[j] == w;
      r := SomeoneReady(vs, fs, q, rank, j);
    }
  }

  /** What a turn comes to. */
  ghost predicate Result(f: Flags, blocked: bool, a: Answers, code: int) {
    && (code == 0 <==> !blocked && AllSucceed(Asked(f, a)))
    && (code == EAGAIN <==> blocked && a.lookup == 0)
    && (code != 0 && code != EAGAIN ==> FirstFailure(Asked(f, a), code))
  }

  /** What a rename, then the status, then the changes come to. */
  function Rest(f: Flags, a: Answers): int {
    if f.rename && a.rename != 0 then a.rename else if a.fetch != 0 then a.fetch else a.send
  }

  lemma FailureAt(codes: seq<int>, k: nat)
    requires k < |codes| && codes[k] != 0 && forall j | 0 <= j < k :: codes[j] == 0
    ensures FirstFailure(codes, codes[k]) && !AllSucceed(codes)
  {
    assert AllSucceed(codes[..k]) && codes[k] in codes;
  }

  lemma AllAnswered(f: Flags, a: Answers, code: int)
    requires code == if (f.remove || f.create) && a.lookup != 0 then a.lookup
                     else if f.remove then a.remove
                     else if f.create && a.create != 0 then a.create else Rest(f, a)
    ensures code == 0 <==> AllSucceed(Asked(f, a))
    ensures code != 0 ==> FirstFailure(Asked(f, a), code)
  {
    var codes := Asked(f, a);
    if code != 0 {
      var made: nat := if f.create then 2 else 0;
      var at: nat := if (f.remove || f.create) && a.lookup != 0 then 0
                     else if f.remove || (f.create && a.create != 0) then 1
                     else if f.rename && a.rename != 0 then made
                     else if a.fetch != 0 then |codes| - 2 else |codes| - 1;
      FailureAt(codes, at);
    }
  }

  lemma TurnResult(f: Flags, blocked: bool, a: Answers, code: int)
    requires Honest(a) && (blocked ==> f.remove || f.create)
    requires code == if (f.remove || f.create) && a.lookup != 0 then a.lookup
                     else if blocked then EAGAIN
                     else if f.remove then a.remove
                     else if f.create && a.create != 0 then a.create else Rest(f, a)
    ensures Result(f, blocked, a, code)
  {
    if blocked && a.lookup != 0 {
      FailureAt(Asked(f, a), 0);
    } else if !blocked {
      AllAnswered(f, a, code);
    }
  }

  /** A vnode that has been made on the server is not made again, even if what comes after fails. */
  ghost function AfterFailure(f: Flags, blocked: bool, a: Answers): Flags {
    if f.create && !f.remove && !blocked && a.lookup == 0 && a.create == 0 then f.(create := false, created := true) else f
  }

  // ---------------------------------------------------------------- how far the next ready one is

  ghost function Wait(vs: seq<Vnode>, fs: seq<Flags>, q: seq<nat>): nat
    requires TreeOk(vs) && |fs| == |vs| && forall k | 0 <= k < |q| :: q[k] < |vs|
  {
    if q == [] then 0 else if !Blocked(vs, fs, q[0]) then 0 else 1 + Wait(vs, fs, q[1..])
  }

  lemma {:induction false} WaitUpTo(vs: seq<Vnode>, fs: seq<Flags>, q: seq<nat>, r: nat, more: seq<nat>)
    requires TreeOk(vs) && |fs| == |vs| && (forall k | 0 <= k < |q| :: q[k] < |vs|) && (forall k | 0 <= k < |more| :: more[k] < |vs|)
    requires r < |q| && !Blocked(vs, fs, q[r])
    ensures Wait(vs, fs, q + more) == Wait(vs, fs, q)
  {
    assert (q + more)[0] == q[0];
    if Blocked(vs, fs, q[0]) {
      assert (q + more)[1..] == q[1..] + more;
      WaitUpTo(vs, fs, q[1..], r - 1, more);
    }
  }

  ghost function Rotated(q: seq<nat>): seq<nat>
    requires q != []
  {
    q[1..] + [q[0]]
  }

  /** Moving a blocked vnode to the back brings the next ready one a place nearer. */
  lemma RotationNears(vs: seq<Vnode>, fs: seq<Flags>, q: seq<nat>, rank: seq<nat>)
    requires QueueOk(vs, fs, q) && Ranked(vs, fs, rank) && q != [] && Blocked(vs, fs, q[0])
    ensures QueueOk(vs, fs, Rotated(q))
    ensures Wait(vs, fs, Rotated(q)) < Wait(vs, fs, q)
  {
    RotationOk(vs, fs, q);
    var r := SomeoneReady(vs, fs, q, rank, 0);
    WaitUpTo(vs, fs, q[1..], r - 1, [q[0]]);
  }

  lemma RotationOk(vs: seq<Vnode>, fs: seq<Flags>, q: seq<nat>)
    requires QueueOk(vs, fs, q) && q != []
    ensures QueueOk(vs, fs, Rotated(q))
  {
    var q' := Rotated(q);
    forall v: nat ensures v in q' <==> v in q {
      if v in q { var k :| 0 <= k < |q| && q[k] == v; assert q'[if k == 0 then |q| - 1 else k - 1] == v; }
    }
  }

  ghost function RotatedBy(q: seq<nat>, n: nat): seq<nat>
    requires q != []
    decreases n
  {
    if n == 0 then q else RotatedBy(Rotated(q), n - 1)
  }

  ghost predicate AllBlocked(vs: seq<Vnode>, fs: seq<Flags>, q: seq<nat>)
    requires TreeOk(vs) && |fs| == |vs|
  {
    forall k | 0 <= k < |q| :: q[k] < |vs| && Blocked(vs, fs, q[k])
  }

  lemma RotationBlocked(vs: seq<Vnode>, fs: seq<Flags>, q: seq<nat>)
    requires QueueOk(vs, fs, q) && q != [] && AllBlocked(vs, fs, q)
    ensures AllBlocked(vs, fs, Rotated(q))
  {
    forall k | 0 <= k < |Rotated(q)| ensures Rotated(q)[k] < |vs| && Blocked(vs, fs, Rotated(q)[k]) {
      assert Rotated(q)[k] == q[if k + 1 < |q| then k + 1 else 0];
    }
  }

  /** If nobody in the queue is ready the queue goes round for ever: nobody ever will be. */
  lemma {:induction false} NobodyEverReady(vs: seq<Vnode>, fs: seq<Flags>, q: seq<nat>, n: nat)
    requires QueueOk(vs, fs, q) && q != [] && AllBlocked(vs, fs, q)
    ensures QueueOk(vs, fs, RotatedBy(q, n)) && |RotatedBy(q, n)| == |q| && AllBlocked(vs, fs, RotatedBy(q, n))
    decreases n
  {
    if n > 0 {
      hide AllBlocked, Blocked;
      RotationOk(vs, fs, q);
      RotationBlocked(vs, fs, q);
      NobodyEverReady(vs, fs, Rotated(q), n - 1);
    }
  }

  /** And then something does wait in a circle. */
  lemma StuckInACircle(vs: seq<Vnode>, fs: seq<Flags>, q: seq<nat>)
    requires QueueOk(vs, fs, q) && q != [] && AllBlocked(vs, fs, q)
    ensures !exists rank: seq<nat> :: Ranked(vs, fs, rank)
  {
    if rank: seq<nat> :| Ranked(vs, fs, rank) {
      var r := SomeoneReady(vs, fs, q, rank, 0);
      assert false;
    }
  }

  lemma ServedOk(vs: seq<Vnode>, fs: seq<Flags>, q: seq<nat>)
    requires QueueOk(vs, fs, q) && q != []
    ensures QueueOk(vs, fs[q[0] := CLEAN], q[1..])
  {
    var (fs', q') := (fs[q[0] := CLEAN], q[1..]);
    forall v: nat ensures v in q' <==> v < |vs| && Dirty(fs'[v]) {
      if v in q' { var k :| 0 <= k < |q'| && q'[k] == v; assert q[k + 1] == v; }
      if v in q && v != q[0] { var k :| 0 <= k < |q| && q[k] == v; assert q'[k - 1] == v; }
    }
  }

  // ---------------------------------------------------------------- the order of events

  /** If it was to be made, it has been. */
  ghost predicate MadeBefore(fs0: seq<Flags>, before: seq<Event>, p: nat)
    requires p < |fs0|
  {
    fs0[p].create && !fs0[p].remove ==> Created(p) in before
  }

  /** Before a vnode is made or removed its directory has been made, and before a directory is
      removed its dirty entries have been dealt with. */
  ghost predicate InOrder(vs: seq<Vnode>, fs0: seq<Flags>, before: seq<Event>, e: Event)
    requires TreeOk(vs) && |fs0| == |vs|
  {
    && e.v < |vs|
    && (e.Created? || fs0[e.v].remove ==> MadeBefore(fs0, before, vs[e.v].parent))
    && (e.Done? && fs0[e.v].remove && vs[e.v].isDir ==>
          forall k | 0 <= k < |vs[e.v].listed| && Dirty(fs0[vs[e.v].listed[k]]) :: Done(vs[e.v].listed[k]) in before)
  }

  ghost predicate AllInOrder(vs: seq<Vnode>, fs0: seq<Flags>, trace: seq<Event>)
    requires TreeOk(vs) && |fs0| == |vs|
  {
    forall i | 0 <= i < |trace| :: InOrder(vs, fs0, trace[..i], trace[i])
  }

  /** A flag that has gone has left its event behind, and one that has not has not. */
  ghost predicate Accounted(vs: seq<Vnode>, fs0: seq<Flags>, fs: seq<Flags>, trace: seq<Event>)
    requires |fs0| == |fs| == |vs|
  {
    && (forall w: nat | w < |vs| && fs0[w].create && !fs0[w].remove && !fs[w].create :: Created(w) in trace)
    && (forall w: nat | w < |vs| && Dirty(fs0[w]) && !Dirty(fs[w]) :: Done(w) in trace)
    && (forall w: nat | w < |vs| :: fs[w].remove == (fs0[w].remove && Dirty(fs[w])))
    && (forall w: nat | w < |vs| :: fs[w].rename == (fs0[w].rename && Dirty(fs[w])))
    && (forall w: nat | w < |vs| && (Created(w) in trace || Done(w) in trace) :: !fs[w].create)
    && (forall w: nat | w < |vs| && Done(w) in trace :: !Dirty(fs[w]))
    && (forall w: nat | w < |vs| && fs0[w].create && fs0[w].remove && Dirty(fs[w]) :: fs[w].create)
    && (forall w: nat | w < |vs| && fs0[w].rename && !fs0[w].remove && !Dirty(fs[w]) :: RenameSent(w) in trace)
  }

  /** Neither made nor, as something to be removed after all, dealt with yet. */
  ghost predicate Unmade(fs0: seq<Flags>, trace: seq<Event>, w: nat)
    requires w < |fs0|
  {
    fs0[w].create && Created(w) !in trace && Done(w) !in trace
  }

  /** The creation flag tells exactly what has happened so far. */
  lemma UnmadeIsFlagged(vs: seq<Vnode>, fs0: seq<Flags>, fs: seq<Flags>, trace: seq<Event>, w: nat)
    requires |fs0| == |fs| == |vs| && Accounted(vs, fs0, fs, trace) && Fewer(fs0, fs) && w < |vs|
    ensures fs[w].create <==> Unmade(fs0, trace, w)
    ensures !fs[w].create ==> MadeBefore(fs0, trace, w)
  {
  }

  /** A ready vnode is in order. */
  lemma ReadyInOrder(vs: seq<Vnode>, fs0: seq<Flags>, fs: seq<Flags>, trace: seq<Event>, e: Event)
    requires TreeOk(vs) && |fs0| == |fs| == |vs| && e.v < |vs| && Accounted(vs, fs0, fs, trace) && Fewer(fs0, fs)
    requires fs[e.v].remove == fs0[e.v].remove
    requires e.Created? ==> !Blocked(vs, fs, e.v) && (fs[e.v].remove || fs[e.v].create)
    requires !e.Created? && fs[e.v].remove ==> !Blocked(vs, fs, e.v)
    ensures InOrder(vs, fs0, trace, e)
  {
    var p := vs[e.v].parent;
    if fs[e.v].remove || e.Created? {
      assert !WaitsFor(vs, fs, e.v, p);
      UnmadeIsFlagged(vs, fs0, fs, trace, p);
    }
    if e.Done? && fs0[e.v].remove && vs[e.v].isDir {
      forall k | 0 <= k < |vs[e.v].listed| && Dirty(fs0[vs[e.v].listed[k]])
        ensures Done(vs[e.v].listed[k]) in trace
      {
        var c := vs[e.v].listed[k];
        assert c in vs[e.v].listed && !WaitsFor(vs, fs, e.v, c);
      }
    }
  }

  /** And what is put off would be out of order now. */
  lemma PutOffIfTooEarly(vs: seq<Vnode>, fs0: seq<Flags>, fs: seq<Flags>, trace: seq<Event>, v: nat)
    requires TreeOk(vs) && |fs0| == |fs| == |vs| && v < |vs| && Accounted(vs, fs0, fs, trace) && Fewer(fs0, fs)
    requires Exclusive(fs0) && Blocked(vs, fs, v)
    ensures !InOrder(vs, fs0, trace, if fs[v].remove then Done(v) else Created(v))
  {
    var w: nat :| w < |vs| && WaitsFor(vs, fs, v, w);
    UnmadeIsFlagged(vs, fs0, fs, trace, w);
    assert fs[w].create ==> !MadeBefore(fs0, trace, w);
    if fs[v].remove && vs[v].isDir && w in vs[v].listed && Dirty(fs[w]) {
      var k :| 0 <= k < |vs[v].listed| && vs[v].listed[k] == w;
      assert Done(vs[v].listed[k]) !in trace;
    }
  }

  lemma OneMore(vs: seq<Vnode>, fs0: seq<Flags>, trace: seq<Event>, e: Event)
    requires TreeOk(vs) && |fs0| == |vs| && AllInOrder(vs, fs0, trace) && InOrder(vs, fs0, trace, e)
    ensures AllInOrder(vs, fs0, trace + [e])
  {
    var t := trace + [e];
    forall i | 0 <= i < |t| ensures InOrder(vs, fs0, t[..i], t[i]) {
      assert t[..i] == trace[..i];
      if i == |trace| { assert trace[..i] == trace; }
    }
  }

  lemma DoneAccounted(vs: seq<Vnode>, fs0: seq<Flags>, fs: seq<Flags>, trace: seq<Event>, v: nat)
    requires |fs0| == |fs| == |vs| && v < |vs| && Accounted(vs, fs0, fs, trace) && Fewer(fs0, fs)
    requires fs[v].remove || (!fs[v].create && (fs[v].rename ==> RenameSent(v) in trace))
    ensures Accounted(vs, fs0, fs[v := CLEAN], trace + [Done(v)]) && Fewer(fs0, fs[v := CLEAN])
  {
    assert Done(v) in trace + [Done(v)];
    assert forall e | e in trace :: e in trace + [Done(v)];
  }

  lemma CreatedAccounted(vs: seq<Vnode>, fs0: seq<Flags>, fs: seq<Flags>, trace: seq<Event>, v: nat)
    requires |fs0| == |fs| == |vs| && v < |vs| && Accounted(vs, fs0, fs, trace) && Fewer(fs0, fs)
    requires fs[v].create && !fs[v].remove
    ensures var fs' := fs[v := fs[v].(create := false, created := true)];
            Accounted(vs, fs0, fs', trace + [Created(v)]) && Fewer(fs0, fs') && Fewer(fs, fs')
  {
    assert Created(v) in trace + [Created(v)];
    assert forall e | e in trace :: e in trace + [Created(v)];
  }

  lemma SentAccounted(vs: seq<Vnode>, fs0: seq<Flags>, fs: seq<Flags>, trace: seq<Event>, v: nat)
    requires TreeOk(vs) && |fs0| == |fs| == |vs| && v < |vs| && Accounted(vs, fs0, fs, trace)
    requires AllInOrder(vs, fs0, trace) && !fs0[v].remove
    ensures Accounted(vs, fs0, fs, trace + [RenameSent(v)]) && AllInOrder(vs, fs0, trace + [RenameSent(v)])
  {
    OneMore(vs, fs0, trace, RenameSent(v));
    hide AllInOrder;
    assert forall e :: e in trace + [RenameSent(v)] <==> e in trace || e == RenameSent(v);
  }

  // ---------------------------------------------------------------- renames

  /** What is to be made was not there before, so nobody has renamed it, and removing it again takes
      it off the queue. */
  ghost predicate Exclusive(fs: seq<Flags>) {
    forall v | 0 <= v < |fs| && fs[v].create :: !fs[v].remove && !fs[v].rename
  }

  /** The directory of the vnode at place j is made, if it is to be made at all, before the turn of
      that vnode on the first time round: it stands earlier in the queue, and so does its own. */
  ghost predicate Prompt(vs: seq<Vnode>, fs: seq<Flags>, q: seq<nat>, j: nat)
    requires TreeOk(vs) && |fs| == |vs| && j < |q| && forall k | 0 <= k < |q| :: q[k] < |vs|
    decreases j
  {
    fs[vs[q[j]].parent].create ==> exists k: nat :: k < j && q[k] == vs[q[j]].parent && Prompt(vs, fs, q, k)
  }

  /** Each rename was sent after the new directory had been made exactly if that was prompt. */
  ghost predicate RenamesJudged(vs: seq<Vnode>, fs0: seq<Flags>, q0: seq<nat>, trace: seq<Event>)
    requires QueueOk(vs, fs0, q0)
  {
    forall i | 0 <= i < |trace| && trace[i].RenameSent? ::
      exists j: nat :: j < |q0| && q0[j] == trace[i].v &&
        (MadeBefore(fs0, trace[..i], vs[q0[j]].parent) <==> Prompt(vs, fs0, q0, j))
  }

  /** After the first t turns. */
  ghost predicate FirstPass(vs: seq<Vnode>, fs0: seq<Flags>, q0: seq<nat>, t: nat, fs: seq<Flags>, q: seq<nat>)
    requires QueueOk(vs, fs0, q0) && t <= |q0| && |fs| == |fs0|
  {
    && |q0| - t <= |q| && q[..|q0| - t] == q0[t..]
    && (forall j | t <= j < |q0| :: fs[q0[j]] == fs0[q0[j]])
    && (forall j: nat | j < t && fs0[q0[j]].create :: fs[q0[j]].create <==> !Prompt(vs, fs0, q0, j))
    && (forall j | 0 <= j < t :: fs[q0[j]].rename ==> fs[q0[j]].remove)
  }

  /** Who is still flagged for a rename is to be removed, and so is not renamed. */
  ghost predicate NoRenames(fs: seq<Flags>) { forall v | 0 <= v < |fs| :: fs[v].rename ==> fs[v].remove }

  /** What one turn, that of v, does to flags and events. */
  ghost predicate TurnOf(v: nat, fs: seq<Flags>, fs': seq<Flags>, trace: seq<Event>, trace': seq<Event>) {
    && v < |fs| == |fs'| && trace <= trace'
    && (forall w | 0 <= w < |fs| && w != v :: fs'[w] == fs[w])
    && (forall i | |trace| <= i < |trace'| && trace'[i].RenameSent? ::
          trace'[i].v == v && fs[v].rename && !fs[v].remove && (!fs[v].create ==> i == |trace|))
  }

  lemma ParentFlag(vs: seq<Vnode>, fs0: seq<Flags>, q0: seq<nat>, t: nat, fs: seq<Flags>, q: seq<nat>)
    requires QueueOk(vs, fs0, q0) && t < |q0| && Fewer(fs0, fs) && FirstPass(vs, fs0, q0, t, fs, q)
    ensures fs[vs[q0[t]].parent].create <==> !Prompt(vs, fs0, q0, t)
  {
    var p := vs[q0[t]].parent;
    if fs0[p].create {
      assert p in q0;
      var k :| 0 <= k < |q0| && q0[k] == p;
      if k < t {
        assert forall k': nat | k' < t && q0[k'] == p :: k' == k;
      }
    }
  }

  lemma MadeIfUnflagged(vs: seq<Vnode>, fs0: seq<Flags>, fs: seq<Flags>, trace: seq<Event>, p: nat)
    requires |fs0| == |fs| == |vs| && Accounted(vs, fs0, fs, trace) && Fewer(fs0, fs) && Exclusive(fs0) && p < |vs|
    ensures MadeBefore(fs0, trace, p) <==> !fs[p].create
  {
    UnmadeIsFlagged(vs, fs0, fs, trace, p);
  }

  /** A turn of the first time round keeps the account of it. */
  lemma FirstTurn(vs: seq<Vnode>, fs0: seq<Flags>, q0: seq<nat>, t: nat, fs: seq<Flags>, q: seq<nat>,
                  fs': seq<Flags>, q': seq<nat>)
    requires QueueOk(vs, fs0, q0) && Exclusive(fs0) && t < |q0| && Fewer(fs0, fs) && FirstPass(vs, fs0, q0, t, fs, q)
    requires |fs'| == |fs| && q != [] && q[0] < |fs| && TreeOk(vs)
    requires if Blocked(vs, fs, q[0]) then fs' == fs && q' == Rotated(q) else fs' == fs[q[0] := CLEAN] && q' == q[1..]
    ensures FirstPass(vs, fs0, q0, t + 1, fs', q')
  {
    var v := q0[t];
    assert q[..|q0| - t][0] == v;
    ParentFlag(vs, fs0, q0, t, fs, q);
    assert fs[v].create && fs[vs[v].parent].create ==> WaitsFor(vs, fs, v, vs[v].parent);
    assert !fs[v].remove && Blocked(vs, fs, v) ==> fs[v].create && fs[vs[v].parent].create;
    hide Blocked, Prompt;
    assert q'[..|q0| - t - 1] == q[..|q0| - t][1..] == q0[t + 1..];
    forall j | 0 <= j < |q0| && j != t ensures fs'[q0[j]] == fs[q0[j]] {
      assert q0[j] != v;
    }
  }

  lemma AllRenamesSent(vs: seq<Vnode>, fs0: seq<Flags>, q0: seq<nat>, fs: seq<Flags>, q: seq<nat>)
    requires QueueOk(vs, fs0, q0) && Fewer(fs0, fs) && FirstPass(vs, fs0, q0, |q0|, fs, q)
    ensures NoRenames(fs)
  {
    forall v: nat | v < |fs| && fs[v].rename ensures fs[v].remove {
      assert Dirty(fs[v]) && Dirty(fs0[v]) && v in q0;
    }
  }

  /** And judges the rename it sends. */
  lemma FirstTurnJudged(vs: seq<Vnode>, fs0: seq<Flags>, q0: seq<nat>, t: nat, fs: seq<Flags>, q: seq<nat>,
                        trace: seq<Event>, fs': seq<Flags>, trace': seq<Event>)
    requires QueueOk(vs, fs0, q0) && Exclusive(fs0) && t < |q0| && Fewer(fs0, fs) && FirstPass(vs, fs0, q0, t, fs, q)
    requires Accounted(vs, fs0, fs, trace) && RenamesJudged(vs, fs0, q0, trace) && TurnOf(q0[t], fs, fs', trace, trace')
    ensures RenamesJudged(vs, fs0, q0, trace')
  {
    ParentFlag(vs, fs0, q0, t, fs, q);
    MadeIfUnflagged(vs, fs0, fs, trace, vs[q0[t]].parent);
    hide Prompt, Accounted, MadeBefore;
    forall i | 0 <= i < |trace'| && trace'[i].RenameSent?
      ensures exists j: nat :: j < |q0| && q0[j] == trace'[i].v &&
                (MadeBefore(fs0, trace'[..i], vs[q0[j]].parent) <==> Prompt(vs, fs0, q0, j))
    {
      if i < |trace| {
        assert trace'[i] == trace[i] && trace'[..i] == trace[..i];
      } else {
        assert !fs[q0[t]].create && trace'[..i] == trace;
      }
    }
  }

  lemma LaterTurnJudged(vs: seq<Vnode>, fs0: seq<Flags>, q0: seq<nat>, v: nat, fs: seq<Flags>, trace: seq<Event>,
                        fs': seq<Flags>, trace': seq<Event>)
    requires QueueOk(vs, fs0, q0) && NoRenames(fs) && RenamesJudged(vs, fs0, q0, trace) && TurnOf(v, fs, fs', trace, trace')
    ensures RenamesJudged(vs, fs0, q0, trace')
  {
    hide Prompt, MadeBefore;
    forall i | 0 <= i < |trace'| && trace'[i].RenameSent?
      ensures exists j: nat :: j < |q0| && q0[j] == trace'[i].v &&
                (MadeBefore(fs0, trace'[..i], vs[q0[j]].parent) <==> Prompt(vs, fs0, q0, j))
    {
      assert trace'[i] == trace[i] && trace'[..i] == trace[..i];
    }
  }

  ghost predicate Underway(vs: seq<Vnode>, fs0: seq<Flags>, q0: seq<nat>, t: nat, fs: seq<Flags>, q: seq<nat>, trace: seq<Event>) {
    && QueueOk(vs, fs0, q0) && |fs| == |fs0| && Exclusive(fs0) && RenamesJudged(vs, fs0, q0, trace)
    && if t < |q0| then FirstPass(vs, fs0, q0, t, fs, q) else NoRenames(fs)
  }

  lemma Onward(vs: seq<Vnode>, fs0: seq<Flags>, q0: seq<nat>, t: nat, fs: seq<Flags>, q: seq<nat>, trace: seq<Event>,
               fs': seq<Flags>, q': seq<nat>, trace': seq<Event>, code: int)
    requires Underway(vs, fs0, q0, t, fs, q, trace) && QueueOk(vs, fs, q) && q != []
    requires Fewer(fs0, fs) && Accounted(vs, fs0, fs, trace) && TurnOf(q[0], fs, fs', trace, trace')
    requires code == EAGAIN ==> Blocked(vs, fs, q[0]) && fs' == fs && q' == Rotated(q)
    requires code == 0 ==> !Blocked(vs, fs, q[0]) && fs' == fs[q[0] := CLEAN] && q' == q[1..]
    ensures RenamesJudged(vs, fs0, q0, trace')
    ensures code == 0 || code == EAGAIN ==> Underway(vs, fs0, q0, t + 1, fs', q', trace')
  {
    if t < |q0| {
      assert q[..|q0| - t][0] == q0[t];
      FirstTurnJudged(vs, fs0, q0, t, fs, q, trace, fs', trace');
      hide RenamesJudged, Accounted, TurnOf, Blocked;
      if code == 0 || code == EAGAIN {
        FirstTurn(vs, fs0, q0, t, fs, q, fs', q');
        if t + 1 == |q0| {
          OnlyFewer(fs0, fs, q[0]);
          AllRenamesSent(vs, fs0, q0, fs', q');
        }
      }
    } else {
      LaterTurnJudged(vs, fs0, q0, q[0], fs, trace, fs', trace');
      hide RenamesJudged, Accounted, TurnOf, Blocked;
    }
  }

  lemma OnlyFewer(fs0: seq<Flags>, fs: seq<Flags>, v: nat)
    requires Fewer(fs0, fs) && v < |fs|
    ensures Fewer(fs0, fs[v := CLEAN])
  {
  }

  /** A file that was dirty before the directory it was renamed into was made stands before it in
      the queue, and its rename is not put off: it is sent with the directory still to be made. */
  lemma RenameTooEarly() returns (vs: seq<Vnode>, fs: seq<Flags>, q: seq<nat>)
    ensures QueueOk(vs, fs, q) && Exclusive(fs) && Ranked(vs, fs, [0, 0, 0])
    ensures q == [2, 1] && fs[2].rename && fs[1].create && vs[2].parent == 1
    ensures !Blocked(vs, fs, 2) && !Prompt(vs, fs, q, 0) && Prompt(vs, fs, [1, 2], 1)
  {
    vs := [Vnode(0, true, []), Vnode(0, true, []), Vnode(1, false, [])];
    fs := [CLEAN, CLEAN.(create := true), CLEAN.(rename := true, other := true)];
    q := [2, 1];
    assert Prompt(vs, fs, [1, 2], 0);
    assert [1, 2][0] == 1;
  }

  // ---------------------------------------------------------------- who has been replayed

  /** At this turn, the one of v, everything was done that its flags asked for. */
  ghost predicate ServedAt(f: Flags, v: nat, turns: seq<nat>, answers: nat -> Answers, t: nat) {
    t < |turns| && turns[t] == v && Succeeded(f, answers(t))
  }

  /** Everybody is as at the start, or has had such a turn and is clean. */
  ghost predicate Replayed(fs0: seq<Flags>, fs: seq<Flags>, turns: seq<nat>, answers: nat -> Answers) {
    |fs| == |fs0| && forall v: nat | v < |fs| ::
      fs[v] == fs0[v] || (fs[v] == CLEAN && exists t: nat :: ServedAt(fs0[v], v, turns, answers, t))
  }

  lemma ReplayedOn(fs0: seq<Flags>, fs: seq<Flags>, turns: seq<nat>, answers: nat -> Answers, v: nat, fs': seq<Flags>)
    requires Replayed(fs0, fs, turns, answers) && v < |fs| && Dirty(fs[v])
    requires fs' == fs || (fs' == fs[v := CLEAN] && Succeeded(fs[v], answers(|turns|)))
    ensures Replayed(fs0, fs', turns + [v], answers) && fs[v] == fs0[v]
  {
    hide Succeeded;
    assert fs' != fs ==> ServedAt(fs0[v], v, turns + [v], answers, |turns|);
    forall u: nat | u < |fs| && fs[u] != fs0[u] ensures exists t: nat :: ServedAt(fs0[u], u, turns + [v], answers, t) {
      var t: nat :| ServedAt(fs0[u], u, turns, answers, t);
      assert ServedAt(fs0[u], u, turns + [v], answers, t);
    }
  }

  class Client {
    const vnodes: seq<Vnode>
    ghost const flags0: seq<Flags>
    var flags: seq<Flags>
    /** The dirty queue; its front is replayed next. */
    var queue: seq<nat>
    ghost var trace: seq<Event>

    ghost predicate Valid()
      reads this
    {
      && QueueOk(vnodes, flags, queue) && |flags0| == |vnodes| && Fewer(flags0, flags)
      && Accounted(vnodes, flags0, flags, trace) && AllInOrder(vnodes, flags0, trace)
    }

    constructor (vs: seq<Vnode>, fs: seq<Flags>, q: seq<nat>)
      requires QueueOk(vs, fs, q)
      ensures Valid() && vnodes == vs && flags0 == flags == fs && queue == q && trace == []
    {
      vnodes, flags0, flags, queue, trace := vs, fs, fs, q, [];
    }

    /** Does some entry of a directory's shadow copy remain to be replayed? */
    method CheckDeletedChildren(v: nat) returns (some: bool)
      requires Valid() && v < |vnodes|
      ensures some <==> exists k :: 0 <= k < |vnodes[v].listed| && Dirty(flags[vnodes[v].listed[k]])
    {
      some := false;
      var k := 0;
      while k < |vnodes[v].listed|
        invariant k <= |vnodes[v].listed|
        invariant some <==> exists j :: 0 <= j < k && Dirty(flags[vnodes[v].listed[j]])
      {
        if Dirty(flags[vnodes[v].listed[k]]) {
          some := true;
        }
        k := k + 1;
      }
    }

    /** The parent of a vnode, unless it cannot be found or is not on the server yet: then it is
        still in the queue, so that there is something to wait for. */
    method GetParentVCache(v: nat, a: Answers) returns (code: int)
      requires Valid() && v < |vnodes|
      ensures a.lookup != 0 ==> code == a.lookup
      ensures a.lookup == 0 ==> code == if Unmade(flags0, trace, vnodes[v].parent) then EAGAIN else 0
      ensures a.lookup == 0 && code == 0 ==> MadeBefore(flags0, trace, vnodes[v].parent)
      ensures a.lookup == 0 && code != 0 ==> vnodes[v].parent in queue
    {
      hide AllInOrder, Accounted;
      UnmadeIsFlagged(vnodes, flags0, flags, trace, vnodes[v].parent);
      if a.lookup != 0 {
        return a.lookup;
      }
      if flags[vnodes[v].parent].create {
        assert Dirty(flags[vnodes[v].parent]);
        return EAGAIN;
      }
      return 0;
    }

    /** The removal is sent only when nothing blocks it. */
    method ProcessOpRemove(v: nat, a: Answers) returns (code: int)
      requires Valid() && v < |vnodes| && flags[v].remove
      ensures code == if a.lookup != 0 then a.lookup else if Blocked(vnodes, flags, v) then EAGAIN else a.remove
    {
      hide AllInOrder, Accounted;
      UnmadeIsFlagged(vnodes, flags0, flags, trace, vnodes[v].parent);
      code := GetParentVCache(v, a);
      if code != 0 {
        assert a.lookup == 0 ==> WaitsFor(vnodes, flags, v, vnodes[v].parent);
        return;
      }
      if vnodes[v].isDir {
        var some := CheckDeletedChildren(v);
        if some {
          ghost var k :| 0 <= k < |vnodes[v].listed| && Dirty(flags[vnodes[v].listed[k]]);
          assert WaitsFor(vnodes, flags, v, vnodes[v].listed[k]);
          return EAGAIN;
        }
      }
      assert !Blocked(vnodes, flags, v);
      code := a.remove;
    }

    /** And so is a creation: never while the directory is not created itself. */
    method ProcessOpCreate(v: nat, a: Answers) returns (code: int)
      requires Valid() && v < |vnodes| && flags[v].create && !flags[v].remove
      ensures code == if a.lookup != 0 then a.lookup else if Blocked(vnodes, flags, v) then EAGAIN else a.create
    {
      hide AllInOrder, Accounted;
      UnmadeIsFlagged(vnodes, flags0, flags, trace, vnodes[v].parent);
      code := GetParentVCache(v, a);
      if code != 0 {
        assert a.lookup == 0 ==> WaitsFor(vnodes, flags, v, vnodes[v].parent);
        return;
      }
      code := a.create;
    }

    /** What there is to replay of a vnode that exists on the server: a rename, then its changes. */
    method SendRest(v: nat, a: Answers) returns (code: int)
      requires v < |flags|
      modifies this`trace
      ensures code == Rest(flags[v], a)
      ensures trace == old(trace) + if flags[v].rename then [RenameSent(v)] else []
    {
      if flags[v].rename {
        trace := trace + [RenameSent(v)];
        code := a.rename;
        if code != 0 {
          return;
        }
      }
      code := a.fetch;
      if code != 0 {
        return;
      }
      code := a.send;
    }

    /** Make the vnode at the front on the server. */
    method Make(a: Answers) returns (code: int)
      requires Valid() && queue != [] && flags[queue[0]].create && !flags[queue[0]].remove
      modifies this`flags, this`trace
      ensures Valid() && Fewer(old(flags), flags)
      ensures code == if a.lookup != 0 then a.lookup else if old(Blocked(vnodes, flags, queue[0])) then EAGAIN else a.create
      ensures code != 0 ==> flags == old(flags) && trace == old(trace)
      ensures code == 0 ==>
                && flags == old(flags)[queue[0] := old(flags)[queue[0]].(create := false, created := true)]
                && trace == old(trace) + [Created(queue[0])]
    {
      hide AllInOrder, InOrder, Accounted;
      var v := queue[0];
      assert v in queue;
      FlagsKept(v);
      code := ProcessOpCreate(v, a);
      if code != 0 {
        return;
      }
      ReadyInOrder(vnodes, flags0, flags, trace, Created(v));
      OneMore(vnodes, flags0, trace, Created(v));
      CreatedAccounted(vnodes, flags0, flags, trace, v);
      flags := flags[v := flags[v].(create := false, created := true)];
      trace := trace + [Created(v)];
    }

    /** Send the rest of what there is to replay of the vnode at the front, which has been made. */
    method Send(a: Answers) returns (code: int)
      requires Valid() && queue != [] && !flags[queue[0]].create && !flags[queue[0]].remove
      modifies this`trace
      ensures Valid() && code == Rest(flags[queue[0]], a)
      ensures trace == old(trace) + if flags[queue[0]].rename then [RenameSent(queue[0])] else []
      ensures InOrder(vnodes, flags0, trace, Done(queue[0]))
    {
      hide AllInOrder, InOrder, Accounted, Rest;
      var v := queue[0];
      assert v in queue;
      FlagsKept(v);
      ghost var sent := trace;
      code := SendRest(v, a);
      if flags[v].rename {
        SentAccounted(vnodes, flags0, flags, sent, v);
      } else {
        assert trace == sent;
      }
      ReadyInOrder(vnodes, flags0, flags, trace, Done(v));
    }

    /** Replay what the flags of the vnode at the front ask for: it is done exactly if nothing blocks it and
        every call succeeds. */
    method Attempt(a: Answers) returns (code: int)
      requires Valid() && queue != [] && Honest(a)
      modifies this`flags, this`trace
      ensures Valid() && Fewer(old(flags), flags)
      ensures code == EAGAIN <==> a.lookup == 0 && old(Blocked(vnodes, flags, queue[0]))
      ensures code == 0 ==> !old(Blocked(vnodes, flags, queue[0]))
      ensures code == EAGAIN ==> flags == old(flags) && trace == old(trace)
      ensures Result(old(flags)[queue[0]], old(Blocked(vnodes, flags, queue[0])), a, code)
      ensures code == 0 ==> Succeeded(old(flags)[queue[0]], a)
      ensures flags == old(flags)[queue[0] := AfterFailure(old(flags)[queue[0]], old(Blocked(vnodes, flags, queue[0])), a)]
      ensures code == 0 ==> InOrder(vnodes, flags0, trace, Done(queue[0]))
      ensures code == 0 ==> flags[queue[0]].remove ||
                            (!flags[queue[0]].create && (flags[queue[0]].rename ==> RenameSent(queue[0]) in trace))
      ensures TurnOf(queue[0], old(flags), flags, old(trace), trace)
    {
      hide AllInOrder, InOrder, Accounted, Asked, AllSucceed, FirstFailure, Honest, Blocked;
      var v := queue[0];
      assert v in queue;
      FlagsKept(v);
      ghost var f, blocked := flags[v], Blocked(vnodes, flags, v);
      if blocked { BlockedKind(vnodes, flags, v); }
      if flags[v].remove {
        code := ProcessOpRemove(v, a);
        if code == 0 {
          ReadyInOrder(vnodes, flags0, flags, trace, Done(v));
        }
      } else {
        code := 0;
        if flags[v].create {
          code := Make(a);
        }
        if code == 0 {
          code := Send(a);
        }
      }
      TurnResult(f, blocked, a, code);
      if code == 0 { SucceededIfAll(f, a); }
    }

    lemma FlagsKept(v: nat)
      requires Valid() && v in queue
      ensures v < |vnodes| && flags[v].remove == flags0[v].remove
    {
    }

    /** One turn of the loop: the vnode at the front leaves the queue, goes to the back of it if
        and only if something blocks it, or ends the replay with a real error. */
    method Turn(a: Answers) returns (code: int)
      requires Valid() && queue != [] && Honest(a)
      modifies this`flags, this`queue, this`trace
      ensures Valid() && Fewer(old(flags), flags)
      ensures code == EAGAIN <==> a.lookup == 0 && old(Blocked(vnodes, flags, queue[0]))
      ensures code == 0 ==> !old(Blocked(vnodes, flags, queue[0]))
      ensures code == 0 ==> queue == old(queue)[1..]
      ensures code == EAGAIN ==> flags == old(flags) && queue == Rotated(old(queue))
      ensures code != 0 && code != EAGAIN ==> queue == old(queue)
      ensures code == 0 ==> flags == old(flags)[old(queue)[0] := CLEAN]
      ensures Result(old(flags)[old(queue)[0]], old(Blocked(vnodes, flags, queue[0])), a, code)
      ensures code == 0 ==> Succeeded(old(flags)[old(queue)[0]], a)
      ensures code != 0 ==> flags == old(flags)[old(queue)[0] := AfterFailure(old(flags)[old(queue)[0]], old(Blocked(vnodes, flags, queue[0])), a)]
      ensures TurnOf(old(queue)[0], old(flags), flags, old(trace), trace)
    {
      hide AllInOrder, InOrder, Accounted, Result, AfterFailure, Succeeded;
      ghost var before := flags;
      code := Attempt(a);
      var v := queue[0];
      if code == 0 {
        ServedOk(vnodes, flags, queue);
        assert v in queue;
        OneMore(vnodes, flags0, trace, Done(v));
        DoneAccounted(vnodes, flags0, flags, trace, v);
        flags := flags[v := CLEAN];
        queue := queue[1..];
        trace := trace + [Done(v)];
      } else if code == EAGAIN {
        RotationOk(vnodes, flags, queue);
        queue := queue[1..] + [v];
      }
    }

    /** Nothing has been replayed yet. */
    ghost predicate Anew()
      reads this
    {
      trace == [] && flags == flags0 && Exclusive(flags0)
    }

    lemma Setout()
      requires Valid() && Anew()
      ensures Underway(vnodes, flags0, queue, 0, flags, queue, trace)
    {
      assert queue[..|queue|] == queue[0..];
      if queue == [] { AllRenamesSent(vnodes, flags0, queue, flags, queue); }
    }

    /** How the replay ended, when `turns` had a turn, one after the other: everybody dirty at the start
        was done with at a turn when every call made for it succeeded, or the last turn met with this
        error and its vnode, with all that are not done with, is still in the queue. */
    ghost predicate Ended(fs0: seq<Flags>, q0: seq<nat>, turns: seq<nat>, answers: nat -> Answers, code: int)
      reads this
    {
      if code == 0 then
        queue == [] && forall v <- q0 :: v < |fs0| && exists t: nat :: ServedAt(fs0[v], v, turns, answers, t)
      else
        && queue != [] && queue[0] < |fs0| == |flags| && turns != [] && turns[|turns| - 1] == queue[0]
        && FirstFailure(Asked(fs0[queue[0]], answers(|turns| - 1)), code)
        && flags[queue[0]] == AfterFailure(fs0[queue[0]], false, answers(|turns| - 1))
        && (forall v: nat | v < |fs0| && v != queue[0] ::
              flags[v] == fs0[v] || (flags[v] == CLEAN && exists t: nat :: ServedAt(fs0[v], v, turns, answers, t)))
    }

    lemma AllServed(fs0: seq<Flags>, q0: seq<nat>, turns: seq<nat>, answers: nat -> Answers)
      requires Valid() && QueueOk(vnodes, fs0, q0) && Replayed(fs0, flags, turns, answers) && queue == []
      ensures Ended(fs0, q0, turns, answers, 0)
    {
      forall v: nat | v in q0 ensures v < |fs0| && exists t: nat :: ServedAt(fs0[v], v, turns, answers, t) {
        assert Dirty(fs0[v]) && v !in queue;
      }
    }

    lemma Failed(fs0: seq<Flags>, q0: seq<nat>, fs: seq<Flags>, turns: seq<nat>, answers: nat -> Answers, code: int, blocked: bool)
      requires queue != [] && queue[0] < |fs0| == |fs| && turns != [] && turns[|turns| - 1] == queue[0]
      requires Replayed(fs0, fs, turns, answers) && fs[queue[0]] == fs0[queue[0]]
      requires code != 0 && code != EAGAIN && Result(fs[queue[0]], blocked, answers(|turns| - 1), code)
      requires flags == fs[queue[0] := AfterFailure(fs[queue[0]], blocked, answers(|turns| - 1))]
      ensures Ended(fs0, q0, turns, answers, code)
    {
      hide FirstFailure, Asked, ServedAt;
    }

    /** If nothing waits in a circle the replay ends: with everything replayed, or with a real
        error.  Creations and removals have then been done in an order the server can follow, and a
        rename into a new directory exactly if that was prompt. */
    method ResyncDisconFiles(answers: nat -> Answers, ghost rank: seq<nat>) returns (code: int, ghost turns: seq<nat>)
      requires Valid() && (forall i :: Honest(answers(i))) && Ranked(vnodes, flags, rank)
      modifies this`flags, this`queue, this`trace
      ensures Valid() && code != EAGAIN
      ensures code == 0 ==> queue == [] && forall v | 0 <= v < |flags| :: flags[v] == CLEAN
      ensures code != 0 ==> queue != []
      ensures Ended(old(flags), old(queue), turns, answers, code)
      ensures old(Anew()) ==> QueueOk(vnodes, flags0, old(queue)) && RenamesJudged(vnodes, flags0, old(queue), trace)
    {
      hide AllInOrder, InOrder, Accounted, Blocked, RenamesJudged, Underway, TurnOf, Replayed, Ended, AfterFailure;
      code := 0;
      var turn := 0;
      turns := [];
      ghost var fs0, q0, anew := flags, queue, Anew();
      if anew { Setout(); }
      Unserved(answers);
      while queue != []
        invariant Valid() && Ranked(vnodes, flags, rank) && turn == |turns|
        invariant code == 0 || (code == EAGAIN && queue != [])
        invariant anew ==> QueueOk(vnodes, flags0, q0) && RenamesJudged(vnodes, flags0, q0, trace)
        invariant anew ==> Underway(vnodes, flags0, q0, |turns|, flags, queue, trace)
        invariant Replayed(fs0, flags, turns, answers) && QueueOk(vnodes, fs0, q0)
        decreases |queue|, Wait(vnodes, flags, queue)
      {
        ghost var was, fs, sent := queue, flags, trace;
        ghost var blocked := Blocked(vnodes, fs, was[0]);
        assert was[0] in was;
        code := Turn(answers(turn));
        if anew { Onward(vnodes, flags0, q0, |turns|, fs, was, sent, flags, queue, trace, code); }
        ReplayedOn(fs0, fs, turns, answers, was[0], if code == 0 then flags else fs);
        turn, turns := turn + 1, turns + [was[0]];
        StillRanked(vnodes, fs, flags, rank);
        if code == EAGAIN {
          RotationNears(vnodes, fs, was, rank);
        } else if code != 0 {
          Failed(fs0, q0, fs, turns, answers, code, blocked);
          return;
        }
      }
      AllServed(fs0, q0, turns, answers);
    }

    lemma Unserved(answers: nat -> Answers)
      ensures Replayed(flags, flags, [], answers)
    {
    }
  }
}
