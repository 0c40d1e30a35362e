/** The callback expiry wheel: 128 queues of vcaches, one per 128 seconds of remaining promise.

    `Wheel` is the table as a value, with one function per routine; `CallbackTable` is the
    table updated in place, each method proved against its function.  Times are unbounded
    seconds. */
module CallbackWheel {

  /** Seconds per slot, and slots in the wheel. */
  const SLOT_LENGTH: nat := 128
  const SLOTS: nat := 128

  /** The base moves in steps of one second less than a slot, and moves this much early. */
  const BASE_STEP: nat := SLOT_LENGTH - 1
  const EARLY: nat := 20

  type VcId = nat
  type VolId = nat

  datatype Vcache = Vcache(cbExpires: nat, statd: bool, readOnly: bool, volume: VolId)

  /** `serverUp`: at least one server listed for the volume is not marked down. */
  datatype Volume = Volume(expireTime: nat, serverUp: bool)

  function Hash(t: nat): nat { t / SLOT_LENGTH }

  function Without(q: seq<VcId>, v: VcId): (r: seq<VcId>)
    ensures forall x :: x in r <==> x in q && x != v
    ensures v !in q ==> r == q
    ensures |r| <= |q|
  {
    if q == [] then []
    else if q[0] == v then Without(q[1..], v)
    else [q[0]] + Without(q[1..], v)
  }

  ghost predicate NoDup(q: seq<VcId>) { forall i, j :: 0 <= i < j < |q| ==> q[i] != q[j] }

  lemma WithoutKeepsNoDup(q: seq<VcId>, v: VcId)
    requires NoDup(q)
    ensures NoDup(Without(q, v))
  {
    if q != [] {
      WithoutKeepsNoDup(q[1..], v);
      assert q[0] !in q[1..];
      ConcatNoDup([q[0]], Without(q[1..], v));
    }
  }

  lemma ConcatNoDup(a: seq<VcId>, b: seq<VcId>)
    requires NoDup(a) && NoDup(b) && forall x <- a :: x !in b
    ensures NoDup(a + b)
  {
    forall i, j | 0 <= i < j < |a + b| ensures (a + b)[i] != (a + b)[j] {
      if i < |a| <= j {
        assert (a + b)[i] in a && (a + b)[j] in b;
      }
    }
  }

  lemma NoDupTail(q: seq<VcId>)
    requires NoDup(q) && |q| > 0
    ensures NoDup(q[1..]) && forall i | 0 < i < |q| :: q[0] != q[i]
  {
  }

  lemma WithoutPrefix(q: seq<VcId>, n: nat)
    requires NoDup(q) && n < |q|
    ensures |Without(q, q[n])| >= n
    ensures forall i | 0 <= i < n :: Without(q, q[n])[i] == q[i]
  {
    hide NoDup, Without;
    NoDupTail(q);
    if n > 0 {
      assert q[1..][n - 1] == q[n];
      WithoutPrefix(q[1..], n - 1);
      WithoutLater(q, q[n]);
    }
  }

  lemma WithoutLater(q: seq<VcId>, v: VcId)
    requires q != [] && q[0] != v
    ensures Without(q, v) == [q[0]] + Without(q[1..], v)
  {
  }

  datatype Wheel = Wheel(
    base: nat,
    basetime: nat,
    slots: seq<seq<VcId>>,
    vcs: map<VcId, Vcache>,
    vols: map<VolId, Volume>)
  {
    predicate Shaped() {
      base < SLOTS && |slots| == SLOTS
    }

    predicate Queued(v: VcId) {
      exists k :: 0 <= k < |slots| && v in slots[k]
    }

    function Unlinked(v: VcId): Wheel {
      this.(slots := seq(|slots|, k requires 0 <= k < |slots| => Without(slots[k], v)))
    }

    function Linked(k: nat, v: VcId): Wheel
      requires k < |slots|
    {
      this.(slots := slots[k := [v] + slots[k]])
    }

    function WithVcache(v: VcId, vc: Vcache): Wheel {
      this.(vcs := vcs[v := vc])
    }

    /** Put v in the slot `hashed` places after the base, unless it is queued already. */
    function Enqueued(v: VcId, hashed: nat): Wheel
      requires Shaped() && v in vcs
    {
      var w := if vcs[v].volume in vols && vols[vcs[v].volume].expireTime < vcs[v].cbExpires
               then this.(vols := vols[vcs[v].volume := vols[vcs[v].volume].(expireTime := vcs[v].cbExpires)])
               else this;
      if w.Queued(v) then w else w.Linked((hashed + base) % SLOTS, v)
    }

    function BumpedOnce(): Wheel
      requires Shaped()
    {
      var next := (base + 1) % SLOTS;
      this.(base := next,
            basetime := basetime + BASE_STEP,
            slots := slots[next := slots[next] + slots[base]][base := []])
    }

    function Bumped(now: nat): Wheel
      requires Shaped()
      decreases if now >= basetime then now - basetime else 0
    {
      if basetime + (SLOT_LENGTH - EARLY) <= now then BumpedOnce().Bumped(now) else this
    }

    /** Broken off because it expires too soon to keep. */
    function Invalidated(v: VcId): Wheel
      requires v in vcs
    {
      Unlinked(v).WithVcache(v, vcs[v].(statd := false))
    }

    /** A read-only vcache whose volume is known and has no server up is left as it is. */
    predicate Exempt(v: VcId, limit: nat) {
      v in vcs && vcs[v].readOnly && vcs[v].volume in vols &&
      vols[vcs[v].volume].expireTime <= limit && !vols[vcs[v].volume].serverUp
    }

    /** The expiry test on one vcache of the base slot. */
    function Judged(v: VcId, limit: nat): Wheel
      requires v in vcs
    {
      var vc := vcs[v];
      if vc.cbExpires >= limit then this
      else if vc.readOnly && vc.volume in vols then
        var vol := vols[vc.volume];
        if vol.expireTime > limit then WithVcache(v, vc.(cbExpires := vol.expireTime))
        else if vol.serverUp then Invalidated(v)
        else this
      else Invalidated(v)
    }

    /** Its distance from the base, when it belongs in another slot. */
    predicate Misplaced(v: VcId)
      requires v in vcs
    {
      vcs[v].cbExpires > basetime && Hash(vcs[v].cbExpires - basetime) % SLOTS != 0
    }

    function Replaced(v: VcId): Wheel
      requires Shaped() && v in vcs
    {
      if Misplaced(v)
      then Unlinked(v).Linked((Hash(vcs[v].cbExpires - basetime) + base) % SLOTS, v)
      else this
    }

    function Examined(v: VcId, limit: nat): Wheel
      requires Shaped() && v in vcs
    {
      Judged(v, limit).Replaced(v)
    }

    /** The walk over the base queue from position n - 1 down to `end`, tail first. */
    function Walked(q: seq<VcId>, n: nat, end: nat, limit: nat): Wheel
      requires Shaped() && n <= |q| && forall v <- q :: v in vcs
      decreases n
    {
      if n <= end then this
      else Examined(q[n - 1], limit).Walked(q, n - 1, end, limit)
    }

    lemma WalkedStep(q: seq<VcId>, n: nat, end: nat, limit: nat)
      requires Shaped() && n <= |q| && forall v <- q :: v in vcs
      ensures n <= end ==> Walked(q, n, end, limit) == this
      ensures n > end ==> Examined(q[n - 1], limit).Shaped() && (forall v <- q :: v in Examined(q[n - 1], limit).vcs)
      ensures n > end ==> Walked(q, n, end, limit) == Examined(q[n - 1], limit).Walked(q, n - 1, end, limit)
    {
    }

    function Flushed(now: nat): Wheel {
      Wheel(0, now, seq(SLOTS, _ => []), map v | v in vcs :: vcs[v].(statd := false), vols)
    }

    /** `most` is the sanity limit on the length of the walk. */
    function Checked(limit: nat, most: nat, now: nat): Wheel
      requires Shaped() && forall v <- slots[base] :: v in vcs
    {
      var q := slots[base];
      if |q| <= most then Walked(q, |q|, 0, limit)
      else Walked(q, |q|, |q| - most - 1, limit).Flushed(now)
    }
  }

  // ---------------------------------------------------------------- the table in place

  class CallbackTable {
    const buckets: array<seq<VcId>>
    var base: nat
    var basetime: nat
    var vcs: map<VcId, Vcache>
    var vols: map<VolId, Volume>

    function Value(): Wheel
      reads this, buckets
    {
      Wheel(base, basetime, buckets[..], vcs, vols)
    }

    /** The links of a vcache are in one queue at most and once, and queues hold known vcaches. */
    ghost predicate Valid()
      reads this, buckets
    {
      && Value().Shaped() && Known(Value()) && InOneSlot(Value())
      && forall k | 0 <= k < buckets.Length :: NoDup(buckets[k])
    }

    constructor (now: nat)
      ensures Valid() && fresh(buckets)
      ensures Value() == Wheel(0, now, seq(SLOTS, _ => []), map[], map[])
    {
      buckets := new seq<VcId>[SLOTS](_ => []);
      base, basetime := 0, now;
      vcs, vols := map[], map[];
      new;
      assert buckets[..] == seq(SLOTS, _ => []);
    }

    /** Unlink v where it is; its links make the search unnecessary in the original. */
    method Unlink(v: VcId)
      requires Valid()
      modifies buckets
      ensures Valid() && Value() == old(Value()).Unlinked(v)
    {
      ghost var was := buckets[..];
      if k :| 0 <= k < SLOTS && v in buckets[k] {
        WithoutKeepsNoDup(buckets[k], v);
        buckets[k] := Without(buckets[k], v);
        assert was[k] == old(buckets[k]);
      }
      assert buckets[..] == old(Value()).Unlinked(v).slots;
    }

    method Link(k: nat, v: VcId)
      requires Valid() && k < SLOTS && v in vcs && !Value().Queued(v)
      modifies buckets
      ensures Valid() && Value() == old(Value()).Linked(k, v)
    {
      ghost var was := buckets[..];
      buckets[k] := [v] + buckets[k];
      assert buckets[..] == was[k := [v] + was[k]];
    }

    method QueueCallback(v: VcId, hashed: nat)
      requires Valid() && v in vcs
      modifies this`vols, buckets
      ensures Valid() && Value() == old(Value()).Enqueued(v, hashed)
    {
      if vcs[v].volume in vols && vols[vcs[v].volume].expireTime < vcs[v].cbExpires {
        vols := vols[vcs[v].volume := vols[vcs[v].volume].(expireTime := vcs[v].cbExpires)];
      }
      if !exists k :: 0 <= k < SLOTS && v in buckets[k] {
        assert !Value().Queued(v);
        Link((hashed + base) % SLOTS, v);
      } else {
        assert Value().Queued(v);
      }
    }

    method DequeueCallback(v: VcId)
      requires Valid()
      modifies buckets
      ensures Valid() && Value() == old(Value()).Unlinked(v)
    {
      Unlink(v);
    }

    method MoveBase()
      requires Valid()
      modifies this`base, this`basetime, buckets
      ensures Valid() && Value() == old(Value()).BumpedOnce()
    {
      ghost var w := Value();
      assert w.Shaped() && w.base == base && w.slots[base] == buckets[base];
      AmpleIsGood(w);
      BumpOnceKeepsGood(w, Ample(w));
      BumpOnceKeepsDistinct(w);
      hide Known, InOneSlot, NoDup, NotLate;
      var oldbase := base;
      basetime := basetime + BASE_STEP;
      base := (base + 1) % SLOTS;
      if buckets[oldbase] != [] {
        buckets[base] := buckets[base] + buckets[oldbase];
        buckets[oldbase] := [];
      } else {
        assert w.slots[base] + w.slots[oldbase] == w.slots[base];
      }
      assert forall k | 0 <= k < SLOTS :: buckets[k] == w.BumpedOnce().slots[k];
    }

    method BumpBase(now: nat) returns (didbump: nat)
      requires Valid()
      modifies this`base, this`basetime, buckets
      ensures Valid() && Value() == old(Value()).Bumped(now)
      ensures basetime == old(basetime) + BASE_STEP * didbump
    {
      didbump := 0;
      while basetime + (SLOT_LENGTH - EARLY) <= now
        invariant Valid() && Value().Bumped(now) == old(Value()).Bumped(now)
        invariant basetime == old(basetime) + BASE_STEP * didbump
        decreases now - basetime
      {
        MoveBase();
        didbump := didbump + 1;
      }
    }

    method Judge(v: VcId, limit: nat)
      requires Valid() && v in vcs
      modifies this`vcs, buckets
      ensures Valid() && Value() == old(Value()).Judged(v, limit)
    {
      if vcs[v].cbExpires < limit {
        if vcs[v].readOnly && vcs[v].volume in vols {
          if vols[vcs[v].volume].expireTime > limit {
            vcs := vcs[v := vcs[v].(cbExpires := vols[vcs[v].volume].expireTime)];
          } else if vols[vcs[v].volume].serverUp {
            Invalidate(v);
          }
        } else {
          Invalidate(v);
        }
      }
    }

    method Invalidate(v: VcId)
      requires Valid() && v in vcs
      modifies this`vcs, buckets
      ensures Valid() && Value() == old(Value()).Invalidated(v)
    {
      Unlink(v);
      vcs := vcs[v := vcs[v].(statd := false)];
    }

    method Replace(v: VcId)
      requires Valid() && v in vcs
      modifies buckets
      ensures Valid() && Value() == old(Value()).Replaced(v)
    {
      ghost var w := Value();
      assert w.Shaped() && w.base == base && w.basetime == basetime && w.vcs == vcs;
      hide Valid, Value, Wheel.Shaped, Wheel.Unlinked, Wheel.Linked, Wheel.Queued, Hash;
      if vcs[v].cbExpires > basetime && Hash(vcs[v].cbExpires - basetime) != 0 {
        var slot := (Hash(vcs[v].cbExpires - basetime) + base) % SLOTS;
        OwnSlot(w, Hash(vcs[v].cbExpires - basetime));
        if slot != base {
          Unlink(v);
          QueuedAfterUnlink(w, v, v);
          Link(slot, v);
        }
      }
    }

    /** The loop body: judge the n-th vcache of the base queue, then put it where it belongs. */
    method Examine(n: nat, limit: nat)
      requires Valid() && n < |buckets[base]|
      modifies this`vcs, buckets
      ensures Valid() && Value() == old(Value()).Examined(old(buckets[base][n]), limit)
      ensures |buckets[base]| >= n && forall i | 0 <= i < n :: buckets[base][i] == old(buckets[base][i])
      ensures vcs.Keys == old(vcs.Keys)
    {
      var v := buckets[base][n];
      ghost var w := Value();
      assert w.slots[w.base] == buckets[base];
      Judge(v, limit);
      Replace(v);
      ExaminePrefix(w, v, limit, n);
      ExamineEffect(w, v, limit);
      assert Value().slots[base] == buckets[base];
    }

    /** The first n vcaches of the queue being walked are still in front, and all are known. */
    ghost predicate Remaining(q: seq<VcId>, n: nat)
      reads this, buckets
    {
      && Valid() && Value().Shaped() && base < buckets.Length && n <= |q| && n <= |buckets[base]|
      && (forall i | 0 <= i < n :: buckets[base][i] == q[i])
      && (forall v <- q :: v in Value().vcs)
    }

    /** What the rest of the walk will make of the table. */
    ghost function Rest(q: seq<VcId>, n: nat, end: nat, limit: nat): Wheel
      requires Remaining(q, n)
      reads this, buckets
    {
      Value().Walked(q, n, end, limit)
    }

    method ExamineNext(ghost q: seq<VcId>, n: nat, ghost end: nat, limit: nat)
      requires Remaining(q, n + 1) && end <= n
      modifies this`vcs, buckets
      ensures Remaining(q, n) && Rest(q, n, end, limit) == old(Rest(q, n + 1, end, limit))
    {
      hide NoDup, Known, InOneSlot, Wheel.Examined;
      Value().WalkedStep(q, n + 1, end, limit);
      Examine(n, limit);
    }

    lemma WholeQueueRemains(end: nat, limit: nat)
      requires Valid()
      ensures base < buckets.Length && Remaining(buckets[base], |buckets[base]|)
      ensures Value().Shaped() && forall v <- buckets[base] :: v in Value().vcs
      ensures Rest(buckets[base], |buckets[base]|, end, limit) == Value().Walked(buckets[base], |buckets[base]|, end, limit)
    {
      assert buckets[base] == Value().slots[base];
      assert forall v <- buckets[base] :: v in vcs;
    }

    lemma NothingRemains(q: seq<VcId>, n: nat, end: nat, limit: nat)
      requires Remaining(q, n) && n <= end
      ensures Valid() && Rest(q, n, end, limit) == Value()
    {
    }

    /** The walk from the tail of the base queue, at most `most` + 1 vcaches long. */
    method Walk(limit: nat, most: nat) returns (safety: nat)
      requires Valid()
      modifies this`vcs, buckets
      ensures Valid() && safety == (if |old(buckets[base])| <= most then |old(buckets[base])| else most + 1)
      ensures Value() == old(var q := buckets[base]; Value().Walked(q, |q|, if |q| <= most then 0 else |q| - most - 1, limit))
    {
      hide Valid, Value, Remaining, Rest, Wheel.Walked;
      WholeQueueRemains(0, limit);
      ghost var q := buckets[base];
      ghost var end: nat := if |q| <= most then 0 else |q| - most - 1;
      WholeQueueRemains(end, limit);
      ghost var result := Rest(q, |q|, end, limit);
      var todo: nat := |buckets[base]|;
      safety := 0;
      while safety <= most && todo > 0
        invariant Remaining(q, todo) && end <= todo && safety == |q| - todo
        invariant Rest(q, todo, end, limit) == result
        decreases todo
      {
        todo := todo - 1;
        ExamineNext(q, todo, end, limit);
        safety := safety + 1;
      }
      NothingRemains(q, todo, end, limit);
    }

    /** `most` stands for the sanity limit; `later` is the clock when the walk gave up. */
    method CheckCallbacks(now: nat, secs: nat, most: nat, later: nat)
      requires Valid()
      modifies this, buckets
      ensures Valid() && Value() == old(Value()).Checked(now + secs, most, later)
    {
      assert buckets[base] == Value().slots[base];
      var safety := Walk(now + secs, most);
      if safety > most {
        FlushCBs(later);
      }
    }

    method FlushCBs(now: nat)
      requires Value().Shaped()
      modifies this, buckets
      ensures Valid() && Value() == old(Value()).Flushed(now)
    {
      vcs := map v | v in vcs :: vcs[v].(statd := false);
      var i := 0;
      while i < SLOTS
        invariant i <= SLOTS && Value().Shaped() && vols == old(vols)
        invariant vcs == map v | v in old(vcs) :: old(vcs)[v].(statd := false)
        invariant forall k | 0 <= k < i :: buckets[k] == []
      {
        buckets[i] := [];
        i := i + 1;
      }
      base, basetime := 0, now;
      assert buckets[..] == seq(SLOTS, _ => []);
    }
  }

  // ---------------------------------------------------------------- the wheel's invariant

  /** How many slots ahead of the base slot k is. */
  function Distance(base: nat, k: nat): nat { (k - base) % SLOTS }

  ghost predicate Known(w: Wheel) {
    forall k, v :: 0 <= k < |w.slots| && v in w.slots[k] ==> v in w.vcs
  }

  ghost predicate InOneSlot(w: Wheel) {
    forall j, k, v :: 0 <= j < |w.slots| && 0 <= k < |w.slots| && v in w.slots[j] && v in w.slots[k] ==> j == k
  }

  /** No vcache lies in a slot later than it expires, up to `slack` seconds. */
  ghost predicate NotLate(w: Wheel, slack: nat)
    requires w.Shaped()
  {
    forall k, v :: 0 <= k < SLOTS && k != w.base && v in w.slots[k] && v in w.vcs ==>
      w.vcs[v].cbExpires + slack >= w.basetime + BASE_STEP * Distance(w.base, k)
  }

  /** Queues hold vcaches that are known, each in one slot at most. */
  ghost predicate Ordered(w: Wheel) { w.Shaped() && Known(w) && InOneSlot(w) }

  ghost predicate Good(w: Wheel, slack: nat) { Ordered(w) && NotLate(w, slack) }

  /** So much slack makes nothing late: it stands for no bound at all. */
  ghost function Ample(w: Wheel): nat { w.basetime + BASE_STEP * SLOTS }

  lemma AmpleIsGood(w: Wheel)
    requires Ordered(w)
    ensures Good(w, Ample(w))
  {
    hide Known, InOneSlot;
    assert forall k :: Distance(w.base, k) < SLOTS;
  }

  /** A vcache that expires then outlives the slot it is put in, up to `slack` seconds. */
  ghost predicate Outlives(w: Wheel, expires: nat, hashed: nat, slack: nat) {
    hashed % SLOTS == 0 || expires + slack >= w.basetime + BASE_STEP * (hashed % SLOTS)
  }

  lemma LinkKeepsGood(w: Wheel, v: VcId, hashed: nat, slack: nat)
    requires Good(w, slack) && v in w.vcs && !w.Queued(v)
    requires Outlives(w, w.vcs[v].cbExpires, hashed, slack)
    ensures Good(w.Linked((hashed + w.base) % SLOTS, v), slack)
  {
    OwnDistance(w.base, hashed);
    hide Distance;
  }

  lemma OwnDistance(base: nat, hashed: nat)
    requires base < SLOTS
    ensures Distance(base, (hashed + base) % SLOTS) == hashed % SLOTS
    ensures (hashed + base) % SLOTS == base <==> hashed % SLOTS == 0
  {
  }

  lemma UnlinkKeepsGood(w: Wheel, v: VcId, slack: nat)
    requires Good(w, slack)
    ensures Good(w.Unlinked(v), slack) && !w.Unlinked(v).Queued(v)
  {
  }

  /** A vcache already queued stays where it is when its promise is renewed. */
  lemma RenewKeepsGood(w: Wheel, v: VcId, vc: Vcache, slack: nat)
    requires Good(w, slack)
    requires v in w.vcs && w.Queued(v) ==> vc.cbExpires >= w.vcs[v].cbExpires
    ensures Good(w.WithVcache(v, vc), slack)
  {
    var w' := w.WithVcache(v, vc);
    forall k, u | 0 <= k < SLOTS && k != w.base && u in w'.slots[k] && u in w'.vcs
      ensures w'.vcs[u].cbExpires + slack >= w'.basetime + BASE_STEP * Distance(w'.base, k)
    {
      if u == v {
        assert w.Queued(v);
      }
    }
  }

  lemma EnqueueKeepsGood(w: Wheel, v: VcId, hashed: nat, slack: nat)
    requires Good(w, slack) && v in w.vcs
    requires !w.Queued(v) ==> Outlives(w, w.vcs[v].cbExpires, hashed, slack)
    ensures Good(w.Enqueued(v, hashed), slack)
    ensures w.Enqueued(v, hashed).Queued(v)
  {
    var w1 := if w.vcs[v].volume in w.vols && w.vols[w.vcs[v].volume].expireTime < w.vcs[v].cbExpires
              then w.(vols := w.vols[w.vcs[v].volume := w.vols[w.vcs[v].volume].(expireTime := w.vcs[v].cbExpires)])
              else w;
    assert w1.Queued(v) == w.Queued(v);
    if !w1.Queued(v) {
      LinkKeepsGood(w1, v, hashed, slack);
      assert v in w.Enqueued(v, hashed).slots[(hashed + w.base) % SLOTS];
    }
  }

  /** What a promise adds: a vcache not queued yet is put `hashed` slots past the base, one that is
      queued stays where it is, and its volume is good for at least as long. */
  lemma EnqueueEffect(w: Wheel, v: VcId, hashed: nat)
    requires w.Shaped() && v in w.vcs
    ensures var w' := w.Enqueued(v, hashed);
            && w'.Shaped() && w'.base == w.base && w'.basetime == w.basetime && w'.vcs == w.vcs
            && (w.Queued(v) ==> w'.slots == w.slots)
            && (!w.Queued(v) ==> forall k, u | 0 <= k < SLOTS ::
                  u in w'.slots[k] <==> u in w.slots[k] || (u == v && Distance(w.base, k) == hashed % SLOTS))
            && w'.vols.Keys == w.vols.Keys
            && (forall o | o in w.vols :: w'.vols[o].serverUp == w.vols[o].serverUp && w'.vols[o].expireTime ==
                  if o == w.vcs[v].volume && w.vcs[v].cbExpires > w.vols[o].expireTime
                  then w.vcs[v].cbExpires else w.vols[o].expireTime)
  {
    OwnDistance(w.base, hashed);
    assert forall k | 0 <= k < SLOTS :: Distance(w.base, k) == hashed % SLOTS <==> k == (hashed + w.base) % SLOTS;
    var raised := w.(vols := w.Enqueued(v, hashed).vols);
    SameSlots(w, raised);
  }

  /** One move of the base: the base time runs one second slow, so everything keeps its
      distance bound, and the old base queue goes to the end of the new one. */
  lemma BumpOnceKeepsGood(w: Wheel, slack: nat)
    requires Good(w, slack)
    ensures Good(w.BumpedOnce(), slack)
  {
    var w' := w.BumpedOnce();
    hide Distance;
    forall k, v | 0 <= k < SLOTS && k != w'.base && v in w'.slots[k] && v in w'.vcs
      ensures w'.vcs[v].cbExpires + slack >= w'.basetime + BASE_STEP * Distance(w'.base, k)
    {
      DistanceFalls(w.base, k);
      assert v in w.slots[k] && k != w.base;
    }
  }

  lemma BumpOnceKeepsDistinct(w: Wheel)
    requires Ordered(w) && forall k | 0 <= k < SLOTS :: NoDup(w.slots[k])
    ensures forall k | 0 <= k < SLOTS :: NoDup(w.BumpedOnce().slots[k])
  {
    var next := (w.base + 1) % SLOTS;
    assert forall v <- w.slots[next] :: v !in w.slots[w.base];
    ConcatNoDup(w.slots[next], w.slots[w.base]);
  }

  lemma DistanceFalls(base: nat, k: nat)
    requires base < SLOTS && k < SLOTS && k != base
    ensures Distance((base + 1) % SLOTS, k) == Distance(base, k) - 1
  {
  }

  lemma {:induction false} BumpKeepsGood(w: Wheel, now: nat, slack: nat)
    requires Good(w, slack)
    ensures Good(w.Bumped(now), slack)
    ensures now < w.Bumped(now).basetime + (SLOT_LENGTH - EARLY)
    ensures w.Bumped(now).vcs == w.vcs && w.Bumped(now).vols == w.vols
    ensures w.Bumped(now).basetime <= if w.basetime >= now then w.basetime else now + (EARLY - 1)
    ensures forall v :: w.Bumped(now).Queued(v) <==> w.Queued(v)
    decreases if now >= w.basetime then now - w.basetime else 0
  {
    if w.basetime + (SLOT_LENGTH - EARLY) <= now {
      BumpOnceKeepsGood(w, slack);
      BumpOnceKeepsQueued(w);
      BumpKeepsGood(w.BumpedOnce(), now, slack);
    }
  }

  lemma BumpOnceKeepsQueued(w: Wheel)
    requires w.Shaped()
    ensures forall v :: w.BumpedOnce().Queued(v) <==> w.Queued(v)
  {
    var w' := w.BumpedOnce();
    forall v | w.Queued(v) ensures w'.Queued(v) {
      var k :| 0 <= k < |w.slots| && v in w.slots[k];
      assert v in w'.slots[if k == w.base then w'.base else k];
    }
    forall v | w'.Queued(v) ensures w.Queued(v) {
      var k :| 0 <= k < |w'.slots| && v in w'.slots[k];
      assert v in w.slots[k] || v in w.slots[w.base];
    }
  }

  // ---------------------------------------------------------------- the expiry check

  lemma JudgeKeepsGood(w: Wheel, v: VcId, limit: nat, slack: nat)
    requires Good(w, slack) && v in w.vcs
    ensures Good(w.Judged(v, limit), slack)
  {
    var vc := w.vcs[v];
    UnlinkKeepsGood(w, v, slack);
    RenewKeepsGood(w.Unlinked(v), v, vc.(statd := false), slack);
    if vc.volume in w.vols && w.vols[vc.volume].expireTime >= vc.cbExpires {
      RenewKeepsGood(w, v, vc.(cbExpires := w.vols[vc.volume].expireTime), slack);
    }
  }

  lemma ReplaceKeepsGood(w: Wheel, v: VcId, slack: nat)
    requires Good(w, slack) && v in w.vcs
    ensures Good(w.Replaced(v), slack)
  {
    if w.Misplaced(v) {
      UnlinkKeepsGood(w, v, slack);
      LinkKeepsGood(w.Unlinked(v), v, Hash(w.vcs[v].cbExpires - w.basetime), slack);
    }
  }

  lemma ExamineKeepsGood(w: Wheel, v: VcId, limit: nat, slack: nat)
    requires Good(w, slack) && v in w.vcs
    ensures Good(w.Examined(v, limit), slack)
  {
    JudgeKeepsGood(w, v, limit, slack);
    ReplaceKeepsGood(w.Judged(v, limit), v, slack);
  }

  /** What the examination of v leaves of v, and that it leaves every other vcache alone. */
  lemma ExamineEffect(w: Wheel, v: VcId, limit: nat)
    requires w.Shaped() && v in w.vcs
    ensures var w' := w.Examined(v, limit);
            && w'.Shaped() && w'.base == w.base && w'.basetime == w.basetime
            && w'.vols == w.vols && w'.vcs.Keys == w.vcs.Keys
            && (forall u | u in w.vcs && u != v :: w'.vcs[u] == w.vcs[u])
            && (forall k, u | 0 <= k < SLOTS && u != v :: u in w'.slots[k] <==> u in w.slots[k])
            && (v in w'.slots[w.base] ==>
                  v in w.slots[w.base] && (w'.vcs[v].cbExpires >= limit || w'.Exempt(v, limit)))
  {
    JudgedEffect(w, v, limit);
    ReplacedEffect(w.Judged(v, limit), v);
    hide Wheel.Judged, Wheel.Replaced;
  }

  lemma JudgedEffect(w: Wheel, v: VcId, limit: nat)
    requires w.Shaped() && v in w.vcs
    ensures var w' := w.Judged(v, limit);
            && w'.Shaped() && w'.base == w.base && w'.basetime == w.basetime
            && w'.vols == w.vols && w'.vcs.Keys == w.vcs.Keys
            && (forall u | u in w.vcs && u != v :: w'.vcs[u] == w.vcs[u])
            && (forall k, u | 0 <= k < SLOTS && u != v :: u in w'.slots[k] <==> u in w.slots[k])
            && (v in w'.slots[w.base] ==>
                  v in w.slots[w.base] && (w'.vcs[v].cbExpires >= limit || w'.Exempt(v, limit)))
  {
  }

  lemma ReplacedEffect(w: Wheel, v: VcId)
    requires w.Shaped() && v in w.vcs
    ensures var w' := w.Replaced(v);
            && w'.Shaped() && w' == w.(slots := w'.slots)
            && (forall k, u | 0 <= k < SLOTS && u != v :: u in w'.slots[k] <==> u in w.slots[k])
            && (v in w'.slots[w.base] ==> v in w.slots[w.base])
  {
  }

  /** Nothing is added to the base slot, and the part before the examined vcache stays. */
  lemma ExaminePrefix(w: Wheel, v: VcId, limit: nat, n: nat)
    requires w.Shaped() && v in w.vcs && n < |w.slots[w.base]| && w.slots[w.base][n] == v
    requires NoDup(w.slots[w.base])
    ensures var w' := w.Examined(v, limit);
            && |w'.slots[w'.base]| >= n
            && forall i | 0 <= i < n :: w'.slots[w'.base][i] == w.slots[w.base][i]
  {
    WithoutPrefix(w.slots[w.base], n);
    var w1 := w.Judged(v, limit);
    assert w1.slots[w.base] == w.slots[w.base] || w1.slots[w.base] == Without(w.slots[w.base], v);
    assert Without(Without(w.slots[w.base], v), v) == Without(w.slots[w.base], v);
    var w2 := w1.Replaced(v);
    assert w2.slots[w.base] == w1.slots[w.base] || w2.slots[w.base] == Without(w1.slots[w.base], v);
  }

  lemma {:induction false} WalkKeepsGood(w: Wheel, q: seq<VcId>, n: nat, end: nat, limit: nat, slack: nat)
    requires Good(w, slack) && n <= |q| && forall v <- q :: v in w.vcs
    ensures Good(w.Walked(q, n, end, limit), slack)
    decreases n
  {
    if n > end {
      ExamineKeepsGood(w, q[n - 1], limit, slack);
      ExamineEffect(w, q[n - 1], limit);
      WalkKeepsGood(w.Examined(q[n - 1], limit), q, n - 1, end, limit, slack);
    }
  }

  lemma {:induction false} WalkEffect(w: Wheel, q: seq<VcId>, n: nat, limit: nat)
    requires w.Shaped() && n <= |q| && forall v <- q :: v in w.vcs
    ensures var w' := w.Walked(q, n, 0, limit);
            && w'.Shaped() && w'.base == w.base && w'.basetime == w.basetime
            && w'.vols == w.vols && w'.vcs.Keys == w.vcs.Keys
            && (forall u | u in w.vcs && u !in q[..n] :: w'.vcs[u] == w.vcs[u])
            && (forall k, u | 0 <= k < SLOTS && u !in q[..n] :: u in w'.slots[k] <==> u in w.slots[k])
            && (forall v | v in q[..n] && v in w'.slots[w.base] ::
                  v in w.slots[w.base] && v in w'.vcs && (w'.vcs[v].cbExpires >= limit || w'.Exempt(v, limit)))
    decreases n
  {
    hide Wheel.Examined;
    if n > 0 {
      ExamineEffect(w, q[n - 1], limit);
      WalkEffect(w.Examined(q[n - 1], limit), q, n - 1, limit);
      assert q[..n] == q[..n - 1] + [q[n - 1]];
    }
  }

  lemma GoodAhead(w: Wheel, slack: nat, k: nat, v: VcId)
    requires Good(w, slack) && k < SLOTS && k != w.base && v in w.slots[k]
    ensures v in w.vcs && w.vcs[v].cbExpires + slack >= w.basetime + BASE_STEP
  {
    assert Distance(w.base, k) >= 1;
  }

  /** After the check every vcache still queued is safe past `limit`, is one of the read-only
      ones kept because no server is up, or lies at least one slot ahead of the base. */
  lemma CheckMargin(w: Wheel, limit: nat, most: nat, now: nat, slack: nat, v: VcId)
    requires Good(w, slack)
    requires w.Checked(limit, most, now).Queued(v)
    ensures var w' := w.Checked(limit, most, now);
            && v in w'.vcs
            && (w'.vcs[v].cbExpires >= limit || w'.Exempt(v, limit) ||
                w'.vcs[v].cbExpires + slack >= w.basetime + BASE_STEP)
  {
    var q := w.slots[w.base];
    if |q| > most {
      assert false;
    } else {
      WalkMargin(w, limit, slack, v);
    }
  }

  lemma WalkMargin(w: Wheel, limit: nat, slack: nat, v: VcId)
    requires Good(w, slack) && w.Walked(w.slots[w.base], |w.slots[w.base]|, 0, limit).Queued(v)
    ensures var w' := w.Walked(w.slots[w.base], |w.slots[w.base]|, 0, limit);
            && v in w'.vcs
            && (w'.vcs[v].cbExpires >= limit || w'.Exempt(v, limit) ||
                w'.vcs[v].cbExpires + slack >= w.basetime + BASE_STEP)
  {
    var q := w.slots[w.base];
    WalkKeepsGood(w, q, |q|, 0, limit, slack);
    WalkEffect(w, q, |q|, limit);
    assert q[..|q|] == q;
    var w' := w.Walked(q, |q|, 0, limit);
    var k :| 0 <= k < |w'.slots| && v in w'.slots[k];
    if k != w'.base {
      GoodAhead(w', slack, k, v);
    }
  }

  // ---------------------------------------------------------------- trusted means queued

  /** Anything with a callback on it is in the expiry queue.  What was made locally is trusted without
      a callback. */
  ghost predicate Tracked(w: Wheel, local: set<VcId>) {
    forall v :: v in w.vcs && w.vcs[v].statd && v !in local ==> w.Queued(v)
  }

  lemma OwnSlot(w: Wheel, hashed: nat)
    requires w.Shaped()
    ensures (hashed + w.base) % SLOTS == w.base <==> hashed % SLOTS == 0
    ensures (hashed + w.base) % SLOTS < SLOTS
  {
  }

  lemma QueuedAfterUnlink(w: Wheel, v: VcId, u: VcId)
    requires w.Shaped()
    ensures w.Unlinked(v).Queued(u) <==> w.Queued(u) && u != v
  {
    var w' := w.Unlinked(v);
    if w.Queued(u) && u != v {
      var k :| 0 <= k < |w.slots| && u in w.slots[k];
      assert u in w'.slots[k];
    }
    if w'.Queued(u) {
      var k :| 0 <= k < |w'.slots| && u in w'.slots[k];
      assert u in w.slots[k];
    }
  }

  lemma QueuedAfterLink(w: Wheel, k: nat, v: VcId, u: VcId)
    requires w.Shaped() && k < SLOTS
    ensures w.Linked(k, v).Queued(u) <==> w.Queued(u) || u == v
  {
    var w' := w.Linked(k, v);
    assert v in w'.slots[k];
    if w.Queued(u) {
      var j :| 0 <= j < |w.slots| && u in w.slots[j];
      assert u in w'.slots[j];
    }
    if w'.Queued(u) && u != v {
      var j :| 0 <= j < |w'.slots| && u in w'.slots[j];
      assert u in w.slots[j];
    }
  }

  lemma SameSlots(w: Wheel, w': Wheel)
    requires w.slots == w'.slots
    ensures forall u :: w'.Queued(u) <==> w.Queued(u)
  {
    forall u ensures w'.Queued(u) <==> w.Queued(u) {
      if w.Queued(u) {
        var k :| 0 <= k < |w.slots| && u in w.slots[k];
        assert u in w'.slots[k];
      }
      if w'.Queued(u) {
        var k :| 0 <= k < |w'.slots| && u in w'.slots[k];
        assert u in w.slots[k];
      }
    }
  }

  lemma QueuedAfterJudge(w: Wheel, v: VcId, limit: nat, u: VcId)
    requires w.Shaped() && v in w.vcs
    ensures var w1 := w.Judged(v, limit);
            && w1.Shaped() && v in w1.vcs
            && w1.Queued(u) == (w.Queued(u) && (u == v ==> w1 != w.Invalidated(v)))
  {
    var w1 := w.Judged(v, limit);
    QueuedAfterUnlink(w, v, u);
    if w1 == w.Invalidated(v) {
      SameSlots(w.Unlinked(v), w1);
    } else {
      SameSlots(w, w1);
    }
  }

  lemma QueuedAfterReplace(w: Wheel, v: VcId, u: VcId)
    requires w.Shaped() && v in w.vcs
    ensures w.Replaced(v).Queued(u) == (w.Queued(u) || (u == v && w.Misplaced(v)))
  {
    hide Wheel.Queued;
    if w.Misplaced(v) {
      QueuedAfterUnlink(w, v, u);
      QueuedAfterLink(w.Unlinked(v), (Hash(w.vcs[v].cbExpires - w.basetime) + w.base) % SLOTS, v, u);
    }
  }

  lemma QueuedAfterExamine(w: Wheel, v: VcId, limit: nat, u: VcId)
    requires w.Shaped() && v in w.vcs
    ensures var w' := w.Examined(v, limit);
            if u != v then w'.Queued(u) == w.Queued(u)
            else w'.Queued(v) == (w.Judged(v, limit).Misplaced(v) ||
                                  (w.Queued(v) && w.Judged(v, limit) != w.Invalidated(v)))
  {
    hide Wheel.Queued, Wheel.Judged, Wheel.Replaced, Wheel.Misplaced, Wheel.Invalidated;
    QueuedAfterJudge(w, v, limit, u);
    QueuedAfterReplace(w.Judged(v, limit), v, u);
  }

  /** The examination takes a vcache out of the queue only when it stops trusting it. */
  lemma ExamineKeepsTracked(w: Wheel, v: VcId, limit: nat, local: set<VcId>)
    requires w.Shaped() && v in w.vcs && Tracked(w, local)
    ensures Tracked(w.Examined(v, limit), local)
  {
    var w' := w.Examined(v, limit);
    forall u | u in w'.vcs && w'.vcs[u].statd && u !in local ensures w'.Queued(u) {
      QueuedAfterExamine(w, v, limit, u);
    }
  }

  lemma {:induction false} WalkKeepsTracked(w: Wheel, q: seq<VcId>, n: nat, end: nat, limit: nat, local: set<VcId>)
    requires w.Shaped() && Tracked(w, local) && n <= |q| && forall v <- q :: v in w.vcs
    ensures Tracked(w.Walked(q, n, end, limit), local)
    decreases n
  {
    if n > end {
      ExamineKeepsTracked(w, q[n - 1], limit, local);
      ExamineEffect(w, q[n - 1], limit);
      WalkKeepsTracked(w.Examined(q[n - 1], limit), q, n - 1, end, limit, local);
    }
  }

  // ---------------------------------------------------------------- what the check keeps

  /** The promise of its volume reaches past `limit`, so a read-only vcache lives on with it. */
  ghost predicate Renewable(w: Wheel, v: VcId, limit: nat)
    requires v in w.vcs
  {
    w.vcs[v].readOnly && w.vcs[v].volume in w.vols && w.vols[w.vcs[v].volume].expireTime > limit
  }

  /** Nothing asks for v to be dropped: its promise is long enough, its volume's is, or it is
      read-only and no server is up to renew it. */
  ghost predicate Kept(w: Wheel, v: VcId, limit: nat)
    requires v in w.vcs
  {
    w.vcs[v].cbExpires >= limit || Renewable(w, v, limit) || w.Exempt(v, limit)
  }

  /** The slot that the expiry time of v asks for; what has expired belongs in the base slot. */
  ghost function Place(w: Wheel, v: VcId): nat
    requires v in w.vcs
  {
    if w.vcs[v].cbExpires > w.basetime then (w.base + Hash(w.vcs[v].cbExpires - w.basetime)) % SLOTS else w.base
  }

  /** What becomes of a vcache of the base slot: kept ones stay trusted and lie where they belong,
      the others lose the status bit, and their place when that is the base slot. */
  ghost predicate Sifted(w: Wheel, w': Wheel, v: VcId, limit: nat)
    requires w'.Shaped() && v in w.vcs && v in w'.vcs
  {
    var vc := w.vcs[v];
    if Kept(w, v, limit) then
      && w'.vcs[v] == (if vc.cbExpires < limit && Renewable(w, v, limit)
                       then vc.(cbExpires := w.vols[vc.volume].expireTime) else vc)
      && forall k | 0 <= k < SLOTS :: v in w'.slots[k] <==> k == Place(w', v)
    else
      && w'.vcs[v] == vc.(statd := false)
      && forall k | 0 <= k < SLOTS :: v in w'.slots[k] <==> k == Place(w', v) && k != w'.base
  }

  lemma JudgeSifts(w: Wheel, v: VcId, limit: nat)
    requires Ordered(w) && v in w.slots[w.base]
    ensures v in w.vcs && w.Judged(v, limit) ==
            if !Kept(w, v, limit) then w.Invalidated(v)
            else if w.vcs[v].cbExpires < limit && Renewable(w, v, limit)
            then w.WithVcache(v, w.vcs[v].(cbExpires := w.vols[w.vcs[v].volume].expireTime))
            else w
  {
    hide Wheel.Invalidated, InOneSlot;
  }

  lemma ReplaceSifts(w: Wheel, v: VcId)
    requires w.Shaped() && v in w.vcs && forall k | 0 <= k < SLOTS && k != w.base :: v !in w.slots[k]
    ensures var w' := w.Replaced(v);
            && w'.Shaped() && w'.base == w.base && w'.basetime == w.basetime && w'.vcs == w.vcs
            && forall k | 0 <= k < SLOTS :: v in w'.slots[k] <==>
                 k == Place(w, v) && (v in w.slots[w.base] || k != w.base)
  {
    assert w.Misplaced(v) <==> Place(w, v) != w.base;
  }

  lemma ExamineSifts(w: Wheel, v: VcId, limit: nat)
    requires Ordered(w) && v in w.slots[w.base]
    ensures v in w.vcs && w.Examined(v, limit).Shaped() && v in w.Examined(v, limit).vcs
    ensures Sifted(w, w.Examined(v, limit), v, limit)
  {
    hide Hash, Wheel.Replaced, Wheel.Judged, Kept;
    JudgeSifts(w, v, limit);
    ReplaceSifts(w.Judged(v, limit), v);
  }

  lemma SiftedElsewhere(w: Wheel, w1: Wheel, w2: Wheel, w': Wheel, v: VcId, limit: nat)
    requires w.Shaped() && w1.Shaped() && w2.Shaped() && w'.Shaped()
    requires v in w.vcs && v in w1.vcs && v in w2.vcs && v in w'.vcs
    requires w1.vols == w.vols && w1.vcs[v] == w.vcs[v]
    requires w'.base == w2.base && w'.basetime == w2.basetime && w'.vcs[v] == w2.vcs[v]
    requires forall k | 0 <= k < SLOTS :: v in w'.slots[k] <==> v in w2.slots[k]
    requires Sifted(w1, w2, v, limit)
    ensures Sifted(w, w', v, limit)
  {
    hide Hash;
  }

  lemma {:induction false} WalkSifts(w: Wheel, q: seq<VcId>, n: nat, limit: nat, i: nat)
    requires Ordered(w) && i < n <= |q| && NoDup(q) && (forall v <- q :: v in w.vcs)
    requires q[i] in w.slots[w.base]
    ensures w.Walked(q, n, 0, limit).Shaped() && q[i] in w.Walked(q, n, 0, limit).vcs
    ensures Sifted(w, w.Walked(q, n, 0, limit), q[i], limit)
    decreases n
  {
    hide Wheel.Examined, Sifted, Wheel.Walked, Ordered, NoDup;
    var v := q[i];
    OrderedShape(w);
    var w1 := w.Examined(q[n - 1], limit);
    w.WalkedStep(q, n, 0, limit);
    ExamineEffect(w, q[n - 1], limit);
    WalkEffect(w1, q, n - 1, limit);
    var w' := w.Walked(q, n, 0, limit);
    if i == n - 1 {
      ExamineSifts(w, v, limit);
      LastIsNotBefore(q, n - 1);
      SiftedElsewhere(w, w, w1, w', v, limit);
    } else {
      ExamineKeepsOrdered(w, q[n - 1], limit);
      LastIsNotBefore(q, n - 1);
      assert q[i] in q[..n - 1];
      WalkSifts(w1, q, n - 1, limit, i);
      SiftedElsewhere(w, w1, w', w', v, limit);
    }
  }

  lemma OrderedShape(w: Wheel)
    requires Ordered(w)
    ensures w.Shaped() && Known(w) && InOneSlot(w)
  {
  }

  lemma LastIsNotBefore(q: seq<VcId>, n: nat)
    requires NoDup(q) && n < |q|
    ensures q[n] !in q[..n]
  {
  }

  lemma ExamineKeepsOrdered(w: Wheel, v: VcId, limit: nat)
    requires Ordered(w) && v in w.vcs
    ensures Ordered(w.Examined(v, limit))
  {
    AmpleIsGood(w);
    ExamineKeepsGood(w, v, limit, Ample(w));
  }

  /** What the check does to every vcache, as long as it stays within its sanity limit: those of the
      base slot are sifted, and nothing else changes. */
  lemma CheckSifts(w: Wheel, limit: nat, most: nat, now: nat)
    requires Ordered(w) && NoDup(w.slots[w.base]) && |w.slots[w.base]| <= most
    ensures var w' := w.Checked(limit, most, now);
            && w'.Shaped() && w'.base == w.base && w'.basetime == w.basetime
            && w'.vols == w.vols && w'.vcs.Keys == w.vcs.Keys
            && (forall v <- w.slots[w.base] :: v in w.vcs && Sifted(w, w', v, limit))
            && (forall u | u in w.vcs && u !in w.slots[w.base] :: w'.vcs[u] == w.vcs[u])
            && (forall k, u | 0 <= k < SLOTS && u !in w.slots[w.base] :: u in w'.slots[k] <==> u in w.slots[k])
  {
    var q := w.slots[w.base];
    hide Wheel.Walked, Wheel.Flushed, Sifted, NoDup;
    WalkEffect(w, q, |q|, limit);
    assert q[..|q|] == q;
    forall v <- q ensures v in w.vcs && v in w.Walked(q, |q|, 0, limit).vcs && Sifted(w, w.Walked(q, |q|, 0, limit), v, limit) {
      var i :| 0 <= i < |q| && q[i] == v;
      WalkSifts(w, q, |q|, limit, i);
    }
  }

  /** Past the limit everything goes: no vcache is trusted or queued any more. */
  lemma CheckGivesUp(w: Wheel, limit: nat, most: nat, now: nat)
    requires Ordered(w) && |w.slots[w.base]| > most
    ensures var w' := w.Checked(limit, most, now);
            && w'.basetime == now && w'.vcs.Keys == w.vcs.Keys
            && forall v :: !w'.Queued(v) && (v in w'.vcs ==> !w'.vcs[v].statd)
  {
    var q := w.slots[w.base];
    AmpleIsGood(w);
    WalkKeys(w, q, |q|, |q| - most - 1, limit);
  }

  lemma {:induction false} WalkKeys(w: Wheel, q: seq<VcId>, n: nat, end: nat, limit: nat)
    requires w.Shaped() && n <= |q| && forall v <- q :: v in w.vcs
    ensures w.Walked(q, n, end, limit).vcs.Keys == w.vcs.Keys
    decreases n
  {
    if n > end {
      ExamineEffect(w, q[n - 1], limit);
      WalkKeys(w.Examined(q[n - 1], limit), q, n - 1, end, limit);
    }
  }

  // ------------------------------------------------- an untrusted vcache must leave the queue

  /** The rule the table is built on: whoever clears the status bit takes the vcache out of the
      queue, so a later, shorter promise cannot hide behind an earlier slot. */
  ghost predicate LeavesWhenDropped(w: Wheel, v: VcId, limit: nat)
    requires w.Shaped() && v in w.vcs
  {
    var w' := w.Examined(v, limit);
    w.vcs[v].statd && !w'.vcs[v].statd ==> !w'.Queued(v)
  }

  /** The check breaks that rule: after dropping a vcache it still runs the test for a misplaced
      one, and puts it back when it expires a whole slot or more after the base time. */
  lemma DroppedButRequeued(w: Wheel, v: VcId, limit: nat)
    requires w.Shaped() && v in w.vcs && w.vcs[v].statd
    ensures !LeavesWhenDropped(w, v, limit) <==>
            w.Judged(v, limit) == w.Invalidated(v) && w.Misplaced(v)
  {
    QueuedAfterExamine(w, v, limit, v);
    assert !w.Invalidated(v).vcs[v].statd;
    assert w.Judged(v, limit) != w.Invalidated(v) ==> w.Examined(v, limit).vcs[v].statd;
  }

  lemma SafeWithinFirstSlot(w: Wheel, v: VcId, limit: nat)
    requires w.Shaped() && v in w.vcs && limit <= w.basetime + SLOT_LENGTH
    ensures LeavesWhenDropped(w, v, limit)
  {
    if w.vcs[v].statd {
      DroppedButRequeued(w, v, limit);
    }
  }

  /** What a check meets: a table in order, and a vcache of its base slot. */
  ghost predicate Meets(w: Wheel, v: VcId) {
    Good(w, 0) && Tracked(w, {}) && v in w.slots[w.base]
  }

  /** One trusted vcache, in the base slot with a whole slot's length to go. */
  ghost function Overdue(basetime: nat): Wheel {
    Wheel(0, basetime, [[0]] + seq(SLOTS - 1, _ => []), map[0 := Vcache(basetime + SLOT_LENGTH, true, false, 0)], map[])
  }

  lemma UnsafeBeyondFirstSlot(basetime: nat, limit: nat)
    requires limit > basetime + SLOT_LENGTH
    ensures Meets(Overdue(basetime), 0) && !LeavesWhenDropped(Overdue(basetime), 0, limit)
  {
    var w := Overdue(basetime);
    assert 0 in w.slots[0];
    assert w.Judged(0, limit) == w.Invalidated(0);
    assert w.Misplaced(0);
    DroppedButRequeued(w, 0, limit);
  }

  /** Exactly when the rule is safe: for every table in order with this base time, and everything the
      check can meet in it, the rule holds if and only if the check looks no further ahead than the
      first slot. */
  lemma RuleHoldsExactlyWithinFirstSlot(basetime: nat, limit: nat)
    ensures (forall w: Wheel, v :: Meets(w, v) && w.basetime == basetime ==> LeavesWhenDropped(w, v, limit))
            <==> limit <= basetime + SLOT_LENGTH
  {
    if limit > basetime + SLOT_LENGTH {
      UnsafeBeyondFirstSlot(basetime, limit);
    } else {
      forall w: Wheel, v | Meets(w, v) && w.basetime == basetime
        ensures LeavesWhenDropped(w, v, limit)
      {
        SafeWithinFirstSlot(w, v, limit);
      }
    }
  }
}
