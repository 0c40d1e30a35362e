/** Runs of the callback wheel: promises come and go, the daemon moves the base and checks, and what
    the table keeps of it all.

    A promise is filed as it is given to the table: the second it ends, and the hashed time that
    picks its slot.  How the two belong together is up to the caller, and decides how far a vcache
    can be trusted past its promise. */
module CallbackRuns {
  import opened CallbackWheel

  datatype Event =
    | Grant(vc: VcId, expires: nat, hashed: nat) // the server's promise
    | Vouch(vc: VcId, expires: nat)              // trusted without one: made locally
    | Break(vc: VcId)                            // the promise is revoked, or the status is reset
    | Learn(vc: VcId, info: Vcache)              // a new vcache, without status
    | Volumes(table: map<VolId, Volume>)         // servers go up and down, volumes come and go
    | Bump
    | Check(ahead: nat, most: nat)
    | FlushAll

  /** `local`: the vcaches last vouched for, and not promised or dropped by name since. */
  datatype Moment = Moment(wheel: Wheel, clock: nat, local: set<VcId>)

  function Granted(w: Wheel, v: VcId, expires: nat, hashed: nat): Wheel
    requires w.Shaped() && v in w.vcs
  {
    w.WithVcache(v, w.vcs[v].(cbExpires := expires, statd := true)).Enqueued(v, hashed)
  }

  function Broken(w: Wheel, v: VcId): Wheel
    requires v in w.vcs
  {
    w.Unlinked(v).WithVcache(v, w.vcs[v].(statd := false))
  }

  /** The clock never runs backwards, and a promise for a queued vcache never shrinks. */
  ghost predicate Allowed(m: Moment, e: Event, now: nat) {
    now >= m.clock &&
    match e
    case Grant(v, expires, _) => v in m.wheel.vcs && (m.wheel.Queued(v) ==> expires >= m.wheel.vcs[v].cbExpires)
    case Vouch(v, _) => v in m.wheel.vcs && !m.wheel.Queued(v)
    case Break(v) => v in m.wheel.vcs
    case Learn(v, info) => v !in m.wheel.vcs && !info.statd
    case _ => true
  }

  ghost function Next(m: Moment, e: Event, now: nat): Moment
    requires Ordered(m.wheel) && Allowed(m, e, now)
  {
    var w := m.wheel;
    match e
    case Grant(v, expires, hashed) => Moment(Granted(w, v, expires, hashed), now, m.local - {v})
    case Vouch(v, expires) => Moment(w.WithVcache(v, w.vcs[v].(cbExpires := expires, statd := true)), now, m.local + {v})
    case Break(v) => Moment(Broken(w, v), now, m.local - {v})
    case Learn(v, info) => Moment(w.WithVcache(v, info), now, m.local)
    case Volumes(t) => Moment(w.(vols := t), now, m.local)
    case Bump => Moment(w.Bumped(now), now, m.local)
    case Check(ahead, most) => Moment(w.Checked(now + ahead, most, now), now, m.local)
    case FlushAll => Moment(w.Flushed(now), now, m.local)
  }

  /** The bump may leave the base time up to 19 seconds in the future, never more. */
  ghost predicate Sound(m: Moment, slack: nat) {
    && Good(m.wheel, slack)
    && Tracked(m.wheel, m.local)
    && m.wheel.basetime <= m.clock + (EARLY - 1)
  }

  ghost predicate Start(m: Moment) {
    && m.wheel.Shaped() && m.wheel.basetime == m.clock
    && (forall k | 0 <= k < SLOTS :: m.wheel.slots[k] == [])
    && (forall v | v in m.wheel.vcs :: !m.wheel.vcs[v].statd)
  }

  /** A fresh promise goes into a slot it outlives, up to `slack` seconds. */
  ghost predicate Fits(m: Moment, e: Event, slack: nat) {
    e.Grant? && !m.wheel.Queued(e.vc) ==> Outlives(m.wheel, e.expires, e.hashed, slack)
  }

  // ---------------------------------------------------------------- every event keeps the table sound

  lemma EnqueueKeepsQueued(w: Wheel, v: VcId, hashed: nat)
    requires w.Shaped() && v in w.vcs
    ensures forall u :: w.Enqueued(v, hashed).Queued(u) <==> w.Queued(u) || u == v
    ensures w.Enqueued(v, hashed).vcs == w.vcs && w.Enqueued(v, hashed).basetime == w.basetime
  {
    var w' := w.Enqueued(v, hashed);
    if w.Queued(v) {
      SameSlots(w, w');
    } else {
      forall u ensures w'.Queued(u) <==> w.Queued(u) || u == v {
        QueuedAfterLink(w, (hashed + w.base) % SLOTS, v, u);
        SameSlots(w.Linked((hashed + w.base) % SLOTS, v), w');
      }
    }
  }

  lemma GrantedQueued(w: Wheel, v: VcId, expires: nat, hashed: nat)
    requires w.Shaped() && v in w.vcs
    ensures var w' := Granted(w, v, expires, hashed);
            && (forall u :: w'.Queued(u) <==> w.Queued(u) || u == v)
            && w'.vcs == w.vcs[v := w.vcs[v].(cbExpires := expires, statd := true)]
            && w'.base == w.base && w'.basetime == w.basetime && w'.Shaped()
  {
    var w1 := w.WithVcache(v, w.vcs[v].(cbExpires := expires, statd := true));
    SameSlots(w, w1);
    EnqueueKeepsQueued(w1, v, hashed);
  }

  lemma BrokenQueued(w: Wheel, v: VcId)
    requires w.Shaped() && v in w.vcs
    ensures forall u :: Broken(w, v).Queued(u) <==> w.Queued(u) && u != v
  {
    SameSlots(w.Unlinked(v), Broken(w, v));
    forall u ensures w.Unlinked(v).Queued(u) <==> w.Queued(u) && u != v { QueuedAfterUnlink(w, v, u); }
  }

  lemma GrantSound(w: Wheel, v: VcId, expires: nat, hashed: nat, local: set<VcId>, slack: nat)
    requires Good(w, slack) && Tracked(w, local) && v in w.vcs
    requires w.Queued(v) ==> expires >= w.vcs[v].cbExpires
    requires !w.Queued(v) ==> Outlives(w, expires, hashed, slack)
    ensures Good(Granted(w, v, expires, hashed), slack) && Tracked(Granted(w, v, expires, hashed), local - {v})
  {
    var w1 := w.WithVcache(v, w.vcs[v].(cbExpires := expires, statd := true));
    RenewKeepsGood(w, v, w.vcs[v].(cbExpires := expires, statd := true), slack);
    SameSlots(w, w1);
    EnqueueKeepsGood(w1, v, hashed, slack);
    GrantedQueued(w, v, expires, hashed);
  }

  lemma VouchSound(w: Wheel, v: VcId, vc: Vcache, local: set<VcId>, slack: nat)
    requires Good(w, slack) && Tracked(w, local) && v in w.vcs && !w.Queued(v)
    ensures Good(w.WithVcache(v, vc), slack) && Tracked(w.WithVcache(v, vc), local + {v})
  {
    RenewKeepsGood(w, v, vc, slack);
    SameSlots(w, w.WithVcache(v, vc));
  }

  lemma BreakSound(w: Wheel, v: VcId, local: set<VcId>, slack: nat)
    requires Good(w, slack) && Tracked(w, local) && v in w.vcs
    ensures Good(Broken(w, v), slack) && Tracked(Broken(w, v), local - {v})
  {
    UnlinkKeepsGood(w, v, slack);
    RenewKeepsGood(w.Unlinked(v), v, w.vcs[v].(statd := false), slack);
    BrokenQueued(w, v);
  }

  lemma LearnSound(w: Wheel, v: VcId, info: Vcache, local: set<VcId>, slack: nat)
    requires Good(w, slack) && Tracked(w, local) && v !in w.vcs && !info.statd
    ensures Good(w.WithVcache(v, info), slack) && Tracked(w.WithVcache(v, info), local)
  {
    RenewKeepsGood(w, v, info, slack);
    SameSlots(w, w.WithVcache(v, info));
  }

  lemma VolumesSound(w: Wheel, t: map<VolId, Volume>, local: set<VcId>, slack: nat)
    requires Good(w, slack) && Tracked(w, local)
    ensures Good(w.(vols := t), slack) && Tracked(w.(vols := t), local)
  {
    SameSlots(w, w.(vols := t));
  }

  lemma BumpSound(w: Wheel, now: nat, local: set<VcId>, slack: nat)
    requires Good(w, slack) && Tracked(w, local)
    ensures Good(w.Bumped(now), slack) && Tracked(w.Bumped(now), local)
    ensures w.Bumped(now).basetime <= if w.basetime >= now then w.basetime else now + (EARLY - 1)
  {
    BumpKeepsGood(w, now, slack);
  }

  lemma CheckSound(w: Wheel, limit: nat, most: nat, now: nat, local: set<VcId>, slack: nat)
    requires Good(w, slack) && Tracked(w, local)
    ensures var w' := w.Checked(limit, most, now);
            Good(w', slack) && Tracked(w', local) && (w'.basetime == w.basetime || w'.basetime == now)
  {
    var q := w.slots[w.base];
    if |q| <= most {
      WalkKeepsGood(w, q, |q|, 0, limit, slack);
      WalkKeepsTracked(w, q, |q|, 0, limit, local);
      WalkEffect(w, q, |q|, limit);
    }
  }

  lemma FlushSound(w: Wheel, now: nat, local: set<VcId>, slack: nat)
    ensures Good(w.Flushed(now), slack) && Tracked(w.Flushed(now), local) && w.Flushed(now).basetime == now
  {
  }

  lemma NextSound(m: Moment, e: Event, now: nat, slack: nat)
    requires Ordered(m.wheel) && Sound(m, slack) && Allowed(m, e, now) && Fits(m, e, slack)
    ensures Sound(Next(m, e, now), slack)
  {
    hide Good, Tracked, Ordered, Outlives, Granted, Broken;
    var w := m.wheel;
    match e {
      case Grant(v, expires, hashed) =>
        assert w.Shaped() by { OrderedShaped(w); }
        GrantSound(w, v, expires, hashed, m.local, slack);
        GrantedQueued(w, v, expires, hashed);
      case Vouch(v, expires) => VouchSound(w, v, w.vcs[v].(cbExpires := expires, statd := true), m.local, slack);
      case Break(v) =>
        BreakSound(w, v, m.local, slack);
        assert Broken(w, v).basetime == w.basetime by { BrokenBase(w, v); }
      case Learn(v, info) => LearnSound(w, v, info, m.local, slack);
      case Volumes(t) => VolumesSound(w, t, m.local, slack);
      case Bump => BumpSound(w, now, m.local, slack);
      case Check(ahead, most) => CheckSound(w, now + ahead, most, now, m.local, slack);
      case FlushAll => FlushSound(w, now, m.local, slack);
    }
  }

  lemma OrderedShaped(w: Wheel)
    requires Ordered(w)
    ensures w.Shaped()
  {
  }

  lemma BrokenBase(w: Wheel, v: VcId)
    requires v in w.vcs
    ensures Broken(w, v).basetime == w.basetime
  {
  }

  lemma AmpleOutlives(w: Wheel, expires: nat, hashed: nat)
    ensures Outlives(w, expires, hashed, Ample(w))
  {
    assert BASE_STEP * (hashed % SLOTS) <= BASE_STEP * SLOTS;
  }

  /** Whatever promises come, the table stays in order: with slack enough nothing is ever late. */
  lemma NextOrdered(m: Moment, e: Event, now: nat)
    requires Ordered(m.wheel) && Allowed(m, e, now)
    ensures Ordered(Next(m, e, now).wheel)
  {
    var (w, slack) := (m.wheel, Ample(m.wheel));
    var all := w.vcs.Keys;
    AmpleIsGood(w);
    assert Tracked(w, all);
    hide Tracked, Known, InOneSlot, NotLate, Outlives, Granted, Broken;
    match e {
      case Grant(v, expires, hashed) =>
        AmpleOutlives(w, expires, hashed);
        GrantSound(w, v, expires, hashed, all, slack);
      case Vouch(v, expires) => VouchSound(w, v, w.vcs[v].(cbExpires := expires, statd := true), all, slack);
      case Break(v) => BreakSound(w, v, all, slack);
      case Learn(v, info) => LearnSound(w, v, info, all, slack);
      case Volumes(t) => VolumesSound(w, t, all, slack);
      case Bump => BumpSound(w, now, all, slack);
      case Check(ahead, most) => CheckSound(w, now + ahead, most, now, all, slack);
      case FlushAll => FlushSound(w, now, all, slack);
    }
  }

  // ---------------------------------------------------------------- when a fresh promise fits

  /** The table keeps its bound if and only if the fresh promise fits, for any bound, any promise and
      any slot. */
  lemma FreshGrantFitsExactly(m: Moment, v: VcId, expires: nat, hashed: nat, now: nat, slack: nat)
    requires Good(m.wheel, slack) && Allowed(m, Grant(v, expires, hashed), now) && !m.wheel.Queued(v)
    ensures Good(Next(m, Grant(v, expires, hashed), now).wheel, slack) <==> Fits(m, Grant(v, expires, hashed), slack)
  {
    if Outlives(m.wheel, expires, hashed, slack) {
      GrantSound(m.wheel, v, expires, hashed, m.wheel.vcs.Keys, slack);
    } else {
      LateGrantMisfits(m.wheel, v, expires, hashed, slack);
    }
  }

  lemma LateGrantMisfits(w: Wheel, v: VcId, expires: nat, hashed: nat, slack: nat)
    requires w.Shaped() && v in w.vcs && !w.Queued(v) && !Outlives(w, expires, hashed, slack)
    ensures !Good(Granted(w, v, expires, hashed), slack)
  {
    var w1 := w.WithVcache(v, w.vcs[v].(cbExpires := expires, statd := true));
    SameSlots(w, w1);
    var w' := w1.Enqueued(v, hashed);
    var k := (hashed + w.base) % SLOTS;
    OwnDistance(w.base, hashed);
    assert v in w'.slots[k] && w'.vcs[v].cbExpires == expires && w'.base == w.base;
  }

  /** A promise of x seconds counts from when the call was sent, at most `delay` seconds before it is
      filed, and is filed x seconds from the base. */
  ghost predicate Fetched(e: Event, now: nat, delay: nat) {
    e.Grant? ==> exists start: nat, x: nat :: FetchedAt(e, now, delay, start, x)
  }

  ghost predicate FetchedAt(e: Event, now: nat, delay: nat, start: nat, x: nat)
    requires e.Grant?
  {
    start <= now <= start + delay && e.expires == start + x && e.hashed == Hash(x)
  }

  /** Such a promise fits with 19 seconds of slack for a base time ahead of the clock, and the seconds
      the call took. */
  lemma FetchedFits(m: Moment, e: Event, now: nat, delay: nat)
    requires m.wheel.basetime <= m.clock + (EARLY - 1) && now >= m.clock && Fetched(e, now, delay)
    ensures Fits(m, e, EARLY - 1 + delay)
  {
    if e.Grant? {
      var start: nat, x: nat :| FetchedAt(e, now, delay, start, x);
      assert BASE_STEP * (Hash(x) % SLOTS) <= x;
    }
  }

  // ---------------------------------------------------------------- runs

  ghost predicate CanRun(m: Moment, es: seq<(Event, nat)>)
    requires Ordered(m.wheel)
    decreases |es|
  {
    es == [] ||
    (Allowed(m, es[0].0, es[0].1) &&
     (NextOrdered(m, es[0].0, es[0].1);
      CanRun(Next(m, es[0].0, es[0].1), es[1..])))
  }

  ghost function RunTo(m: Moment, es: seq<(Event, nat)>): (r: Moment)
    requires Ordered(m.wheel) && CanRun(m, es)
    ensures Ordered(r.wheel)
    decreases |es|
  {
    if es == [] then m
    else
      NextOrdered(m, es[0].0, es[0].1);
      RunTo(Next(m, es[0].0, es[0].1), es[1..])
  }

  ghost predicate AllFit(m: Moment, es: seq<(Event, nat)>, slack: nat)
    requires Ordered(m.wheel) && CanRun(m, es)
    decreases |es|
  {
    es == [] ||
    (Fits(m, es[0].0, slack) &&
     (NextOrdered(m, es[0].0, es[0].1);
      AllFit(Next(m, es[0].0, es[0].1), es[1..], slack)))
  }

  ghost predicate AllFetched(es: seq<(Event, nat)>, delay: nat) {
    forall i | 0 <= i < |es| :: Fetched(es[i].0, es[i].1, delay)
  }

  lemma StartSound(m: Moment, slack: nat)
    requires Start(m)
    ensures Ordered(m.wheel) && Sound(m, slack)
  {
  }

  lemma {:induction false} RunSound(m: Moment, es: seq<(Event, nat)>, slack: nat)
    requires Ordered(m.wheel) && Sound(m, slack) && CanRun(m, es) && AllFit(m, es, slack)
    ensures Sound(RunTo(m, es), slack)
    decreases |es|
  {
    if es != [] {
      NextOrdered(m, es[0].0, es[0].1);
      NextSound(m, es[0].0, es[0].1, slack);
      hide Ordered, Sound, Allowed, Next, Fits;
      RunSound(Next(m, es[0].0, es[0].1), es[1..], slack);
    }
  }

  lemma {:induction false} FetchedRunFits(m: Moment, es: seq<(Event, nat)>, delay: nat)
    requires Ordered(m.wheel) && Sound(m, EARLY - 1 + delay) && CanRun(m, es) && AllFetched(es, delay)
    ensures AllFit(m, es, EARLY - 1 + delay)
    decreases |es|
  {
    if es != [] {
      NextOrdered(m, es[0].0, es[0].1);
      FetchedFits(m, es[0].0, es[0].1, delay);
      NextSound(m, es[0].0, es[0].1, EARLY - 1 + delay);
      hide Ordered, Sound, Allowed, Next, Fits, Fetched;
      FetchedRunFits(Next(m, es[0].0, es[0].1), es[1..], delay);
    }
  }

  // ---------------------------------------------------------------- a sweep

  /** The base is moved up to date, and then the check looks 20 seconds ahead. */
  ghost function Swept(w: Wheel, most: nat, now: nat): Wheel
    requires Ordered(w)
  {
    AmpleIsGood(w);
    BumpKeepsGood(w, now, Ample(w));
    w.Bumped(now).Checked(now + EARLY, most, now)
  }

  lemma SweepMargin(w: Wheel, local: set<VcId>, most: nat, now: nat, slack: nat, v: VcId)
    requires Ordered(w) && Good(w, slack) && Tracked(w, local) && v !in local
    requires v in Swept(w, most, now).vcs && Swept(w, most, now).vcs[v].statd
    ensures Swept(w, most, now).Queued(v)
    ensures Swept(w, most, now).Exempt(v, now + EARLY) ||
            Swept(w, most, now).vcs[v].cbExpires + slack >= now + EARLY
  {
    BumpKeepsGood(w, now, slack);
    var w1 := w.Bumped(now);
    CheckSound(w1, now + EARLY, most, now, local, slack);
    CheckMargin(w1, now + EARLY, most, now, slack, v);
  }

  /** Over every run whose promises all fit with this slack: right after a sweep a trusted vcache is
      queued and good for 20 seconds, up to the slack, but for the read-only ones kept while all
      servers of their volume are down and what was made locally. */
  lemma TrustedAfterSweep(m: Moment, es: seq<(Event, nat)>, slack: nat, now: nat, most: nat, v: VcId)
    requires Start(m) && (StartSound(m, slack); CanRun(m, es) && AllFit(m, es, slack))
    requires (StartSound(m, slack);
              var (r, w) := (RunTo(m, es), Swept(RunTo(m, es).wheel, most, now));
              v in w.vcs && w.vcs[v].statd && v !in r.local)
    ensures (StartSound(m, slack);
             var w := Swept(RunTo(m, es).wheel, most, now);
             w.Queued(v) && (w.vcs[v].cbExpires + slack >= now + EARLY || w.Exempt(v, now + EARLY)))
  {
    StartSound(m, slack);
    RunSound(m, es, slack);
    SweepMargin(RunTo(m, es).wheel, RunTo(m, es).local, most, now, slack, v);
  }

  /** When promises are fetched by calls that take up to `delay` seconds, nothing trusted is past its
      promise by that much. */
  lemma NothingTrustedIsExpired(m: Moment, es: seq<(Event, nat)>, delay: nat, now: nat, most: nat, v: VcId)
    requires Start(m) && AllFetched(es, delay) && (StartSound(m, 0); CanRun(m, es))
    requires (StartSound(m, 0);
              var (r, w) := (RunTo(m, es), Swept(RunTo(m, es).wheel, most, now));
              v in w.vcs && w.vcs[v].statd && v !in r.local)
    ensures (StartSound(m, 0);
             var w := Swept(RunTo(m, es).wheel, most, now);
             w.Queued(v) && (w.vcs[v].cbExpires + delay > now || w.Exempt(v, now + EARLY)))
  {
    StartSound(m, EARLY - 1 + delay);
    FetchedRunFits(m, es, delay);
    TrustedAfterSweep(m, es, EARLY - 1 + delay, now, most, v);
  }

  /** And when every fresh promise fits exactly, nothing trusted expires within the next 20 seconds. */
  lemma NothingTrustedExpiresSoon(m: Moment, es: seq<(Event, nat)>, now: nat, most: nat, v: VcId)
    requires Start(m) && (StartSound(m, 0); CanRun(m, es) && AllFit(m, es, 0))
    requires (StartSound(m, 0);
              var (r, w) := (RunTo(m, es), Swept(RunTo(m, es).wheel, most, now));
              v in w.vcs && w.vcs[v].statd && v !in r.local)
    ensures (StartSound(m, 0);
             var w := Swept(RunTo(m, es).wheel, most, now);
             w.Queued(v) && (w.vcs[v].cbExpires >= now + EARLY || w.Exempt(v, now + EARLY)))
  {
    StartSound(m, 0);
    TrustedAfterSweep(m, es, 0, now, most, v);
  }

  // --------------------------------------------- when a promise for a queued vcache can shrink

  /** A vcache that is queued, or in q, but not trusted has little of its old promise left.  Read-only
      ones are excepted: the check renews them by their volume's promise, trusted or not. */
  ghost predicate Brief(w: Wheel, q: seq<VcId>, bound: nat) {
    forall v :: v in w.vcs && (w.Queued(v) || v in q) && !w.vcs[v].statd && !w.vcs[v].readOnly ==>
      w.vcs[v].cbExpires < bound
  }

  /** Status is fetched only for vcaches that are not trusted, what is left of a promise when it comes
      is as long at least as the check looks ahead, and a queued read-only vcache is not promised less
      than it had. */
  ghost predicate Usual(m: Moment, e: Event, now: nat, ahead: nat) {
    now >= m.clock &&
    match e
    case Grant(v, expires, _) =>
      && v in m.wheel.vcs && !m.wheel.vcs[v].statd && expires >= now + ahead
      && (m.wheel.vcs[v].readOnly && m.wheel.Queued(v) ==> expires >= m.wheel.vcs[v].cbExpires)
    case Check(a, _) => a <= ahead
    case _ => Allowed(m, e, now)
  }

  lemma JudgedBrief(w: Wheel, v: VcId, limit: nat)
    requires v in w.vcs && !w.vcs[v].readOnly
    ensures w.Judged(v, limit).vcs[v].cbExpires == w.vcs[v].cbExpires
    ensures w.Judged(v, limit) == if w.vcs[v].cbExpires < limit then w.Invalidated(v) else w
  {
  }

  lemma ExamineKeepsBrief(w: Wheel, q: seq<VcId>, v: VcId, limit: nat, bound: nat)
    requires w.Shaped() && v in w.vcs && v in q && Brief(w, q, bound) && limit <= bound
    ensures Brief(w.Examined(v, limit), q, bound)
  {
    var w' := w.Examined(v, limit);
    ExamineEffect(w, v, limit);
    assert w'.vcs == w.Judged(v, limit).vcs && w'.vcs[v].readOnly == w.vcs[v].readOnly;
    if !w.vcs[v].readOnly { JudgedBrief(w, v, limit); }
    hide Wheel.Examined, Wheel.Judged, Wheel.Replaced;
    forall u | u in w'.vcs && (w'.Queued(u) || u in q) && !w'.vcs[u].statd && !w'.vcs[u].readOnly
      ensures w'.vcs[u].cbExpires < bound
    {
      QueuedAfterExamine(w, v, limit, u);
    }
  }

  lemma {:induction false} WalkKeepsBrief(w: Wheel, q: seq<VcId>, n: nat, end: nat, limit: nat, bound: nat)
    requires w.Shaped() && Brief(w, q, bound) && limit <= bound && n <= |q| && forall v <- q :: v in w.vcs
    ensures Brief(w.Walked(q, n, end, limit), q, bound)
    decreases n
  {
    if n > end {
      ExamineKeepsBrief(w, q, q[n - 1], limit, bound);
      ExamineEffect(w, q[n - 1], limit);
      hide Brief, Wheel.Examined;
      WalkKeepsBrief(w.Examined(q[n - 1], limit), q, n - 1, end, limit, bound);
    }
  }

  lemma CheckKeepsBrief(w: Wheel, limit: nat, most: nat, now: nat, bound: nat)
    requires Ordered(w) && Brief(w, [], bound) && limit <= bound
    ensures forall v <- w.slots[w.base] :: v in w.vcs
    ensures Brief(w.Checked(limit, most, now), [], bound)
  {
    var q := w.slots[w.base];
    assert forall v <- q :: w.Queued(v);
    if |q| <= most {
      WalkKeepsBrief(w, q, |q|, 0, limit, bound);
    } else {
      FlushBrief(w.Walked(q, |q|, |q| - most - 1, limit), now, bound);
    }
  }

  lemma FlushBrief(w: Wheel, now: nat, bound: nat)
    ensures Brief(w.Flushed(now), [], bound)
  {
    assert forall v :: !w.Flushed(now).Queued(v);
  }

  /** Fewer are queued, and those that are are trusted or as before. */
  lemma StillBrief(w: Wheel, w': Wheel, bound: nat, bound': nat)
    requires Brief(w, [], bound) && bound <= bound'
    requires forall u | u in w'.vcs && w'.Queued(u) && !w'.vcs[u].statd ::
               u in w.vcs && w.Queued(u) && w'.vcs[u] == w.vcs[u]
    ensures Brief(w', [], bound')
  {
  }

  lemma GrantBrief(w: Wheel, v: VcId, expires: nat, hashed: nat, bound: nat, bound': nat)
    requires w.Shaped() && v in w.vcs && Brief(w, [], bound) && bound <= bound'
    ensures Brief(Granted(w, v, expires, hashed), [], bound')
  {
    GrantedQueued(w, v, expires, hashed);
    hide Brief, Granted;
    StillBrief(w, Granted(w, v, expires, hashed), bound, bound');
  }

  lemma BreakBrief(w: Wheel, v: VcId, bound: nat, bound': nat)
    requires w.Shaped() && v in w.vcs && Brief(w, [], bound) && bound <= bound'
    ensures Brief(Broken(w, v), [], bound')
  {
    BrokenQueued(w, v);
    hide Brief, Wheel.Queued;
    StillBrief(w, Broken(w, v), bound, bound');
  }

  /** A vcache that was not queued has changed. */
  lemma ChangeBrief(w: Wheel, v: VcId, vc: Vcache, bound: nat, bound': nat)
    requires Brief(w, [], bound) && bound <= bound' && !w.Queued(v) && Known(w)
    ensures Brief(w.WithVcache(v, vc), [], bound')
  {
    SameSlots(w, w.WithVcache(v, vc));
    KnownQueued(w);
    hide Brief, Wheel.Queued, Known;
    StillBrief(w, w.WithVcache(v, vc), bound, bound');
  }

  lemma KnownQueued(w: Wheel)
    requires Known(w)
    ensures forall u | w.Queued(u) :: u in w.vcs
  {
  }

  /** What runs take for granted, that a promise for a queued vcache does not shrink, then follows: a
      new promise outlasts what was left of the old. */
  lemma UsualIsAllowed(m: Moment, e: Event, now: nat, ahead: nat)
    requires Brief(m.wheel, [], m.clock + ahead) && Usual(m, e, now, ahead)
    ensures Allowed(m, e, now)
  {
  }

  lemma UsualKeepsBrief(m: Moment, e: Event, now: nat, ahead: nat)
    requires Ordered(m.wheel) && Brief(m.wheel, [], m.clock + ahead) && Usual(m, e, now, ahead) && Allowed(m, e, now)
    ensures Brief(Next(m, e, now).wheel, [], now + ahead)
  {
    var (w, b, b') := (m.wheel, m.clock + ahead, now + ahead);
    KnownQueued(w);
    hide Brief, Known, InOneSlot, Wheel.Queued, Wheel.Checked, Wheel.Flushed, Wheel.Bumped, Granted, Broken;
    match e {
      case Grant(v, expires, hashed) => GrantBrief(w, v, expires, hashed, b, b');
      case Vouch(v, expires) => ChangeBrief(w, v, w.vcs[v].(cbExpires := expires, statd := true), b, b');
      case Break(v) => BreakBrief(w, v, b, b');
      case Learn(v, info) => ChangeBrief(w, v, info, b, b');
      case Volumes(t) =>
        SameSlots(w, w.(vols := t));
        StillBrief(w, w.(vols := t), b, b');
      case Bump =>
        AmpleIsGood(w);
        BumpKeepsGood(w, now, Ample(w));
        StillBrief(w, w.Bumped(now), b, b');
      case Check(a, most) =>
        StillBrief(w, w, b, b');
        CheckKeepsBrief(w, now + a, most, now, b');
      case FlushAll => FlushBrief(w, now, b');
    }
  }

  /** Every event of a run is as usual when its turn comes. */
  ghost predicate AllUsual(m: Moment, es: seq<(Event, nat)>, ahead: nat)
    requires Ordered(m.wheel)
    decreases |es|
  {
    es == [] ||
    (Usual(m, es[0].0, es[0].1, ahead) &&
     (Allowed(m, es[0].0, es[0].1) ==>
        (NextOrdered(m, es[0].0, es[0].1);
         AllUsual(Next(m, es[0].0, es[0].1), es[1..], ahead))))
  }

  lemma {:induction false} UsualRun(m: Moment, es: seq<(Event, nat)>, ahead: nat)
    requires Ordered(m.wheel) && Brief(m.wheel, [], m.clock + ahead) && AllUsual(m, es, ahead)
    ensures CanRun(m, es)
    decreases |es|
  {
    if es != [] {
      UsualIsAllowed(m, es[0].0, es[0].1, ahead);
      NextOrdered(m, es[0].0, es[0].1);
      UsualKeepsBrief(m, es[0].0, es[0].1, ahead);
      assert Next(m, es[0].0, es[0].1).clock == es[0].1;
      hide Ordered, Brief, Usual, Allowed, Next;
      UsualRun(Next(m, es[0].0, es[0].1), es[1..], ahead);
    }
  }

  /** From the start, a run that is all as usual is a run in which promises do not shrink. */
  lemma UsualRunsCanRun(m: Moment, es: seq<(Event, nat)>, ahead: nat)
    requires Start(m) && (StartSound(m, 0); AllUsual(m, es, ahead))
    ensures (StartSound(m, 0); CanRun(m, es))
  {
    StartSound(m, 0);
    assert forall v :: !m.wheel.Queued(v);
    UsualRun(m, es, ahead);
  }

  // ---------------------------------------------------------------- cases

  lemma Prepend(m: Moment, e: Event, now: nat, es: seq<(Event, nat)>, slack: nat)
    requires Ordered(m.wheel) && Allowed(m, e, now) && (NextOrdered(m, e, now); CanRun(Next(m, e, now), es))
    ensures (NextOrdered(m, e, now); CanRun(m, [(e, now)] + es) && RunTo(m, [(e, now)] + es) == RunTo(Next(m, e, now), es))
    ensures (NextOrdered(m, e, now); AllFit(m, [(e, now)] + es, slack) <==> Fits(m, e, slack) && AllFit(Next(m, e, now), es, slack))
  {
    NextOrdered(m, e, now);
    var all := [(e, now)] + es;
    assert all[0] == (e, now) && all[1..] == es;
    hide Ordered, Allowed, Next, Fits;
    assert CanRun(m, all);
  }

  const UNTRUSTED: Vcache := Vcache(0, false, false, 0)

  /** A table with nothing in the queues. */
  ghost function Idle(base: nat, basetime: nat, vcs: map<VcId, Vcache>): Wheel {
    Wheel(base, basetime, seq(SLOTS, _ => []), vcs, map[])
  }

  /** A table with one vcache, trusted until `expires` and in slot k. */
  ghost function OneQueued(base: nat, basetime: nat, k: nat, expires: nat): Wheel {
    Wheel(base, basetime, seq(SLOTS, i => if i == k then [0] else []), map[0 := Vcache(expires, true, false, 0)], map[])
  }

  lemma GrantWhenIdle(base: nat, basetime: nat, expires: nat, hashed: nat)
    requires base < SLOTS
    ensures Granted(Idle(base, basetime, map[0 := UNTRUSTED]), 0, expires, hashed) ==
            OneQueued(base, basetime, (hashed + base) % SLOTS, expires)
  {
    var w := Idle(base, basetime, map[0 := UNTRUSTED]);
    var w1 := w.WithVcache(0, Vcache(expires, true, false, 0));
    SameSlots(w, w1);
    assert !w1.Queued(0);
    var k := (hashed + base) % SLOTS;
    OnlySlot(w1.slots, k);
  }

  lemma OnlySlot(slots: seq<seq<VcId>>, k: nat)
    requires slots == seq(SLOTS, _ => []) && k < SLOTS
    ensures slots[k := [0] + slots[k]] == seq(SLOTS, i => if i == k then [0] else [])
  {
    var (a, b) := (slots[k := [0] + slots[k]], seq(SLOTS, i => if i == k then [0] else []));
    forall i | 0 <= i < SLOTS ensures a[i] == b[i] {
      assert slots[i] == [];
      if i == k { assert b[i] == [0] == [0] + slots[k]; } else { assert b[i] == []; }
    }
    assert a == b;
  }

  lemma NoSlots(slots: seq<seq<VcId>>, base: nat)
    requires slots == seq(SLOTS, _ => []) && base < SLOTS
    ensures slots[(base + 1) % SLOTS := slots[(base + 1) % SLOTS] + slots[base]][base := []] == slots
  {
    var next := (base + 1) % SLOTS;
    assert slots[next] + slots[base] == [] == slots[next] == slots[base];
    assert slots[next := []][base := []] == slots;
  }

  lemma OneQueuedFacts(base: nat, basetime: nat, k: nat, expires: nat)
    requires base < SLOTS && k < SLOTS
    ensures var w := OneQueued(base, basetime, k, expires);
            Ordered(w) && w.Queued(0) && forall limit :: !w.Exempt(0, limit)
  {
    var w := OneQueued(base, basetime, k, expires);
    assert 0 in w.slots[k];
  }

  /** As long as the base does not move, a vcache in another slot is not looked at. */
  lemma QuietSweep(base: nat, basetime: nat, k: nat, expires: nat, most: nat, now: nat)
    requires base < SLOTS && k < SLOTS && k != base && now < basetime + (SLOT_LENGTH - EARLY)
    ensures Ordered(OneQueued(base, basetime, k, expires))
    ensures Swept(OneQueued(base, basetime, k, expires), most, now) == OneQueued(base, basetime, k, expires)
  {
    OneQueuedFacts(base, basetime, k, expires);
  }

  lemma BumpWhenIdle(base: nat, basetime: nat, vcs: map<VcId, Vcache>, now: nat)
    requires base < SLOTS && basetime + (SLOT_LENGTH - EARLY) <= now < basetime + BASE_STEP + (SLOT_LENGTH - EARLY)
    ensures Idle(base, basetime, vcs).Bumped(now) == Idle((base + 1) % SLOTS, basetime + BASE_STEP, vcs)
  {
    var (w, w') := (Idle(base, basetime, vcs), Idle((base + 1) % SLOTS, basetime + BASE_STEP, vcs));
    NoSlots(w.slots, base);
    assert w.BumpedOnce() == w';
    assert w'.Bumped(now) == w';
  }

  ghost function Fresh(t: nat): Moment { Moment(Idle(0, t, map[]), t, {}) }

  ghost function Learned(base: nat, basetime: nat, now: nat): Moment {
    Moment(Idle(base, basetime, map[0 := UNTRUSTED]), now, {})
  }

  /** A vcache is learned of when the table starts, and granted a promise later on. */
  ghost function LearnAndGrant(t: nat, now: nat, expires: nat, hashed: nat): seq<(Event, nat)> {
    [(Learn(0, UNTRUSTED), t), (Grant(0, expires, hashed), now)]
  }

  lemma GrantRuns(base: nat, basetime: nat, clock: nat, now: nat, expires: nat, hashed: nat, slack: nat)
    requires base < SLOTS && clock <= now
    ensures var (m, es) := (Learned(base, basetime, clock), [(Grant(0, expires, hashed), now)]);
            && Ordered(m.wheel) && CanRun(m, es)
            && RunTo(m, es) == Moment(OneQueued(base, basetime, (hashed + base) % SLOTS, expires), now, {})
            && (AllFit(m, es, slack) <==> Outlives(m.wheel, expires, hashed, slack))
  {
    var (m, e) := (Learned(base, basetime, clock), Grant(0, expires, hashed));
    assert !m.wheel.Queued(0);
    GrantWhenIdle(base, basetime, expires, hashed);
    OneQueuedFacts(base, basetime, (hashed + base) % SLOTS, expires);
    NothingMore(Next(m, e, now), slack);
    Prepend(m, e, now, [], slack);
    assert [(e, now)] + [] == [(e, now)];
  }

  lemma LearnAndGrantRuns(t: nat, now: nat, expires: nat, hashed: nat, slack: nat)
    requires t <= now
    ensures var (m, es) := (Fresh(t), LearnAndGrant(t, now, expires, hashed));
            && Start(m) && Ordered(m.wheel) && CanRun(m, es)
            && RunTo(m, es) == Moment(OneQueued(0, t, hashed % SLOTS, expires), now, {})
            && (AllFit(m, es, slack) <==> Outlives(Learned(0, t, t).wheel, expires, hashed, slack))
  {
    var es := [(Grant(0, expires, hashed), now)];
    assert Next(Fresh(t), Learn(0, UNTRUSTED), t) == Learned(0, t, t);
    GrantRuns(0, t, t, now, expires, hashed, slack);
    hide CanRun, RunTo, AllFit, Outlives, Ordered, Next;
    Prepend(Fresh(t), Learn(0, UNTRUSTED), t, es, slack);
    assert [(Learn(0, UNTRUSTED), t)] + es == LearnAndGrant(t, now, expires, hashed);
  }

  lemma NothingMore(m: Moment, slack: nat)
    requires Ordered(m.wheel)
    ensures CanRun(m, []) && RunTo(m, []) == m && AllFit(m, [], slack)
  {
  }

  /** The table that breaks the rule on dropped vcaches is come by: a promise of 21 seconds when the
      base time is 107 seconds behind. */
  lemma OverdueIsReached(t: nat)
    ensures var (m, es) := (Fresh(t), LearnAndGrant(t, t + 107, t + SLOT_LENGTH, Hash(21)));
            && Start(m) && Ordered(m.wheel) && CanRun(m, es) && AllFit(m, es, 0) && AllFetched(es, 0)
            && RunTo(m, es).wheel == Overdue(t)
  {
    LearnAndGrantRuns(t, t + 107, t + SLOT_LENGTH, Hash(21), 0);
    assert OneQueued(0, t, 0, t + SLOT_LENGTH).slots == Overdue(t).slots by { OverdueSlots(t); }
    assert FetchedAt(Grant(0, t + SLOT_LENGTH, Hash(21)), t + 107, 0, t + 107, 21);
  }

  lemma OverdueSlots(t: nat)
    ensures OneQueued(0, t, 0, t + SLOT_LENGTH).slots == Overdue(t).slots
  {
    var (a, b) := (OneQueued(0, t, 0, t + SLOT_LENGTH).slots, Overdue(t).slots);
    forall k | 0 <= k < SLOTS ensures a[k] == b[k] {
      if k > 0 { assert b[k] == []; }
    }
  }

  /** A created file is filed by the absolute time its promise ends: here in the last slot of the
      wheel, with 100 seconds to go.  Seven seconds past its promise the sweep does not look at it. */
  lemma CreatedFileExpires(most: nat)
    ensures var t := SLOT_LENGTH * BASE_STEP;
            var (m, es) := (Fresh(t), LearnAndGrant(t, t, t + 100, Hash(t + 100)));
            && Start(m) && Ordered(m.wheel) && CanRun(m, es) && RunTo(m, es).local == {}
            && var w := Swept(RunTo(m, es).wheel, most, t + 107);
               && 0 in w.vcs && w.vcs[0].statd && w.Queued(0) && w.vcs[0].cbExpires == t + 100 && !w.Exempt(0, t + 107 + EARLY)
  {
    var t := SLOT_LENGTH * BASE_STEP;
    assert Hash(t + 100) == BASE_STEP;
    LearnAndGrantRuns(t, t, t + 100, Hash(t + 100), 0);
    QuietSweep(0, t, BASE_STEP, t + 100, most, t + 107);
    OneQueuedFacts(0, t, BASE_STEP, t + 100);
  }

  /** The base has just been moved 19 seconds ahead of the clock when a promise is filed. */
  ghost function BumpAndGrant(now: nat, expires: nat, hashed: nat): seq<(Event, nat)> {
    [(Learn(0, UNTRUSTED), 0), (Bump, 108), (Grant(0, expires, hashed), now)]
  }

  lemma BumpAndGrantRuns(now: nat, expires: nat, hashed: nat, slack: nat)
    requires now >= 108
    ensures var (m, es) := (Fresh(0), BumpAndGrant(now, expires, hashed));
            && Start(m) && Ordered(m.wheel) && CanRun(m, es)
            && RunTo(m, es) == Moment(OneQueued(1, BASE_STEP, (hashed + 1) % SLOTS, expires), now, {})
            && (AllFit(m, es, slack) <==> Outlives(Learned(1, BASE_STEP, 108).wheel, expires, hashed, slack))
  {
    var es := [(Grant(0, expires, hashed), now)];
    BumpWhenIdle(0, 0, map[0 := UNTRUSTED], 108);
    assert Next(Fresh(0), Learn(0, UNTRUSTED), 0) == Learned(0, 0, 0);
    assert Next(Learned(0, 0, 0), Bump, 108) == Learned(1, BASE_STEP, 108);
    GrantRuns(1, BASE_STEP, 108, now, expires, hashed, slack);
    hide CanRun, RunTo, AllFit, Outlives, Ordered, Next;
    Prepend(Learned(0, 0, 0), Bump, 108, es, slack);
    Prepend(Fresh(0), Learn(0, UNTRUSTED), 0, [(Bump, 108)] + es, slack);
    assert [(Learn(0, UNTRUSTED), 0)] + ([(Bump, 108)] + es) == BumpAndGrant(now, expires, hashed);
  }

  /** Then a promise of 128 seconds does not outlive its slot, even when its call took no time. */
  lemma LateGrant()
    ensures var (m, es) := (Fresh(0), BumpAndGrant(108, 236, Hash(128)));
            Start(m) && Ordered(m.wheel) && CanRun(m, es) && AllFetched(es, 0) && !AllFit(m, es, 0)
  {
    BumpAndGrantRuns(108, 236, Hash(128), 0);
    assert FetchedAt(Grant(0, 236, Hash(128)), 108, 0, 108, 128);
  }

  /** And when its call took ten seconds, it is trusted two seconds past its promise after a sweep. */
  lemma SlowFetchExpires(most: nat)
    ensures var (m, es) := (Fresh(0), BumpAndGrant(110, 228, Hash(128)));
            && Start(m) && Ordered(m.wheel) && CanRun(m, es) && AllFetched(es, 10) && RunTo(m, es).local == {}
            && var w := Swept(RunTo(m, es).wheel, most, 230);
               && 0 in w.vcs && w.vcs[0].statd && w.Queued(0) && w.vcs[0].cbExpires == 228 && !w.Exempt(0, 230 + EARLY)
  {
    BumpAndGrantRuns(110, 228, Hash(128), 0);
    assert FetchedAt(Grant(0, 228, Hash(128)), 110, 10, 100, 128);
    QuietSweep(1, BASE_STEP, 2, 228, most, 230);
    OneQueuedFacts(1, BASE_STEP, 2, 228);
  }
}
