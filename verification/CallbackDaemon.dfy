/** The daemon's schedule for the callback wheel: a look every 20 seconds or so checks the base slot,
    and only when more than 128 seconds have passed since the base was last seen to does a look move
    it too.  In between a vcache in a later slot can be trusted past its promise. */
module CallbackDaemon {
  import opened CallbackWheel
  import opened CallbackRuns

  /** When the base was last seen to, when the last look was, and the vcaches that look left trusted
      because all servers of their volume were down. */
  datatype Daemon = Daemon(m: Moment, bumped: nat, looked: nat, spared: set<VcId>)

  datatype Happening = Look(most: nat) | Other(e: Event)

  /** What a look makes of the table. */
  ghost function LookedAt(w: Wheel, due: bool, most: nat, now: nat): Wheel
    requires Ordered(w)
  {
    CheckOrdered(w, now + EARLY, most, now);
    var w1 := w.Checked(now + EARLY, most, now);
    if due && w1.basetime + (SLOT_LENGTH - EARLY) <= now then Swept(w1, most, now) else w1
  }

  lemma CheckOrdered(w: Wheel, limit: nat, most: nat, now: nat)
    requires Ordered(w)
    ensures (forall v <- w.slots[w.base] :: v in w.vcs) && Ordered(w.Checked(limit, most, now))
  {
    AmpleIsGood(w);
    CheckSound(w, limit, most, now, w.vcs.Keys, Ample(w));
  }

  ghost predicate Spared(w: Wheel, v: VcId, now: nat) { w.Exempt(v, now + EARLY) }

  ghost function SparedIn(w: Wheel, now: nat): set<VcId> { set v | v in w.vcs && Spared(w, v, now) }

  /** Only the daemon bumps and checks; looks come in time; and promises are not over yet when they
      are filed. */
  ghost predicate OnSchedule(d: Daemon, h: Happening, now: nat, delay: nat) {
    && d.m.clock <= now <= d.looked + EARLY + delay
    && (h.Other? ==>
          && !h.e.Bump? && !h.e.Check? && Allowed(d.m, h.e, now)
          && (h.e.Grant? ==> h.e.expires >= now))
  }

  ghost function Onward(d: Daemon, h: Happening, now: nat): Daemon
    requires Ordered(d.m.wheel) && (h.Other? ==> Allowed(d.m, h.e, now))
  {
    match h
    case Look(most) =>
      var due := d.bumped + SLOT_LENGTH < now;
      var w := LookedAt(d.m.wheel, due, most, now);
      Daemon(Moment(w, now, d.m.local), if due then now else d.bumped, now, SparedIn(w, now))
    case Other(e) => d.(m := Next(d.m, e, now))
  }

  ghost predicate FitsIn(d: Daemon, h: Happening, slack: nat) { h.Other? ==> Fits(d.m, h.e, slack) }

  /** A trusted vcache of the base slot, unless spared, was not over at the last look. */
  ghost predicate BaseSeen(w: Wheel, looked: nat, spared: set<VcId>)
    requires w.Shaped()
  {
    forall v | v in w.slots[w.base] && v in w.vcs && w.vcs[v].statd && v !in spared :: w.vcs[v].cbExpires >= looked
  }

  ghost predicate InStep(d: Daemon, slack: nat) {
    && Ordered(d.m.wheel) && Sound(d.m, slack)
    && d.bumped <= d.looked <= d.m.clock && d.looked <= d.bumped + SLOT_LENGTH
    && d.bumped < d.m.wheel.basetime + (SLOT_LENGTH - EARLY)
    && BaseSeen(d.m.wheel, d.looked, d.spared)
  }

  // ---------------------------------------------------------------- one step

  /** After a check the base slot holds what is good for 20 seconds more, or spared. */
  lemma CheckedBaseSeen(w: Wheel, most: nat, now: nat)
    requires Ordered(w)
    ensures (CheckOrdered(w, now + EARLY, most, now);
             var w' := w.Checked(now + EARLY, most, now);
             && w'.Shaped() && (w'.basetime == w.basetime || w'.basetime == now)
             && BaseSeen(w', now, SparedIn(w', now)))
  {
    CheckOrdered(w, now + EARLY, most, now);
    var q := w.slots[w.base];
    if |q| <= most {
      WalkEffect(w, q, |q|, now + EARLY);
      assert q[..|q|] == q;
    }
  }

  lemma CheckSeen(w: Wheel, most: nat, now: nat, local: set<VcId>, slack: nat)
    requires Ordered(w) && Good(w, slack) && Tracked(w, local)
    ensures (CheckOrdered(w, now + EARLY, most, now);
             var w' := w.Checked(now + EARLY, most, now);
             && Ordered(w') && Good(w', slack) && Tracked(w', local)
             && BaseSeen(w', now, SparedIn(w', now)) && (w'.basetime == w.basetime || w'.basetime == now))
  {
    CheckSound(w, now + EARLY, most, now, local, slack);
    CheckOrdered(w, now + EARLY, most, now);
    CheckedBaseSeen(w, most, now);
  }

  lemma SweepSeen(w: Wheel, most: nat, now: nat, local: set<VcId>, slack: nat)
    requires Ordered(w) && Good(w, slack) && Tracked(w, local) && w.basetime + (SLOT_LENGTH - EARLY) <= now
    ensures var w' := Swept(w, most, now);
            && Ordered(w') && Good(w', slack) && Tracked(w', local) && BaseSeen(w', now, SparedIn(w', now))
            && w'.basetime <= now + (EARLY - 1) && now < w'.basetime + (SLOT_LENGTH - EARLY)
  {
    BumpKeepsGood(w, now, slack);
    assert Tracked(w.Bumped(now), local);
    hide Good, Tracked, BaseSeen, Wheel.Bumped, Wheel.Checked;
    CheckSeen(w.Bumped(now), most, now, local, slack);
  }

  lemma LookSeen(w: Wheel, due: bool, most: nat, now: nat, local: set<VcId>, slack: nat)
    requires Ordered(w) && Good(w, slack) && Tracked(w, local)
    ensures var w' := LookedAt(w, due, most, now);
            && Ordered(w') && Good(w', slack) && Tracked(w', local) && BaseSeen(w', now, SparedIn(w', now))
            && (if w.basetime >= now then w'.basetime <= w.basetime else w'.basetime <= now + (EARLY - 1))
            && (due ==> now < w'.basetime + (SLOT_LENGTH - EARLY))
            && (!due ==> w'.basetime == w.basetime || w'.basetime == now)
  {
    CheckSeen(w, most, now, local, slack);
    hide Good, Tracked, BaseSeen, Swept, Wheel.Checked, Known, InOneSlot;
    CheckOrdered(w, now + EARLY, most, now);
    var w1 := w.Checked(now + EARLY, most, now);
    if due && w1.basetime + (SLOT_LENGTH - EARLY) <= now {
      SweepSeen(w1, most, now, local, slack);
    }
  }

  lemma LookInStep(d: Daemon, most: nat, now: nat, delay: nat, slack: nat)
    requires InStep(d, slack) && OnSchedule(d, Look(most), now, delay)
    ensures InStep(Onward(d, Look(most), now), slack)
  {
    hide Ordered, Good, Tracked, BaseSeen, Spared, SparedIn, LookedAt;
    LookSeen(d.m.wheel, d.bumped + SLOT_LENGTH < now, most, now, d.m.local, slack);
  }

  lemma OtherInStep(d: Daemon, e: Event, now: nat, delay: nat, slack: nat)
    requires InStep(d, slack) && OnSchedule(d, Other(e), now, delay) && Fits(d.m, e, slack)
    ensures InStep(Onward(d, Other(e), now), slack)
  {
    NextSound(d.m, e, now, slack);
    NextOrdered(d.m, e, now);
    OtherSeen(d.m, e, now, d.looked, d.spared);
  }

  lemma OtherSeen(m: Moment, e: Event, now: nat, looked: nat, spared: set<VcId>)
    requires Ordered(m.wheel) && Allowed(m, e, now) && !e.Bump? && !e.Check? && looked <= now
    requires BaseSeen(m.wheel, looked, spared) && (e.Grant? ==> e.expires >= now)
    ensures var w' := Next(m, e, now).wheel;
            && w'.Shaped() && BaseSeen(w', looked, spared)
            && (w'.basetime == m.wheel.basetime || w'.basetime == now)
  {
    var w := m.wheel;
    if e.Grant? {
      GrantedQueued(w, e.vc, e.expires, e.hashed);
      GrantedBase(w, e.vc, e.expires, e.hashed);
    }
  }

  lemma GrantedBase(w: Wheel, v: VcId, expires: nat, hashed: nat)
    requires w.Shaped() && v in w.vcs
    ensures forall u | u in Granted(w, v, expires, hashed).slots[w.base] :: u == v || u in w.slots[w.base]
  {
  }

  /** What a vcache in step with the schedule can be past its promise, until the next look: 128 seconds,
      what the looks are late, and the slack of the promises. */
  lemma StaleAtMost(d: Daemon, delay: nat, slack: nat, t: nat, v: VcId)
    requires InStep(d, slack) && t <= d.looked + EARLY + delay
    requires v in d.m.wheel.vcs && d.m.wheel.vcs[v].statd && v !in d.m.local && v !in d.spared
    ensures d.m.wheel.vcs[v].cbExpires + SLOT_LENGTH + delay + slack >= t
  {
    var w := d.m.wheel;
    assert w.Queued(v);
    var k :| 0 <= k < |w.slots| && v in w.slots[k];
    if k != w.base {
      GoodAhead(w, slack, k, v);
    }
  }

  // ---------------------------------------------------------------- runs

  ghost predicate Scheduled(d: Daemon, hs: seq<(Happening, nat)>, delay: nat, slack: nat)
    requires InStep(d, slack)
    decreases |hs|
  {
    hs == [] ||
    (OnSchedule(d, hs[0].0, hs[0].1, delay) && FitsIn(d, hs[0].0, slack) &&
     (OneInStep(d, hs[0].0, hs[0].1, delay, slack);
      Scheduled(Onward(d, hs[0].0, hs[0].1), hs[1..], delay, slack)))
  }

  lemma OneInStep(d: Daemon, h: Happening, now: nat, delay: nat, slack: nat)
    requires InStep(d, slack) && OnSchedule(d, h, now, delay) && FitsIn(d, h, slack)
    ensures InStep(Onward(d, h, now), slack)
  {
    match h {
      case Look(most) => LookInStep(d, most, now, delay, slack);
      case Other(e) => OtherInStep(d, e, now, delay, slack);
    }
  }

  ghost function After(d: Daemon, hs: seq<(Happening, nat)>, delay: nat, slack: nat): (r: Daemon)
    requires InStep(d, slack) && Scheduled(d, hs, delay, slack)
    ensures InStep(r, slack)
    decreases |hs|
  {
    if hs == [] then d
    else
      OneInStep(d, hs[0].0, hs[0].1, delay, slack);
      After(Onward(d, hs[0].0, hs[0].1), hs[1..], delay, slack)
  }

  /** Over every run of the schedule with looks at most 20 + `delay` seconds apart and promises that fit
      with this slack: at any time until the next look nothing trusted is more than 128 + `delay` +
      `slack` seconds past its promise, but for what was spared at the last look or made locally. */
  lemma NothingTrustedIsStale(d: Daemon, hs: seq<(Happening, nat)>, delay: nat, slack: nat, t: nat, v: VcId)
    requires InStep(d, slack) && Scheduled(d, hs, delay, slack)
    requires var r := After(d, hs, delay, slack);
             && t <= r.looked + EARLY + delay
             && v in r.m.wheel.vcs && r.m.wheel.vcs[v].statd && v !in r.m.local && v !in r.spared
    ensures After(d, hs, delay, slack).m.wheel.vcs[v].cbExpires + SLOT_LENGTH + delay + slack >= t
  {
    StaleAtMost(After(d, hs, delay, slack), delay, slack, t, v);
  }

  /** A daemon that starts with the table is in step. */
  lemma StartInStep(m: Moment, slack: nat)
    requires Start(m)
    ensures InStep(Daemon(m, m.clock, m.clock, {}), slack)
  {
    StartSound(m, slack);
  }

  // ---------------------------------------------------------------- a run that comes near it

  /** The daemon starts 107 seconds after the table, when a vcache is trusted until second 128. */
  ghost function Begun(looked: nat): Daemon {
    Daemon(Moment(OneQueued(0, 0, 1, SLOT_LENGTH), looked, {}), 107, looked, {})
  }

  lemma BegunInStep(looked: nat)
    requires 107 <= looked <= 107 + SLOT_LENGTH
    ensures InStep(Begun(looked), 0)
  {
    OneQueuedFacts(0, 0, 1, SLOT_LENGTH);
    assert Distance(0, 1) == 1;
    assert forall k | 0 <= k < SLOTS && k != 1 :: OneQueued(0, 0, 1, SLOT_LENGTH).slots[k] == [];
  }

  /** Until the base is due a look finds the base slot empty. */
  lemma QuietLook(looked: nat, most: nat, now: nat)
    requires 107 <= looked <= now <= 107 + SLOT_LENGTH && now <= looked + EARLY
    ensures InStep(Begun(looked), 0) && OnSchedule(Begun(looked), Look(most), now, 0)
    ensures Onward(Begun(looked), Look(most), now) == Begun(now)
  {
    BegunInStep(looked);
    OneQueuedFacts(0, 0, 1, SLOT_LENGTH);
    var w := OneQueued(0, 0, 1, SLOT_LENGTH);
    assert w.slots[0] == [];
    assert w.Checked(now + EARLY, most, now) == w;
    assert SparedIn(w, now) == {};
  }

  ghost function QuietLooks(looked: nat, most: nat): seq<(Happening, nat)>
    decreases 107 + SLOT_LENGTH - looked
  {
    if looked + EARLY >= 107 + SLOT_LENGTH then [(Look(most), 107 + SLOT_LENGTH)]
    else [(Look(most), looked + EARLY)] + QuietLooks(looked + EARLY, most)
  }

  lemma {:induction false} QuietLooksRun(looked: nat, most: nat)
    requires 107 <= looked <= 107 + SLOT_LENGTH
    ensures InStep(Begun(looked), 0) && Scheduled(Begun(looked), QuietLooks(looked, most), 0, 0)
    ensures After(Begun(looked), QuietLooks(looked, most), 0, 0) == Begun(107 + SLOT_LENGTH)
    decreases 107 + SLOT_LENGTH - looked
  {
    var now: nat := if looked + EARLY >= 107 + SLOT_LENGTH then 107 + SLOT_LENGTH else looked + EARLY;
    var hs := QuietLooks(looked, most);
    QuietLook(looked, most, now);
    BegunInStep(now);
    hide InStep, OnSchedule, Onward, Begun;
    if looked + EARLY >= 107 + SLOT_LENGTH {
      assert hs[1..] == [];
      assert Scheduled(Begun(now), [], 0, 0) && After(Begun(now), [], 0, 0) == Begun(now);
    } else {
      QuietLooksRun(now, most);
      assert hs[1..] == QuietLooks(now, most);
    }
  }

  /** Looks come every 20 seconds and promises fit exactly; just before the look that moves the base the
      vcache is trusted 127 seconds past its promise, of 128 that are possible. */
  lemma AlmostAsStaleAsCanBe(most: nat)
    ensures var hs := QuietLooks(107, most);
            && InStep(Begun(107), 0) && Scheduled(Begun(107), hs, 0, 0)
            && var r := After(Begun(107), hs, 0, 0);
               && 0 in r.m.wheel.vcs && r.m.wheel.vcs[0].statd && r.m.local == {} && r.spared == {}
               && r.m.wheel.vcs[0].cbExpires + BASE_STEP == r.looked + EARLY
  {
    QuietLooksRun(107, most);
  }

  /** And the daemon finds the table that way: the vcache was promised 128 seconds when the table
      started. */
  lemma BegunIsReached()
    ensures var (m, es) := (Fresh(0), LearnAndGrant(0, 0, SLOT_LENGTH, Hash(SLOT_LENGTH)));
            && Start(m) && Ordered(m.wheel) && CanRun(m, es) && AllFit(m, es, 0) && AllFetched(es, 0)
            && RunTo(m, es).(clock := 107) == Begun(107).m
  {
    LearnAndGrantRuns(0, 0, SLOT_LENGTH, Hash(SLOT_LENGTH), 0);
    assert FetchedAt(Grant(0, SLOT_LENGTH, Hash(SLOT_LENGTH)), 0, 0, 0, SLOT_LENGTH);
  }
}
