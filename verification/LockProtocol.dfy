/** The read/shared/write/boosted lock of the cache manager.

    Everything between two sleeps happens under the global lock, so one atomic step of a
    thread is: the fast path of an obtain, the part of an obtain up to its sleep, the retest
    after a wakeup, a release, or a conversion.  `LockWord` is the lock structure as a value
    with those pieces as functions; `AfsLock` is the structure updated in place; `System`
    puts any number of threads around one lock. */
module LockProtocol {

  /** A mask of the three lock bits. */
  datatype Bits = Bits(read: bool, write: bool, shared: bool)
  {
    predicate Any() { read || write || shared }

    predicate Meets(b: Bits) { (read && b.read) || (write && b.write) || (shared && b.shared) }

    function Or(b: Bits): Bits { Bits(read || b.read, write || b.write, shared || b.shared) }

    function Without(b: Bits): Bits { Bits(read && !b.read, write && !b.write, shared && !b.shared) }
  }

  const NO_LOCK := Bits(false, false, false)
  const READ_LOCK := Bits(true, false, false)
  const WRITE_LOCK := Bits(false, true, false)
  const SHARED_LOCK := Bits(false, false, true)
  const EXCL_LOCKS := Bits(false, true, true)

  datatype Mode = Read | Write | Shared | Boosted

  /** The two addresses a thread can sleep on. */
  datatype Channel = OnReaders | OnExcl

  datatype Wakeup = NoWakeup | Wake(channel: Channel)

  function ChannelOf(m: Mode): Channel {
    if m == Read then OnReaders else OnExcl
  }

  /** The bit of `wait_states` a sleeper of this mode sets. */
  function WaitBit(m: Mode): Bits {
    match m
    case Read => READ_LOCK
    case Write => WRITE_LOCK
    case Shared => SHARED_LOCK
    case Boosted => WRITE_LOCK
  }

  datatype LockWord = LockWord(excl: Bits, readers: nat, waits: Bits, waiting: nat)
  {
    predicate Blocked(m: Mode) {
      match m
      case Read => excl.Meets(WRITE_LOCK)
      case Write => excl.Any() || readers != 0
      case Shared => excl.Any()
      case Boosted => readers != 0
    }

    function Granted(m: Mode): LockWord {
      match m
      case Read => this.(readers := readers + 1)
      case Write => this.(excl := WRITE_LOCK)
      case Shared => this.(excl := SHARED_LOCK)
      case Boosted => this.(excl := WRITE_LOCK)
    }

    function Sleeping(m: Mode): LockWord {
      this.(waits := waits.Or(WaitBit(m)))
    }

    function Requested(m: Mode): LockWord {
      if Blocked(m) then this.(waiting := waiting + 1).Sleeping(m) else Granted(m)
    }

    function Retested(m: Mode): LockWord
      requires waiting > 0
    {
      if Blocked(m) then Sleeping(m) else this.(waiting := waiting - 1).Granted(m)
    }

    function ReadersFirst(): (LockWord, Wakeup) {
      if waits.Meets(READ_LOCK)
      then (this.(waits := waits.Without(READ_LOCK)), Wake(OnReaders))
      else (this.(waits := waits.Without(EXCL_LOCKS)), Wake(OnExcl))
    }

    function WritersFirst(): (LockWord, Wakeup) {
      if waits.Meets(EXCL_LOCKS)
      then (this.(waits := waits.Without(EXCL_LOCKS)), Wake(OnExcl))
      else (this.(waits := waits.Without(READ_LOCK)), Wake(OnReaders))
    }

    function ReadersFirstIfWaiting(): (LockWord, Wakeup) {
      if waits.Any() then ReadersFirst() else (this, NoWakeup)
    }

    function Released(m: Mode): (LockWord, Wakeup)
      requires m == Read ==> readers > 0
    {
      match m
      case Read =>
        var l := this.(readers := readers - 1);
        if l.readers == 0 && l.waits.Any() then l.WritersFirst() else (l, NoWakeup)
      case Write => this.(excl := excl.Without(WRITE_LOCK)).ReadersFirstIfWaiting()
      case Shared => this.(excl := excl.Without(EXCL_LOCKS)).ReadersFirstIfWaiting()
      case Boosted => this.(excl := excl.Without(EXCL_LOCKS)).ReadersFirstIfWaiting()
    }

    function WriteToShared(): (LockWord, Wakeup) {
      this.(excl := SHARED_LOCK).ReadersFirstIfWaiting()
    }

    function ToRead(): (LockWord, Wakeup) {
      this.(excl := excl.Without(EXCL_LOCKS), readers := readers + 1).ReadersFirst()
    }
  }

  /** The lock structure itself.  `Value` is what a thread holding the global lock sees. */
  class AfsLock {
    var exclLocked: Bits
    var readersReading: nat
    var waitStates: Bits
    var numWaiting: nat

    function Value(): LockWord
      reads this
    {
      LockWord(exclLocked, readersReading, waitStates, numWaiting)
    }

    constructor ()
      ensures Value() == LockWord(NO_LOCK, 0, NO_LOCK, 0)
    {
      exclLocked, readersReading, waitStates, numWaiting := NO_LOCK, 0, NO_LOCK, 0;
    }

    /** The fast path, or the first half of the slow path up to its sleep.  Called with
        Boosted it is the upgrade of a shared lock. */
    method Obtain(m: Mode) returns (slept: bool)
      modifies this
      ensures slept == old(Value()).Blocked(m)
      ensures Value() == old(Value()).Requested(m)
    {
      slept := false;
      match m {
        case Read =>
          if !exclLocked.Meets(WRITE_LOCK) {
            readersReading := readersReading + 1;
          } else {
            slept := true;
          }
        case Write =>
          if !exclLocked.Any() && readersReading == 0 {
            exclLocked := WRITE_LOCK;
          } else {
            slept := true;
          }
        case Shared =>
          if !exclLocked.Any() {
            exclLocked := SHARED_LOCK;
          } else {
            slept := true;
          }
        case Boosted =>
          if readersReading == 0 {
            exclLocked := WRITE_LOCK;
          } else {
            slept := true;
          }
      }
      if slept {
        numWaiting := numWaiting + 1;
        SetWaitBit(m);
      }
    }

    method SetWaitBit(m: Mode)
      modifies this`waitStates
      ensures Value() == old(Value()).Sleeping(m)
    {
      match m {
        case Read => waitStates := waitStates.Or(READ_LOCK);
        case Write => waitStates := waitStates.Or(WRITE_LOCK);
        case Shared => waitStates := waitStates.Or(SHARED_LOCK);
        case Boosted => waitStates := waitStates.Or(WRITE_LOCK);
      }
    }

    /** One turn of the sleep loop: the test of the loop and what follows it, up to the next
        sleep or the return. */
    method Retest(m: Mode) returns (slept: bool)
      requires numWaiting > 0
      modifies this
      ensures slept == old(Value()).Blocked(m)
      ensures Value() == old(Value()).Retested(m)
    {
      match m {
        case Read => slept := exclLocked.Meets(WRITE_LOCK);
        case Write => slept := exclLocked.Any() || readersReading != 0;
        case Shared => slept := exclLocked.Any();
        case Boosted => slept := readersReading != 0;
      }
      if slept {
        SetWaitBit(m);
        return;
      }
      numWaiting := numWaiting - 1;
      match m {
        case Read => readersReading := readersReading + 1;
        case Write => exclLocked := WRITE_LOCK;
        case Shared => exclLocked := SHARED_LOCK;
        case Boosted => exclLocked := WRITE_LOCK;
      }
    }

    method ReleaseR() returns (w: Wakeup)
      modifies this`waitStates
      ensures (Value(), w) == old(Value()).ReadersFirst()
    {
      if waitStates.Meets(READ_LOCK) {
        waitStates := waitStates.Without(READ_LOCK);
        w := Wake(OnReaders);
      } else {
        waitStates := waitStates.Without(EXCL_LOCKS);
        w := Wake(OnExcl);
      }
    }

    method ReleaseW() returns (w: Wakeup)
      modifies this`waitStates
      ensures (Value(), w) == old(Value()).WritersFirst()
    {
      if waitStates.Meets(EXCL_LOCKS) {
        waitStates := waitStates.Without(EXCL_LOCKS);
        w := Wake(OnExcl);
      } else {
        waitStates := waitStates.Without(READ_LOCK);
        w := Wake(OnReaders);
      }
    }

    method Release(m: Mode) returns (w: Wakeup)
      requires m == Read ==> readersReading > 0
      modifies this
      ensures (Value(), w) == old(Value()).Released(m)
    {
      w := NoWakeup;
      if m == Read {
        readersReading := readersReading - 1;
        if readersReading == 0 && waitStates.Any() {
          w := ReleaseW();
        }
      } else {
        exclLocked := exclLocked.Without(if m == Write then WRITE_LOCK else EXCL_LOCKS);
        if waitStates.Any() {
          w := ReleaseR();
        }
      }
    }

    method ConvertWToS() returns (w: Wakeup)
      modifies this
      ensures (Value(), w) == old(Value()).WriteToShared()
    {
      exclLocked := SHARED_LOCK;
      w := NoWakeup;
      if waitStates.Any() {
        w := ReleaseR();
      }
    }

    /** Both conversions to a read lock; neither looks at `wait_states` first. */
    method ConvertToR() returns (w: Wakeup)
      modifies this
      ensures (Value(), w) == old(Value()).ToRead()
    {
      exclLocked := exclLocked.Without(EXCL_LOCKS);
      readersReading := readersReading + 1;
      w := ReleaseR();
    }
  }

  // ---------------------------------------------------------------- threads around one lock

  datatype Phase =
    | Idle
    | Holds(mode: Mode)   // Read, Write or Shared
    | Asleep(mode: Mode)  // a Boosted sleeper keeps the shared lock it wants to boost
    | Woken(mode: Mode)   // woken, has not run yet

  type Threads = map<nat, Phase>

  datatype System = System(lock: LockWord, threads: Threads)

  datatype Op =
    | DoObtain(mode: Mode)     // Read, Write or Shared
    | TryObtain(mode: Mode)    // the non-blocking forms: Write or Shared
    | DoBoost
    | Resume
    | DoRelease(mode: Mode)
    | WToS
    | ToR
    | SpuriousWake             // a sleep that returns without a wakeup

  function Deliver(th: Threads, w: Wakeup): (r: Threads)
    ensures r.Keys == th.Keys
  {
    match w
    case NoWakeup => th
    case Wake(c) =>
      map u | u in th ::
        if th[u].Asleep? && ChannelOf(th[u].mode) == c then Woken(th[u].mode) else th[u]
  }

  predicate Enabled(s: System, t: nat, op: Op) {
    t in s.threads &&
    var p := s.threads[t];
    match op
    case DoObtain(m) => p == Idle && m != Boosted
    case TryObtain(m) => p == Idle && (m == Write || m == Shared)
    case DoBoost => p == Holds(Shared)
    case Resume => p.Woken?
    case DoRelease(m) =>
      // a boosted or write lock may also be given back with the shared form
      p == Holds(m) || (m == Shared && p == Holds(Write))
    case WToS => p == Holds(Write)
    case ToR => p == Holds(Write) || p == Holds(Shared)
    case SpuriousWake => p.Asleep?
  }

  function HeldAs(m: Mode): Phase {
    if m == Boosted then Holds(Write) else Holds(m)
  }

  /** What a step does: the new lock word, the new phase of the thread that ran, and the
      channel it woke. */
  datatype Effect = Effect(lock: LockWord, phase: Phase, wake: Wakeup)

  function EffectOf(l: LockWord, p: Phase, op: Op): Effect
    requires op == Resume ==> p.Woken? && l.waiting > 0
    requires op == DoRelease(Read) ==> l.readers > 0
    requires op == SpuriousWake ==> p.Asleep?
  {
    match op
    case DoObtain(m) =>
      Effect(l.Requested(m), if l.Blocked(m) then Asleep(m) else HeldAs(m), NoWakeup)
    case TryObtain(m) =>
      if l.Blocked(m) then Effect(l, p, NoWakeup) else Effect(l.Granted(m), HeldAs(m), NoWakeup)
    case DoBoost =>
      Effect(l.Requested(Boosted), if l.Blocked(Boosted) then Asleep(Boosted) else Holds(Write), NoWakeup)
    case Resume =>
      Effect(l.Retested(p.mode), if l.Blocked(p.mode) then Asleep(p.mode) else HeldAs(p.mode), NoWakeup)
    case DoRelease(m) =>
      var (l', w) := l.Released(m);
      Effect(l', Idle, w)
    case WToS =>
      var (l', w) := l.WriteToShared();
      Effect(l', Holds(Shared), w)
    case ToR =>
      var (l', w) := l.ToRead();
      Effect(l', Holds(Read), w)
    case SpuriousWake => Effect(l, Woken(p.mode), NoWakeup)
  }

  function After(s: System, t: nat, e: Effect): System
    requires t in s.threads
  {
    System(e.lock, Deliver(s.threads[t := e.phase], e.wake))
  }

  function Step(s: System, t: nat, op: Op): System
    requires Enabled(s, t, op)
    requires op == Resume ==> s.lock.waiting > 0
    requires op == DoRelease(Read) ==> s.lock.readers > 0
  {
    After(s, t, EffectOf(s.lock, s.threads[t], op))
  }

  // ---------------------------------------------------------------- the invariant

  ghost predicate Waits(p: Phase) { p.Asleep? || p.Woken? }

  /** Threads that keep everyone else off the exclusive side. */
  ghost predicate Owns(p: Phase) {
    p == Holds(Write) || p == Holds(Shared) || p == Asleep(Boosted) || p == Woken(Boosted)
  }

  ghost predicate SomeWoken(th: Threads) { exists v :: v in th && th[v].Woken? }

  ghost function ReadersOf(th: Threads): set<nat> { set u | u in th && th[u] == Holds(Read) }

  ghost function WaitersOf(th: Threads): set<nat> { set u | u in th && Waits(th[u]) }

  ghost function WokenOf(th: Threads): set<nat> { set u | u in th && th[u].Woken? }

  ghost function HoldersOf(th: Threads): set<nat> { set u | u in th && th[u].Holds? }

  /** The lock word counts the threads, and at most one of them owns the exclusive side. */
  ghost predicate Counted(s: System) {
    && s.lock.readers == |ReadersOf(s.threads)|
    && s.lock.waiting == |WaitersOf(s.threads)|
    && (forall u | u in s.threads :: s.threads[u] != Holds(Boosted))
  }

  ghost predicate OneOwner(s: System) {
    && s.lock.excl in {NO_LOCK, WRITE_LOCK, SHARED_LOCK}
    && (forall u | u in s.threads && Owns(s.threads[u]) ::
          s.lock.excl == if s.threads[u] == Holds(Write) then WRITE_LOCK else SHARED_LOCK)
    && (forall u, v | u in s.threads && v in s.threads && Owns(s.threads[u]) && Owns(s.threads[v]) ::
          u == v)
    && (s.lock.excl != NO_LOCK ==> exists u :: u in s.threads && Owns(s.threads[u]))
    && (s.lock.excl == WRITE_LOCK ==> s.lock.readers == 0)
  }

  ghost predicate WaitBitsKept(s: System) {
    && (forall u | u in s.threads && s.threads[u].Asleep? ::
          s.lock.waits.Meets(WaitBit(s.threads[u].mode)))
    && (s.lock.waits.read ==> s.lock.excl == WRITE_LOCK)
    && (s.lock.waits.read ==>
          exists u :: u in s.threads && (s.threads[u] == Asleep(Read) || s.threads[u] == Woken(Read)))
  }

  /** What rules out a lost wakeup, sleeper by sleeper. */
  ghost predicate SleepersCovered(s: System) {
    && (forall u | u in s.threads && s.threads[u] == Asleep(Boosted) :: s.lock.readers > 0)
    && (forall u | u in s.threads && (s.threads[u] == Asleep(Write) || s.threads[u] == Asleep(Shared)) ::
          s.lock.excl != NO_LOCK || s.lock.readers > 0 || SomeWoken(s.threads))
  }

  ghost predicate Inv(s: System) {
    Counted(s) && OneOwner(s) && WaitBitsKept(s) && SleepersCovered(s)
  }

  ghost predicate Initial(s: System) {
    && s.lock == LockWord(NO_LOCK, 0, NO_LOCK, 0)
    && forall u | u in s.threads :: s.threads[u] == Idle
  }

  lemma InitialInv(s: System)
    requires Initial(s)
    ensures Inv(s)
  {
    assert ReadersOf(s.threads) == {};
    assert WaitersOf(s.threads) == {};
  }

  /** What one step may do, said about the lock word and the one thread that ran. */
  ghost predicate Lawful(l: LockWord, p: Phase, e: Effect) {
    && var (l', p', w) := (e.lock, e.phase, e.wake);
    && l'.readers == l.readers - (if p == Holds(Read) then 1 else 0) + (if p' == Holds(Read) then 1 else 0)
    && l'.waiting == l.waiting - (if Waits(p) then 1 else 0) + (if Waits(p') then 1 else 0)
    && p' != Holds(Boosted)
    // the exclusive side changes hands only through its owner or when nobody has it
    && l'.excl == (if p' == Holds(Write) then WRITE_LOCK else if Owns(p') then SHARED_LOCK
                   else if Owns(p) then NO_LOCK else l.excl)
    && (Owns(p') && !Owns(p) ==> l.excl == NO_LOCK)
    && (l'.excl == WRITE_LOCK ==> l'.readers == 0)
    // a wait bit goes away only together with its sleepers
    && l'.waits == (match w
                    case NoWakeup => if p'.Asleep? then l.waits.Or(WaitBit(p'.mode)) else l.waits
                    case Wake(OnReaders) => l.waits.Without(READ_LOCK)
                    case Wake(OnExcl) => l.waits.Without(EXCL_LOCKS))
    && (p'.Asleep? ==> w == NoWakeup)
    && (l'.waits.read ==> l'.excl == WRITE_LOCK)
    && (l'.waits.read && p in {Asleep(Read), Woken(Read)} ==> p' in {Asleep(Read), Woken(Read)})
    // a sleeper always leaves somebody behind who will wake it
    && (p' == Asleep(Boosted) ==> l'.readers > 0)
    && (p'.Asleep? ==> l'.excl != NO_LOCK || l'.readers > 0)
    && (l.readers > 0 && l'.readers == 0 && l.waits.write ==> w == Wake(OnExcl))
    && (l'.excl == NO_LOCK && l'.readers == 0 ==>
          && (p.Woken? ==> p'.Woken?)
          && (l.excl != NO_LOCK || l.readers > 0 ==>
                !l.waits.Any() || w == Wake(if l.waits.read then OnReaders else OnExcl)))
  }

  /** The facts of the invariant that concern the running thread. */
  ghost predicate Seen(l: LockWord, p: Phase) {
    && l.excl in {NO_LOCK, WRITE_LOCK, SHARED_LOCK}
    && (Owns(p) ==> l.excl == if p == Holds(Write) then WRITE_LOCK else SHARED_LOCK)
    && (l.excl == WRITE_LOCK ==> l.readers == 0)
    && (l.waits.read ==> l.excl == WRITE_LOCK)
    && (p == Holds(Read) ==> l.readers > 0)
    && (Waits(p) ==> l.waiting > 0)
    && (p == Asleep(Boosted) ==> l.readers > 0)
    && p != Holds(Boosted)
  }

  lemma EffectIsLawful(s: System, t: nat, op: Op)
    requires Enabled(s, t, op) && Seen(s.lock, s.threads[t])
    ensures Lawful(s.lock, s.threads[t], EffectOf(s.lock, s.threads[t], op))
  {
  }

  lemma SizeAfterChange<T>(a: set<T>, b: set<T>, x: T)
    requires a - {x} == b - {x}
    ensures |b| == |a| - (if x in a then 1 else 0) + (if x in b then 1 else 0)
  {
    assert |a - {x}| == |a| - if x in a then 1 else 0;
    assert |b - {x}| == |b| - if x in b then 1 else 0;
  }

  /** Changing one thread moves it in or out of each counted set and touches nobody else. */
  lemma CountsAfterUpdate(th: Threads, t: nat, p: Phase)
    requires t in th
    ensures |ReadersOf(th[t := p])| ==
            |ReadersOf(th)| - (if th[t] == Holds(Read) then 1 else 0) + (if p == Holds(Read) then 1 else 0)
    ensures |WaitersOf(th[t := p])| ==
            |WaitersOf(th)| - (if Waits(th[t]) then 1 else 0) + (if Waits(p) then 1 else 0)
    ensures |WokenOf(th[t := p])| ==
            |WokenOf(th)| - (if th[t].Woken? then 1 else 0) + (if p.Woken? then 1 else 0)
    ensures |HoldersOf(th[t := p])| ==
            |HoldersOf(th)| - (if th[t].Holds? then 1 else 0) + (if p.Holds? then 1 else 0)
  {
    SizeAfterChange(ReadersOf(th), ReadersOf(th[t := p]), t);
    SizeAfterChange(WaitersOf(th), WaitersOf(th[t := p]), t);
    SizeAfterChange(WokenOf(th), WokenOf(th[t := p]), t);
    SizeAfterChange(HoldersOf(th), HoldersOf(th[t := p]), t);
  }

  lemma CountsAfterDeliver(th: Threads, w: Wakeup)
    ensures ReadersOf(Deliver(th, w)) == ReadersOf(th)
    ensures WaitersOf(Deliver(th, w)) == WaitersOf(th)
    ensures HoldersOf(Deliver(th, w)) == HoldersOf(th)
  {
  }

  /** The invariant hands the running thread what it needs to know. */
  lemma InvSeen(s: System, t: nat)
    requires Inv(s) && t in s.threads
    ensures Seen(s.lock, s.threads[t])
  {
    if s.threads[t] == Holds(Read) {
      assert t in ReadersOf(s.threads);
    }
    if Waits(s.threads[t]) {
      assert t in WaitersOf(s.threads);
    }
  }

  lemma KeepsCounted(s: System, t: nat, e: Effect)
    requires Inv(s) && t in s.threads && Lawful(s.lock, s.threads[t], e)
    ensures Counted(After(s, t, e))
  {
    CountsAfterUpdate(s.threads, t, e.phase);
    CountsAfterDeliver(s.threads[t := e.phase], e.wake);
  }

  /** A thread that did not run keeps its phase, or is woken where it slept. */
  lemma Others(s: System, t: nat, e: Effect, u: nat)
    requires t in s.threads && u in s.threads
    ensures var th' := After(s, t, e).threads;
            var p := if u == t then e.phase else s.threads[u];
            && u in th'
            && (th'[u] == p || (p.Asleep? && e.wake == Wake(ChannelOf(p.mode)) && th'[u] == Woken(p.mode)))
            && (p.Asleep? && e.wake == Wake(ChannelOf(p.mode)) ==> th'[u] == Woken(p.mode))
            && Owns(th'[u]) == Owns(p)
  {
  }

  lemma KeepsOneOwner(s: System, t: nat, e: Effect)
    requires Inv(s) && t in s.threads && Lawful(s.lock, s.threads[t], e)
    ensures OneOwner(After(s, t, e))
  {
    var s' := After(s, t, e);
    forall u | u in s.threads ensures u in s'.threads && Owns(s'.threads[u]) == Owns(if u == t then e.phase else s.threads[u])
    {
      Others(s, t, e, u);
    }
    if s'.lock.excl != NO_LOCK && !Owns(e.phase) {
      var o :| o in s.threads && Owns(s.threads[o]);
      assert o in s'.threads && Owns(s'.threads[o]);
    }
  }

  lemma KeepsWaitBits(s: System, t: nat, e: Effect)
    requires Inv(s) && t in s.threads && Lawful(s.lock, s.threads[t], e)
    ensures WaitBitsKept(After(s, t, e))
  {
    var s' := After(s, t, e);
    forall u | u in s'.threads && s'.threads[u].Asleep?
      ensures s'.lock.waits.Meets(WaitBit(s'.threads[u].mode))
    {
      Others(s, t, e, u);
    }
    if s'.lock.waits.read {
      var r := t;
      if s.lock.waits.read {
        r :| r in s.threads && (s.threads[r] == Asleep(Read) || s.threads[r] == Woken(Read));
      }
      Others(s, t, e, r);
      assert r in s'.threads && (s'.threads[r] == Asleep(Read) || s'.threads[r] == Woken(Read));
    }
  }

  lemma KeepsCovered(s: System, t: nat, e: Effect)
    requires Inv(s) && t in s.threads && Lawful(s.lock, s.threads[t], e)
    ensures SleepersCovered(After(s, t, e))
  {
    var s' := After(s, t, e);
    forall u | u in s'.threads && s'.threads[u] == Asleep(Boosted)
      ensures s'.lock.readers > 0
    {
      Others(s, t, e, u);
    }
    forall u | u in s'.threads && (s'.threads[u] == Asleep(Write) || s'.threads[u] == Asleep(Shared))
      ensures s'.lock.excl != NO_LOCK || s'.lock.readers > 0 || SomeWoken(s'.threads)
    {
      Others(s, t, e, u);
      if s'.lock.excl == NO_LOCK && s'.lock.readers == 0 {
        var r :| r in s.threads &&
                 if s.lock.waits.read then s.threads[r] == Asleep(Read) || s.threads[r] == Woken(Read)
                 else s.threads[r].Woken?;
        Others(s, t, e, r);
      }
    }
  }

  /** Every step of every thread keeps the invariant, and no step finds a counter it is about
      to decrement at zero. */
  lemma StepInv(s: System, t: nat, op: Op)
    requires Inv(s) && Enabled(s, t, op)
    ensures op == Resume ==> s.lock.waiting > 0
    ensures op == DoRelease(Read) ==> s.lock.readers > 0
    ensures Inv(Step(s, t, op))
  {
    InvSeen(s, t);
    EffectIsLawful(s, t, op);
    var e := EffectOf(s.lock, s.threads[t], op);
    KeepsCounted(s, t, e);
    KeepsOneOwner(s, t, e);
    KeepsWaitBits(s, t, e);
    KeepsCovered(s, t, e);
  }

  // ---------------------------------------------------------------- who is granted, who is woken

  /** A thread in this phase keeps a request of this mode waiting. */
  ghost predicate Conflicts(m: Mode, p: Phase) {
    match m
    case Read => p == Holds(Write)
    case Shared => Owns(p)
    case Write => Owns(p) || p == Holds(Read)
    case Boosted => p == Holds(Read)
  }

  ghost predicate SomeConflict(th: Threads, t: nat, m: Mode) {
    exists u :: u in th && u != t && Conflicts(m, th[u])
  }

  lemma BlockedByConflict(s: System, t: nat, m: Mode)
    requires Inv(s) && t in s.threads
    requires if m == Boosted then s.threads[t] in {Holds(Shared), Woken(Boosted)} else s.threads[t] in {Idle, Woken(m)}
    ensures s.lock.Blocked(m) <==> SomeConflict(s.threads, t, m)
  {
    if s.lock.readers > 0 && (m == Write || m == Boosted) {
      var u :| u in ReadersOf(s.threads);
      assert u in s.threads && u != t && Conflicts(m, s.threads[u]);
    }
    if s.lock.excl != NO_LOCK && m != Boosted && (m == Read ==> s.lock.excl == WRITE_LOCK) {
      var u :| u in s.threads && Owns(s.threads[u]);
      assert u != t && Conflicts(m, s.threads[u]);
    }
    if u :| u in s.threads && u != t && Conflicts(m, s.threads[u]) {
      InvSeen(s, u);
    }
  }

  /** A request, and a thread that runs after its wakeup, gets the lock at once if and only if nobody
      conflicts with it, and sleeps otherwise; the forms that do not wait leave the thread as it is. */
  lemma GrantedUnlessConflict(s: System, t: nat, op: Op)
    requires Inv(s) && Enabled(s, t, op)
    ensures (StepInv(s, t, op);
             var (p, p') := (s.threads[t], Step(s, t, op).threads[t]);
             match op
             case DoObtain(m) => p' == if SomeConflict(s.threads, t, m) then Asleep(m) else Holds(m)
             case TryObtain(m) => p' == if SomeConflict(s.threads, t, m) then Idle else Holds(m)
             case DoBoost => p' == if SomeConflict(s.threads, t, Boosted) then Asleep(Boosted) else Holds(Write)
             case Resume =>
               p' == if SomeConflict(s.threads, t, p.mode) then Asleep(p.mode)
                     else if p.mode == Boosted then Holds(Write) else Holds(p.mode)
             case _ => true)
  {
    StepInv(s, t, op);
    hide Inv;
    match op {
      case DoObtain(m) => BlockedByConflict(s, t, m);
      case TryObtain(m) => BlockedByConflict(s, t, m);
      case DoBoost => BlockedByConflict(s, t, Boosted);
      case Resume => BlockedByConflict(s, t, s.threads[t].mode);
      case _ =>
    }
  }

  /** Letting go of the lock wakes sleepers exactly as said: the last reader all exclusive ones, a
      reader that is not the last nobody, and an exclusive holder the readers if any may be waiting,
      and else the exclusive ones.  Nothing else wakes anyone. */
  lemma WokenExactly(s: System, t: nat, op: Op, u: nat)
    requires Inv(s) && Enabled(s, t, op) && u in s.threads && u != t && s.threads[u].Asleep?
    ensures (StepInv(s, t, op);
             var m := s.threads[u].mode;
             Step(s, t, op).threads[u] == Woken(m) <==>
               match op
               case DoRelease(Read) => ReadersOf(s.threads) == {t}
               case DoRelease(_) => m == Read || !s.lock.waits.read
               case WToS => m == Read || !s.lock.waits.read
               case ToR => m == Read || !s.lock.waits.read
               case _ => false)
    ensures (StepInv(s, t, op);
             Step(s, t, op).threads[u] in {s.threads[u], Woken(s.threads[u].mode)})
  {
    StepInv(s, t, op);
    InvSeen(s, t);
    InvSeen(s, u);
    if s.threads[t] == Holds(Read) {
      assert t in ReadersOf(s.threads);
      OnlyReader(ReadersOf(s.threads), t);
    }
  }

  lemma OnlyReader(a: set<nat>, t: nat)
    requires t in a
    ensures |a| == 1 <==> a == {t}
  {
    assert a == {t} + (a - {t});
  }

  // ---------------------------------------------------------------- all runs

  type Trace = seq<(nat, Op)>

  ghost predicate CanRun(s: System, tr: Trace)
    requires Inv(s)
    decreases |tr|
  {
    tr == [] ||
    (Enabled(s, tr[0].0, tr[0].1) &&
     (StepInv(s, tr[0].0, tr[0].1);
      CanRun(Step(s, tr[0].0, tr[0].1), tr[1..])))
  }

  /** The state after any interleaving of any threads; the invariant holds in all of them. */
  ghost function RunTo(s: System, tr: Trace): (r: System)
    requires Inv(s) && CanRun(s, tr)
    ensures Inv(r) && r.threads.Keys == s.threads.Keys
    decreases |tr|
  {
    if tr == [] then s
    else
      StepInv(s, tr[0].0, tr[0].1);
      RunTo(Step(s, tr[0].0, tr[0].1), tr[1..])
  }

  ghost predicate ReachedBy(s: System, tr: Trace, r: System) {
    Initial(s) && (InitialInv(s); CanRun(s, tr) && RunTo(s, tr) == r)
  }

  ghost predicate Reachable(r: System) { exists s, tr :: ReachedBy(s, tr, r) }

  lemma ReachableInv(r: System)
    requires Reachable(r)
    ensures Inv(r)
  {
    var s, tr :| ReachedBy(s, tr, r);
    InitialInv(s);
  }

  /** Mutual exclusion: beside a thread that has the lock in an exclusive mode, be it a writer, a
      shared holder, or a shared holder asleep or just woken on its way to a write lock, nobody has
      it but readers, and beside a writer nobody at all. */
  lemma MutualExclusion(r: System, u: nat, v: nat)
    requires Reachable(r)
    requires var th := r.threads;
             u != v && u in th && v in th && Owns(th[u]) && (th[v].Holds? || Owns(th[v]))
    ensures r.threads[v] == Holds(Read) && r.threads[u] != Holds(Write)
  {
    ReachableInv(r);
    InvExclusion(r, u, v);
  }

  lemma HoldCases(p: Phase)
    requires p.Holds? && p != Holds(Boosted)
    ensures p == Holds(Read) || p == Holds(Write) || p == Holds(Shared)
  {
    match p.mode {
      case Read =>
      case Write =>
      case Shared =>
      case Boosted =>
    }
  }

  lemma InvExclusion(r: System, u: nat, v: nat)
    requires Inv(r)
    requires u != v && u in r.threads && v in r.threads && Owns(r.threads[u])
    requires r.threads[v].Holds? || Owns(r.threads[v])
    ensures r.threads[v] == Holds(Read) && r.threads[u] != Holds(Write)
  {
    InvSeen(r, u);
    InvSeen(r, v);
    assert !Owns(r.threads[v]);
    HoldCases(r.threads[v]);
  }

  /** No lost wakeup: while anyone sleeps on the lock, someone else who is not asleep holds it
      or has been woken and has not run yet. */
  lemma NoLostWakeup(r: System, u: nat) returns (v: nat)
    requires Reachable(r)
    requires var th := r.threads; u in th && th[u].Asleep?
    ensures var th := r.threads; v in th && v != u && (th[v].Holds? || th[v].Woken?)
    ensures r.lock.waits.Meets(WaitBit(r.threads[u].mode))
  {
    ReachableInv(r);
    v := SomeoneActive(r, u);
  }

  lemma SomeoneActive(r: System, u: nat) returns (v: nat)
    requires Inv(r) && u in r.threads && r.threads[u].Asleep?
    ensures v in r.threads && v != u && (r.threads[v].Holds? || r.threads[v].Woken?)
  {
    if r.lock.readers > 0 {
      v :| v in ReadersOf(r.threads);
    } else if r.lock.excl != NO_LOCK {
      v :| v in r.threads && Owns(r.threads[v]);
    } else {
      v :| v in r.threads && r.threads[v].Woken?;
    }
  }

  /** A thread asleep while boosting is always waiting for a reader that is really there. */
  lemma BoosterWaitsForReader(r: System, u: nat) returns (v: nat)
    requires Reachable(r)
    requires var th := r.threads; u in th && th[u] == Asleep(Boosted)
    ensures var th := r.threads; v in th && th[v] == Holds(Read)
  {
    ReachableInv(r);
    v :| v in ReadersOf(r.threads);
  }

  // ---------------------------------------------------------------- nobody is stranded

  /** Letting go of the lock, or running after a wakeup: no new request. */
  predicate Drains(s: System, t: nat, op: Op) {
    Enabled(s, t, op) && (op == Resume || op.DoRelease?)
  }

  ghost function Rank(s: System): nat {
    (2 * |WaitersOf(s.threads)| + |HoldersOf(s.threads)|) * (|s.threads| + 1) + |WokenOf(s.threads)|
  }

  lemma WokenBound(th: Threads)
    ensures |WokenOf(th)| <= |th|
  {
    SubsetSize(WokenOf(th), th.Keys);
  }

  lemma SubsetSize<T>(a: set<T>, b: set<T>)
    requires a <= b
    ensures |a| <= |b|
  {
    assert b == a + (b - a);
  }

  ghost function Load(p: Phase): nat { if Waits(p) then 2 else if p.Holds? then 1 else 0 }

  lemma DrainEffect(s: System, t: nat, op: Op)
    requires Drains(s, t, op) && Seen(s.lock, s.threads[t])
    ensures var (p, e) := (s.threads[t], EffectOf(s.lock, s.threads[t], op));
            if e.phase.Asleep? then p.Woken? && e.wake == NoWakeup
            else Load(e.phase) == Load(p) - 1
  {
  }

  lemma Heavier(a: nat, b: nat, n: nat, x: nat, y: nat)
    requires a < b && x < n
    ensures a * n + x < b * n + y
  {
    var d: nat := b - a - 1;
    assert b == a + 1 + d;
    assert b * n == a * n + n + d * n;
  }

  lemma DrainStep(s: System, t: nat, op: Op)
    requires Inv(s) && Drains(s, t, op)
    ensures (StepInv(s, t, op); Rank(Step(s, t, op)) < Rank(s))
    ensures (StepInv(s, t, op); |Step(s, t, op).threads| == |s.threads|)
  {
    StepInv(s, t, op);
    InvSeen(s, t);
    DrainEffect(s, t, op);
    DrainRank(s, t, EffectOf(s.lock, s.threads[t], op));
  }

  lemma DrainRank(s: System, t: nat, e: Effect)
    requires t in s.threads
    requires if e.phase.Asleep? then s.threads[t].Woken? && e.wake == NoWakeup
             else Load(e.phase) == Load(s.threads[t]) - 1
    ensures Rank(After(s, t, e)) < Rank(s)
    ensures |After(s, t, e).threads| == |s.threads|
  {
    var th1 := s.threads[t := e.phase];
    var th2 := Deliver(th1, e.wake);
    CountsAfterUpdate(s.threads, t, e.phase);
    CountsAfterDeliver(th1, e.wake);
    WokenBound(th2);
    assert th2.Keys == s.threads.Keys;
    if !e.phase.Asleep? {
      Heavier(2 * |WaitersOf(th2)| + |HoldersOf(th2)|, 2 * |WaitersOf(s.threads)| + |HoldersOf(s.threads)|,
              |s.threads| + 1, |WokenOf(th2)|, |WokenOf(s.threads)|);
    }
  }

  ghost predicate OnlyDrains(s: System, tr: Trace)
    requires Inv(s) && CanRun(s, tr)
    decreases |tr|
  {
    tr == [] ||
    (Drains(s, tr[0].0, tr[0].1) &&
     (StepInv(s, tr[0].0, tr[0].1);
      OnlyDrains(Step(s, tr[0].0, tr[0].1), tr[1..])))
  }

  /** Whatever order the holders release and the woken threads run in, they can do so only
      `Rank` times ... */
  lemma {:induction false} DrainIsBounded(s: System, tr: Trace)
    requires Inv(s) && CanRun(s, tr) && OnlyDrains(s, tr)
    ensures |tr| + Rank(RunTo(s, tr)) <= Rank(s)
    decreases |tr|
  {
    if tr != [] {
      StepInv(s, tr[0].0, tr[0].1);
      DrainStep(s, tr[0].0, tr[0].1);
      DrainIsBounded(Step(s, tr[0].0, tr[0].1), tr[1..]);
    }
  }

  /** ... and as long as anyone holds the lock or waits for it, one of them can move. */
  lemma SomeoneCanMove(s: System, t: nat) returns (u: nat, op: Op)
    requires Inv(s) && t in s.threads && s.threads[t] != Idle
    ensures Drains(s, u, op)
  {
    u := t;
    if s.threads[t].Asleep? {
      u := SomeoneActive(s, t);
    }
    op := if s.threads[u].Holds? then DoRelease(s.threads[u].mode) else Resume;
  }

  /** So every such order comes to an end, and where it ends nobody holds the lock or waits for it:
      every sleeper has been served. */
  lemma EverySleeperIsServed(s: System, tr: Trace)
    requires Inv(s) && CanRun(s, tr) && OnlyDrains(s, tr)
    ensures |tr| <= Rank(s)
    ensures (forall u, op :: !Drains(RunTo(s, tr), u, op)) ==>
              forall t | t in RunTo(s, tr).threads :: RunTo(s, tr).threads[t] == Idle
  {
    DrainIsBounded(s, tr);
    if t :| t in RunTo(s, tr).threads && RunTo(s, tr).threads[t] != Idle {
      var u, op := SomeoneCanMove(RunTo(s, tr), t);
    }
  }

  /** A free lock goes to a woken thread as soon as it runs, and if anyone waits there is one. */
  lemma FreeLockIsGranted(s: System, u: nat) returns (v: nat)
    requires Inv(s) && u in s.threads && Waits(s.threads[u])
    requires HoldersOf(s.threads) == {}
    ensures v in s.threads && s.threads[v].Woken? && s.lock.waiting > 0
    ensures Step(s, v, Resume).threads[v] == HeldAs(s.threads[v].mode)
  {
    assert s.lock.readers == 0 by { assert ReadersOf(s.threads) <= HoldersOf(s.threads); }
    if s.lock.excl != NO_LOCK {
      v :| v in s.threads && Owns(s.threads[v]);
      assert v !in HoldersOf(s.threads);
    } else {
      v := u;
      if s.threads[u].Asleep? {
        v := SomeoneActive(s, u);
        assert v !in HoldersOf(s.threads);
      }
    }
    InvSeen(s, v);
  }
}
