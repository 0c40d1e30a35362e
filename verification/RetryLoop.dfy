/** The retry loop around every file-server call: choosing a host and an address, judging the
    outcome, and deciding whether to try again.  One request is followed through; the volume's
    list of hosts changes only by its own questions, and servers do not come back up. */
module RetryLoop {

  const MAXHOSTS: nat := 13
  const NOT_BUSY: nat := 0
  const END_NOT_BUSY: nat := 6
  const RD_BUSY: nat := 7
  const RDWR_BUSY: nat := 8
  const OFFLINE: nat := 9
  const NONE: int := -1
  const VOLMISSING: nat := 1
  const VOLBUSY: nat := 2
  const PATIENCE: nat := 100

  /** The volume location server's word on the volume: its list of hosts, if there is any. */
  datatype Vldb = Dunno | Entry(hosts: seq<int>)

  /** How a call came out, as far as the retry loop tells outcomes apart. */
  datatype Outcome =
    | Success
    | IdleTimeout
    | NetworkFailure
    | TooLarge
    | Busy
    | Restarting
    | UbikError
    | MissingVolume(answer: Vldb)
    | NoAccess
    | LocationError
    | OtherError

  /** The request record. */
  datatype Req = Req(initd: bool, busyCount: nat, idleError: nat, accessError: bool, volumeError: nat,
                     networkError: bool, skip: seq<bool>)

  function FreshReq(): Req {
    Req(false, 0, 0, false, 0, false, seq(MAXHOSTS, _ => false))
  }

  /** Hosts by row, NONE where there is no more; addresses by server; the server of an address;
      and how near an address is. */
  datatype Topology = Topology(hosts: seq<int>, addrs: seq<seq<nat>>, owner: seq<nat>, rank: seq<int>)

  /** A list of hosts ends with its first gap. */
  ghost predicate Compact(hosts: seq<int>) {
    forall i, j | 0 <= i < j < |hosts| && hosts[i] == NONE :: hosts[j] == NONE
  }

  ghost predicate TopologyOk(t: Topology) {
    && |t.hosts| == MAXHOSTS && |t.rank| == |t.owner|
    && Compact(t.hosts)
    && (forall i | 0 <= i < MAXHOSTS :: t.hosts[i] == NONE || 0 <= t.hosts[i] < |t.addrs|)
    && (forall s | 0 <= s < |t.addrs| :: t.addrs[s] != [])
    && (forall s, k | 0 <= s < |t.addrs| && 0 <= k < |t.addrs[s]| ::
          t.addrs[s][k] < |t.owner| && t.owner[t.addrs[s][k]] == s)
    && (forall a | 0 <= a < |t.owner| :: t.owner[a] < |t.addrs|)
  }

  // ---------------------------------------------------------------- sums that go down

  ghost function Total(w: seq<nat>): nat {
    if w == [] then 0 else w[0] + Total(w[1..])
  }

  /** Lowering some weights and raising none lowers the total. */
  lemma {:induction false} TotalFalls(w: seq<nat>, w': seq<nat>)
    requires |w| == |w'| && forall i | 0 <= i < |w| :: w'[i] <= w[i]
    ensures Total(w') <= Total(w)
    ensures (exists i :: 0 <= i < |w| && w'[i] < w[i]) ==> Total(w') < Total(w)
  {
    if w != [] {
      TotalFalls(w[1..], w'[1..]);
      if i :| 0 <= i < |w| && w'[i] < w[i] {
        if i > 0 { assert w'[1..][i - 1] < w[1..][i - 1]; }
      }
    }
  }

  lemma {:induction false} TotalBounded(w: seq<nat>, m: nat)
    requires forall i | 0 <= i < |w| :: w[i] <= m
    ensures Total(w) <= m * |w|
  {
    if w != [] {
      TotalBounded(w[1..], m);
    }
  }

  /** How many more missing-volume answers a row can take before it is out of the running. */
  function LevelsLeft(status: nat): nat { if status <= END_NOT_BUSY then 7 - status else 0 }

  ghost function Levels(status: seq<nat>): seq<nat> {
    seq(|status|, i requires 0 <= i < |status| => LevelsLeft(status[i]))
  }

  /** One for each flag that is not set. */
  ghost function Unset(flags: seq<bool>): seq<nat> {
    seq(|flags|, i requires 0 <= i < |flags| => if flags[i] then 0 else 1)
  }

  /** What a request can still use up without a busy answer: status levels, addresses that are
      up, and hosts not yet skipped. */
  ghost function Potential(status: seq<nat>, down: seq<bool>, skip: seq<bool>): nat {
    Total(Levels(status)) + Total(Unset(down)) + Total(Unset(skip))
  }

  lemma PotentialFalls(status: seq<nat>, down: seq<bool>, skip: seq<bool>, status': seq<nat>, down': seq<bool>, skip': seq<bool>)
    requires |status'| == |status| && |down'| == |down| && |skip'| == |skip|
    requires forall i | 0 <= i < |status| :: LevelsLeft(status'[i]) <= LevelsLeft(status[i])
    requires forall i | 0 <= i < |down| :: down[i] ==> down'[i]
    requires forall i | 0 <= i < |skip| :: skip[i] ==> skip'[i]
    ensures Potential(status', down', skip') <= Potential(status, down, skip)
    ensures (exists i :: 0 <= i < |status| && LevelsLeft(status'[i]) < LevelsLeft(status[i])) ||
            (exists i :: 0 <= i < |down| && !down[i] && down'[i]) ||
            (exists i :: 0 <= i < |skip| && !skip[i] && skip'[i])
            ==> Potential(status', down', skip') < Potential(status, down, skip)
  {
    TotalFalls(Levels(status), Levels(status'));
    TotalFalls(Unset(down), Unset(down'));
    TotalFalls(Unset(skip), Unset(skip'));
    if i :| 0 <= i < |status| && LevelsLeft(status'[i]) < LevelsLeft(status[i]) {
      assert Levels(status')[i] < Levels(status)[i];
    }
    if i :| 0 <= i < |down| && !down[i] && down'[i] {
      assert Unset(down')[i] < Unset(down)[i];
    }
    if i :| 0 <= i < |skip| && !skip[i] && skip'[i] {
      assert Unset(skip')[i] < Unset(skip)[i];
    }
  }

  /** One more than the most the potential can be with this many addresses. */
  function Span(addresses: nat): nat { 7 * MAXHOSTS + addresses + MAXHOSTS + 1 }

  lemma PotentialBounded(status: seq<nat>, down: seq<bool>, skip: seq<bool>)
    requires |status| == |skip| == MAXHOSTS
    ensures Potential(status, down, skip) < Span(|down|)
  {
    TotalBounded(Levels(status), 7);
    TotalBounded(Unset(down), 1);
    TotalBounded(Unset(skip), 1);
  }

  function Patience(busyCount: nat): nat { if busyCount > PATIENCE then 0 else PATIENCE + 1 - busyCount }

  // ---------------------------------------------------------------- rows that can serve a call

  /** What choosing a connection goes by: the volume's status by row, the addresses that are
      down, and the rows this request is to pass over. */
  datatype Scene = Scene(status: seq<nat>, down: seq<bool>, pass: seq<bool>)

  ghost predicate SceneOk(t: Topology, v: Scene) {
    TopologyOk(t) && |v.status| == |v.pass| == MAXHOSTS && |v.down| == |t.owner|
  }

  /** A row the search gets to: NONE ends the list. */
  ghost predicate Listed(t: Topology, i: nat)
    requires |t.hosts| == MAXHOSTS
  {
    i < MAXHOSTS && forall k | 0 <= k <= i :: t.hosts[k] != NONE
  }

  ghost predicate SomeUp(t: Topology, v: Scene, i: nat)
    requires SceneOk(t, v) && i < MAXHOSTS && t.hosts[i] != NONE
  {
    exists k :: 0 <= k < |t.addrs[t.hosts[i]]| && !v.down[t.addrs[t.hosts[i]][k]]
  }

  /** A row that could serve the call. */
  ghost predicate Candidate(t: Topology, v: Scene, i: nat)
    requires SceneOk(t, v)
  {
    Listed(t, i) && !v.pass[i] && v.status[i] <= END_NOT_BUSY && SomeUp(t, v, i)
  }

  ghost predicate ServedBy(t: Topology, v: Scene, sa: int, row: nat)
    requires SceneOk(t, v)
  {
    && Candidate(t, v, row) && 0 <= sa < |v.down| && !v.down[sa]
    && sa in t.addrs[t.hosts[row]] && t.owner[sa] == t.hosts[row]
  }

  /** Row 0, if it is not busy and its first address is up, is taken at once. */
  ghost predicate Shortcut(t: Topology, v: Scene)
    requires SceneOk(t, v)
  {
    v.status[0] == NOT_BUSY && t.hosts[0] != NONE && !v.down[t.addrs[t.hosts[0]][0]] && !v.pass[0]
  }

  ghost predicate BusyRow(t: Topology, v: Scene, i: nat)
    requires SceneOk(t, v)
  {
    Listed(t, i) && !v.pass[i] && (v.status[i] == RD_BUSY || v.status[i] == RDWR_BUSY)
  }

  ghost predicate BusyBefore(t: Topology, v: Scene, n: nat)
    requires SceneOk(t, v)
  {
    exists i: nat :: i < n && BusyRow(t, v, i)
  }

  ghost predicate SeesBusy(t: Topology, v: Scene)
    requires SceneOk(t, v)
  {
    BusyBefore(t, v, MAXHOSTS)
  }

  /** No listed row below n is at this level and can serve. */
  ghost predicate NoneAt(t: Topology, v: Scene, level: nat, n: nat)
    requires SceneOk(t, v)
  {
    forall i: nat | i < n :: !(Candidate(t, v, i) && v.status[i] == level)
  }

  ghost predicate AtLeast(t: Topology, v: Scene, level: nat)
    requires SceneOk(t, v)
  {
    forall i: nat | i < MAXHOSTS && Candidate(t, v, i) :: level <= v.status[i]
  }

  /** No address of row i that is up is nearer than this one. */
  ghost predicate NoneNearer(t: Topology, v: Scene, i: nat, sa: int)
    requires SceneOk(t, v) && i < MAXHOSTS && t.hosts[i] != NONE && 0 <= sa < |t.rank|
  {
    forall k | 0 <= k < |t.addrs[t.hosts[i]]| && !v.down[t.addrs[t.hosts[i]][k]] ::
      t.rank[sa] <= t.rank[t.addrs[t.hosts[i]][k]]
  }

  /** The nearest of all addresses on rows below n that are at this level and can serve. */
  ghost predicate NearestAt(t: Topology, v: Scene, level: nat, n: nat, sa: int)
    requires SceneOk(t, v) && 0 <= sa < |t.rank|
  {
    forall i: nat | i < n && Candidate(t, v, i) && v.status[i] == level :: NoneNearer(t, v, i, sa)
  }

  ghost predicate NoCandidate(t: Topology, v: Scene)
    requires SceneOk(t, v)
  {
    forall i: nat | i < MAXHOSTS :: !Candidate(t, v, i)
  }

  ghost predicate AllIn(down: seq<bool>, list: seq<nat>) {
    forall k | 0 <= k < |list| :: list[k] < |down| && down[list[k]]
  }

  ghost predicate AllDown(t: Topology, v: Scene, i: nat)
    requires SceneOk(t, v) && i < MAXHOSTS && t.hosts[i] != NONE
  {
    AllIn(v.down, t.addrs[t.hosts[i]])
  }

  lemma RowStep(t: Topology, v: Scene, level: nat, i: nat)
    requires SceneOk(t, v) && level <= END_NOT_BUSY && i < MAXHOSTS && forall k | 0 <= k <= i :: t.hosts[k] != NONE
    ensures Candidate(t, v, i) <==> !v.pass[i] && v.status[i] <= END_NOT_BUSY && !AllDown(t, v, i)
    ensures NoneAt(t, v, level, i + 1) <==>
            NoneAt(t, v, level, i) && (v.pass[i] || v.status[i] != level || AllDown(t, v, i))
    ensures BusyBefore(t, v, i + 1) <==>
            BusyBefore(t, v, i) || (!v.pass[i] && (v.status[i] == RD_BUSY || v.status[i] == RDWR_BUSY))
  {
    if BusyBefore(t, v, i) {
      var k: nat :| k < i && BusyRow(t, v, k);
      assert k < i + 1;
    }
    assert Listed(t, i);
    if !v.pass[i] && (v.status[i] == RD_BUSY || v.status[i] == RDWR_BUSY) { assert BusyRow(t, v, i); }
  }

  /** Nothing has changed but the two marks a search may leave. */
  ghost predicate Marked(was: Req, now: Req, status: seq<nat>) {
    && now == was.(busyCount := now.busyCount, volumeError := now.volumeError)
    && (now.volumeError == was.volumeError || (OFFLINE in status && was.volumeError == 0 && now.volumeError == VOLMISSING))
  }

  /** What the passes below this level have come to. */
  ghost predicate Searched(t: Topology, v: Scene, was: Req, now: Req, level: nat, lowp: int, row: nat)
    requires SceneOk(t, v)
  {
    && Marked(was, now, v.status)
    && now.busyCount == (if level > 0 && was.busyCount == 0 && SeesBusy(t, v) then 1 else was.busyCount)
    && (lowp != NONE ==> level > 0 && ServedBy(t, v, lowp, row) && row < MAXHOSTS && AtLeast(t, v, v.status[row]) &&
                         0 <= lowp < |t.rank| && NearestAt(t, v, v.status[row], MAXHOSTS, lowp))
    && (lowp == NONE ==> AtLeast(t, v, level) && (level == END_NOT_BUSY + 1 ==> NoCandidate(t, v)))
  }

  lemma SearchedMore(t: Topology, v: Scene, was: Req, now: Req, now': Req, level: nat, lowp: int, row: nat)
    requires SceneOk(t, v) && level <= END_NOT_BUSY && Searched(t, v, was, now, level, NONE, 0) && Marked(now, now', v.status)
    requires now'.busyCount == if now.busyCount == 0 && SeesBusy(t, v) then 1 else now.busyCount
    requires lowp == NONE <==> NoneAt(t, v, level, MAXHOSTS)
    requires lowp != NONE ==> ServedBy(t, v, lowp, row) && row < MAXHOSTS && v.status[row] == level &&
                              0 <= lowp < |t.rank| && NearestAt(t, v, level, MAXHOSTS, lowp)
    ensures Searched(t, v, was, now', level + 1, lowp, row)
  {
    hide NoneAt, ServedBy, SeesBusy, AtLeast, NoCandidate, SceneOk, NearestAt;
    if lowp == NONE {
      NextLevel(t, v, level);
    }
  }

  lemma SearchedEnd(t: Topology, v: Scene, was: Req, now: Req, level: nat, lowp: int, row: nat)
    requires SceneOk(t, v) && Searched(t, v, was, now, level, lowp, row) && (lowp != NONE || level == END_NOT_BUSY + 1)
    ensures lowp == NONE <==> NoCandidate(t, v)
    ensures Marked(was, now, v.status)
    ensures now.busyCount == if was.busyCount == 0 && SeesBusy(t, v) then 1 else was.busyCount
    ensures lowp != NONE ==> ServedBy(t, v, lowp, row) && row < MAXHOSTS && AtLeast(t, v, v.status[row]) &&
                             0 <= lowp < |t.rank| && NearestAt(t, v, v.status[row], MAXHOSTS, lowp)
  {
    hide ServedBy, SeesBusy, AtLeast, NoCandidate, SceneOk, NearestAt;
    if lowp != NONE {
      ServedSome(t, v, lowp, row);
    }
  }

  /** What a pass at this level has come to after the first n rows. */
  ghost predicate PassedRows(t: Topology, v: Scene, level: nat, was: Req, now: Req, n: nat, lowp: int, row: nat)
    requires SceneOk(t, v)
  {
    && Marked(was, now, v.status)
    && now.busyCount == (if was.busyCount == 0 && BusyBefore(t, v, n) then 1 else was.busyCount)
    && (lowp == NONE <==> NoneAt(t, v, level, n))
    && (lowp != NONE ==> ServedBy(t, v, lowp, row) && row < MAXHOSTS && v.status[row] == level &&
                         0 <= lowp < |t.rank| && NearestAt(t, v, level, n, lowp))
  }

  /** What is noted of a row that is not at the level looked for. */
  function Noted(r: Req, status: nat): Req {
    if status == RD_BUSY || status == RDWR_BUSY then r.(busyCount := if r.busyCount == 0 then 1 else r.busyCount)
    else if status == OFFLINE then r.(volumeError := if r.volumeError == 0 then VOLMISSING else r.volumeError)
    else r
  }

  lemma RowPassed(t: Topology, v: Scene, level: nat, was: Req, now: Req, now': Req, n: nat,
                  lowp: int, row: nat, lowp': int, row': nat)
    requires SceneOk(t, v) && level <= END_NOT_BUSY && n < MAXHOSTS && forall k | 0 <= k <= n :: t.hosts[k] != NONE
    requires PassedRows(t, v, level, was, now, n, lowp, row)
    requires if v.pass[n] then now' == now && lowp' == lowp && row' == row
             else if v.status[n] != level then now' == Noted(now, v.status[n]) && lowp' == lowp && row' == row
             else now' == now && (lowp' == NONE <==> lowp == NONE && AllDown(t, v, n)) &&
                  ((lowp' == lowp && row' == row) || (ServedBy(t, v, lowp', n) && row' == n)) &&
                  (lowp' != NONE ==> 0 <= lowp' < |t.rank| && NoneNearer(t, v, n, lowp') &&
                                     (lowp != NONE ==> t.rank[lowp'] <= t.rank[lowp]))
    ensures PassedRows(t, v, level, was, now', n + 1, lowp', row')
  {
    hide Candidate, NoneAt, BusyBefore, ServedBy, AllDown, TopologyOk, NearestAt, NoneNearer;
    RowStep(t, v, level, n);
    if lowp' != NONE {
      if !v.pass[n] && v.status[n] == level {
        if lowp == NONE { NoneYet(t, v, level, n, lowp'); } else { NearerStill(t, v, level, n, lowp, lowp'); }
      }
      NearestWithRow(t, v, level, n, lowp');
    }
  }

  lemma NoneYet(t: Topology, v: Scene, level: nat, n: nat, sa: int)
    requires SceneOk(t, v) && 0 <= sa < |t.rank| && NoneAt(t, v, level, n)
    ensures NearestAt(t, v, level, n, sa)
  {
  }

  lemma NearerStill(t: Topology, v: Scene, level: nat, n: nat, sa: int, sa': int)
    requires SceneOk(t, v) && 0 <= sa < |t.rank| && 0 <= sa' < |t.rank| && t.rank[sa'] <= t.rank[sa]
    requires NearestAt(t, v, level, n, sa)
    ensures NearestAt(t, v, level, n, sa')
  {
    hide TopologyOk;
    forall i: nat | i < n && Candidate(t, v, i) && v.status[i] == level ensures NoneNearer(t, v, i, sa') {
      assert NoneNearer(t, v, i, sa);
    }
  }

  lemma NearestWithRow(t: Topology, v: Scene, level: nat, n: nat, sa: int)
    requires SceneOk(t, v) && n < MAXHOSTS && t.hosts[n] != NONE && 0 <= sa < |t.rank| && NearestAt(t, v, level, n, sa)
    requires v.pass[n] || v.status[n] != level || NoneNearer(t, v, n, sa)
    ensures NearestAt(t, v, level, n + 1, sa)
  {
    hide NoneNearer, TopologyOk;
  }

  lemma NearestToTheEnd(t: Topology, v: Scene, level: nat, i: nat, sa: int)
    requires SceneOk(t, v) && i <= MAXHOSTS && (i == MAXHOSTS || t.hosts[i] == NONE) && 0 <= sa < |t.rank|
    requires NearestAt(t, v, level, i, sa)
    ensures NearestAt(t, v, level, MAXHOSTS, sa)
  {
    hide NoneNearer, TopologyOk;
  }

  lemma NoRowsYet(t: Topology, v: Scene, level: nat)
    requires SceneOk(t, v)
    ensures NoneAt(t, v, level, 0) && !BusyBefore(t, v, 0)
  {
  }

  lemma EndOfRows(t: Topology, v: Scene, level: nat, i: nat)
    requires SceneOk(t, v) && i <= MAXHOSTS && (i == MAXHOSTS || t.hosts[i] == NONE)
    ensures NoneAt(t, v, level, MAXHOSTS) <==> NoneAt(t, v, level, i)
    ensures SeesBusy(t, v) <==> BusyBefore(t, v, i)
  {
    if BusyBefore(t, v, i) {
      var k: nat :| k < i && BusyRow(t, v, k);
      assert k < MAXHOSTS;
    }
  }

  lemma ServedSome(t: Topology, v: Scene, sa: int, row: nat)
    requires SceneOk(t, v) && ServedBy(t, v, sa, row)
    ensures !NoCandidate(t, v) && row < MAXHOSTS && v.status[row] <= END_NOT_BUSY && !v.pass[row]
  {
  }

  lemma RowServes(t: Topology, v: Scene, sa: int, i: nat)
    requires SceneOk(t, v) && i < MAXHOSTS && (forall k | 0 <= k <= i :: t.hosts[k] != NONE)
    requires !v.pass[i] && v.status[i] <= END_NOT_BUSY
    requires 0 <= sa < |v.down| && !v.down[sa] && sa in t.addrs[t.hosts[i]] && t.owner[sa] == t.hosts[i]
    ensures ServedBy(t, v, sa, i) && !AllDown(t, v, i)
  {
    RowStep(t, v, v.status[i], i);
  }

  lemma ShortcutServes(t: Topology, v: Scene)
    requires SceneOk(t, v) && Shortcut(t, v)
    ensures ServedBy(t, v, t.addrs[t.hosts[0]][0], 0) && AtLeast(t, v, v.status[0])
  {
    assert Listed(t, 0) && SomeUp(t, v, 0);
  }

  lemma NoShortcut(t: Topology, v: Scene)
    requires SceneOk(t, v) && NoCandidate(t, v)
    ensures !Shortcut(t, v)
  {
    if Shortcut(t, v) {
      ShortcutServes(t, v);
    }
  }

  lemma NoShortcutIfNone(t: Topology, v: Scene)
    requires SceneOk(t, v)
    ensures NoCandidate(t, v) ==> !Shortcut(t, v)
  {
    if NoCandidate(t, v) { NoShortcut(t, v); }
  }

  lemma StillUp(t: Topology, v: Scene, v': Scene, row: nat)
    requires SceneOk(t, v) && SceneOk(t, v') && v'.down == v.down && row < MAXHOSTS && t.hosts[row] != NONE
    requires SomeUp(t, v, row)
    ensures SomeUp(t, v', row)
  {
  }

  lemma FromTheStart(t: Topology, v: Scene)
    requires SceneOk(t, v)
    ensures AtLeast(t, v, 0)
  {
  }

  lemma NextLevel(t: Topology, v: Scene, level: nat)
    requires SceneOk(t, v) && AtLeast(t, v, level) && NoneAt(t, v, level, MAXHOSTS)
    ensures AtLeast(t, v, level + 1)
    ensures level == END_NOT_BUSY ==> NoCandidate(t, v)
  {
  }

  /** The nearest address of a row that is up, if nearer than `lowp`. */
  method Nearest(t: Topology, down: seq<bool>, i: nat, lowp: int) returns (best: int)
    requires TopologyOk(t) && |down| == |t.owner| && i < MAXHOSTS && t.hosts[i] != NONE
    requires lowp == NONE || 0 <= lowp < |t.rank|
    ensures best == NONE <==> lowp == NONE && AllIn(down, t.addrs[t.hosts[i]])
    ensures best == lowp || (0 <= best < |down| && !down[best] && best in t.addrs[t.hosts[i]] && t.owner[best] == t.hosts[i])
    ensures best != NONE && lowp != NONE ==> t.rank[best] <= t.rank[lowp]
    ensures best != NONE ==> forall k | 0 <= k < |t.addrs[t.hosts[i]]| && !down[t.addrs[t.hosts[i]][k]] ::
                t.rank[best] <= t.rank[t.addrs[t.hosts[i]][k]]
  {
    best := lowp;
    var list := t.addrs[t.hosts[i]];
    for k := 0 to |list|
      invariant best == NONE <==> lowp == NONE && forall j | 0 <= j < k :: down[list[j]]
      invariant best == lowp || (0 <= best < |down| && !down[best] && best in list && t.owner[best] == t.hosts[i])
      invariant best != NONE && lowp != NONE ==> t.rank[best] <= t.rank[lowp]
      invariant best != NONE ==> forall j | 0 <= j < k && !down[list[j]] :: t.rank[best] <= t.rank[list[j]]
    {
      if !down[list[k]] && (best == NONE || t.rank[best] > t.rank[list[k]]) {
        best := list[k];
      }
    }
  }

  lemma RankFits(b: nat, l: nat, span: nat)
    requires b <= PATIENCE + 1 && l < span
    ensures b * span + l < (PATIENCE + 2) * span
  {
    var d: nat := PATIENCE + 1 - b;
    assert (b + d) * span == b * span + d * span;
    assert (PATIENCE + 2) * span == (b + d) * span + span;
  }

  /** Connecting may cost patience; a retry costs patience, or some of the potential. */
  lemma RankFalls(b: nat, l: nat, b1: nat, l1: nat, b2: nat, l2: nat, span: nat)
    requires b1 <= b && l1 == l && l2 < span
    requires b2 < b1 || (b2 == b1 && l2 < l1)
    ensures b2 * span + l2 < b * span + l
  {
    if b2 < b {
      assert (b2 + 1) * span <= b * span;
    }
  }

  lemma SameList(a: seq<int>, b: seq<int>, n: nat)
    requires |a| == |b| == MAXHOSTS && n <= MAXHOSTS
    requires Compact(a) && Compact(b)
    requires n < MAXHOSTS ==> a[n] == b[n] == NONE
    requires forall k | 0 <= k < n :: a[k] == b[k]
    ensures a == b
  {
  }

  /** The status after a missing volume: the server's listed rows go up a level, or offline from the
      last one; the others start over if the list of hosts has changed. */
  ghost function Missing(t: Topology, status: seq<nat>, tsp: nat, changed: bool): seq<nat>
    requires |t.hosts| == |status| == MAXHOSTS
  {
    seq(MAXHOSTS, i requires 0 <= i < MAXHOSTS =>
      if !Listed(t, i) then status[i]
      else if t.hosts[i] == tsp then (if status[i] == END_NOT_BUSY then OFFLINE else status[i] + 1)
      else if changed then NOT_BUSY else status[i])
  }

  /** The status after `times` missing-volume answers of one server, the list of hosts unchanged. */
  ghost function MissingTimes(t: Topology, status: seq<nat>, tsp: nat, times: nat): (r: seq<nat>)
    requires |t.hosts| == |status| == MAXHOSTS
    ensures |r| == MAXHOSTS
  {
    if times == 0 then status else Missing(t, MissingTimes(t, status, tsp, times - 1), tsp, false)
  }

  /** A row can be used until its server has missed the volume once for each level it has left; then
      it is offline, and at no time does it look busy.  Other rows are not touched. */
  lemma {:induction false} OfflineAfterAllLevels(t: Topology, status: seq<nat>, tsp: nat, times: nat, i: nat)
    requires |t.hosts| == |status| == MAXHOSTS && Listed(t, i) && status[i] <= END_NOT_BUSY
    requires times <= LevelsLeft(status[i])
    ensures t.hosts[i] == tsp && times < LevelsLeft(status[i]) ==>
              MissingTimes(t, status, tsp, times)[i] == status[i] + times <= END_NOT_BUSY
    ensures t.hosts[i] == tsp && times == LevelsLeft(status[i]) ==> MissingTimes(t, status, tsp, times)[i] == OFFLINE
    ensures t.hosts[i] != tsp ==> MissingTimes(t, status, tsp, times)[i] == status[i]
  {
    if times > 0 {
      OfflineAfterAllLevels(t, status, tsp, times - 1, i);
    }
  }

  // ---------------------------------------------------------------- when to go on

  /** A row is passed over when it is marked and some call has timed out. */
  ghost function PassedOver(r: Req): seq<bool>
    requires |r.skip| == MAXHOSTS
  {
    seq(MAXHOSTS, i requires 0 <= i < MAXHOSTS => r.idleError > 0 && r.skip[i])
  }

  /** All that a round goes by. */
  datatype Moment = Moment(t: Topology, req: Req, status: seq<nat>, down: seq<bool>)

  ghost predicate MomentOk(m: Moment) {
    TopologyOk(m.t) && |m.req.skip| == |m.status| == MAXHOSTS && |m.down| == |m.t.owner|
  }

  ghost function Sight(m: Moment): Scene
    requires MomentOk(m)
  {
    Scene(m.status, m.down, PassedOver(m.req))
  }

  /** No row can serve the next call. */
  ghost predicate Stuck(m: Moment)
    requires MomentOk(m)
  {
    NoCandidate(m.t, Sight(m))
  }

  /** The busy count once the rows have been searched in vain. */
  ghost function Counted(m: Moment): nat
    requires MomentOk(m)
  {
    if m.req.busyCount == 0 && SeesBusy(m.t, Sight(m)) then 1 else m.req.busyCount
  }

  ghost predicate Retryable(o: Outcome) {
    o in {NetworkFailure, TooLarge, Busy, Restarting, UbikError} || o.MissingVolume?
  }

  ghost predicate HostLeft(m: Moment)
    requires MomentOk(m)
  {
    exists i :: 0 <= i < MAXHOSTS && m.t.hosts[i] != NONE && !m.req.skip[i]
  }

  /** Exactly when a round asks for another.  When some row can serve the call it is made, and its
      outcome decides; when none can, only a known request that has met busy hosts waits, as long as
      its patience lasts and some row is not offline. */
  ghost predicate GoesOn(m: Moment, o: Outcome, m': Moment)
    requires MomentOk(m) && MomentOk(m')
  {
    if Stuck(m) then m.req.initd && 0 < Counted(m) <= PATIENCE && exists i :: 0 <= i < MAXHOSTS && m.status[i] != OFFLINE
    else if o == IdleTimeout then HostLeft(m')
    else Retryable(o)
  }

  /** A round that ends the request although no call gave a final answer leaves no row that could serve
      it, or has lost its patience with a busy volume. */
  ghost predicate NothingLeft(m: Moment, o: Outcome, m': Moment)
    requires MomentOk(m) && MomentOk(m')
  {
    (m.req.initd || m.req == FreshReq()) && (Stuck(m) || Retryable(o) || o == IdleTimeout) ==>
      Stuck(m') || m'.req.volumeError == VOLBUSY
  }

  ghost predicate Decided(m: Moment, o: Outcome, m': Moment, again: bool) {
    && MomentOk(m) && MomentOk(m')
    && (again <==> GoesOn(m, o, m'))
    && (!again ==> NothingLeft(m, o, m'))
  }

  lemma NoMoreCandidates(t: Topology, v: Scene, v': Scene)
    requires SceneOk(t, v) && SceneOk(t, v') && NoCandidate(t, v) && v'.down == v.down && v'.pass == v.pass
    requires forall i | 0 <= i < MAXHOSTS :: v'.status[i] == v.status[i] || v'.status[i] == OFFLINE
    ensures NoCandidate(t, v')
  {
    forall i: nat | i < MAXHOSTS && Candidate(t, v', i) ensures false {
      assert !Candidate(t, v, i);
      StillUp(t, v', v, i);
    }
  }

  lemma AllSkipped(m: Moment)
    requires MomentOk(m) && m.req.idleError > 0 && !HostLeft(m)
    ensures Stuck(m)
  {
    forall i: nat | i < MAXHOSTS ensures !Candidate(m.t, Sight(m), i) {
      if m.t.hosts[i] != NONE { assert m.req.skip[i] && Sight(m).pass[i]; }
    }
  }

  /** The decision when no connection could be had. */
  lemma NoCallDecides(m: Moment, searched: Req, o: Outcome, m': Moment, again: bool)
    requires MomentOk(m) && MomentOk(m') && Stuck(m) && m'.t == m.t && m'.down == m.down
    requires searched == m.req.(busyCount := Counted(m), volumeError := searched.volumeError)
    requires !m.req.initd ==>
               !again && m'.status == m.status && m'.req == FreshReq().(initd := true, networkError := true)
    requires m.req.initd && Counted(m) == 0 ==>
               !again && m'.status == m.status && m'.req == searched.(networkError := m'.req.networkError)
    requires m.req.initd && Counted(m) > 0 ==>
               && (forall i | 0 <= i < MAXHOSTS :: m'.status[i] == if m.status[i] == OFFLINE then OFFLINE else NOT_BUSY)
               && (again <==> Counted(m) <= PATIENCE && exists i :: 0 <= i < MAXHOSTS && m'.status[i] == NOT_BUSY)
               && m'.req == searched.(busyCount := m'.req.busyCount, volumeError := m'.req.volumeError)
               && (Counted(m) > PATIENCE ==> m'.req.volumeError == VOLBUSY)
    ensures Decided(m, o, m', again)
  {
    hide NoCandidate, SeesBusy, TopologyOk, Counted, Candidate;
    if i :| 0 <= i < MAXHOSTS && m.status[i] != OFFLINE && m.req.initd && Counted(m) > 0 {
      assert m'.status[i] == NOT_BUSY;
    }
    if !again && (m.req.initd || m.req == FreshReq()) && m'.req.volumeError != VOLBUSY {
      assert Sight(m').pass == Sight(m).pass;
      NoMoreCandidates(m.t, Sight(m), Sight(m'));
    }
  }

  /** The decision on a call that was made. */
  lemma CallDecides(m: Moment, o: Outcome, m': Moment, again: bool)
    requires MomentOk(m) && MomentOk(m') && !Stuck(m)
    requires if o == IdleTimeout then m'.req.idleError > 0 && (again <==> HostLeft(m')) else again <==> Retryable(o)
    ensures Decided(m, o, m', again)
  {
    hide NoCandidate, HostLeft;
    if o == IdleTimeout && !again {
      AllSkipped(m');
    }
  }

  /** The moments of a request, round after round: every round but the last asked for another, and
      the last did if `again`. */
  ghost predicate Course(run: seq<Moment>, outcomes: nat -> Outcome, again: bool) {
    forall i: nat | i + 1 < |run| :: Decided(run[i], outcomes(i), run[i + 1], i + 2 < |run| || again)
  }

  lemma CourseGrows(run: seq<Moment>, outcomes: nat -> Outcome, m: Moment, again: bool)
    requires run != [] && Course(run, outcomes, true)
    requires Decided(run[|run| - 1], outcomes(|run| - 1), m, again)
    ensures Course(run + [m], outcomes, again)
  {
    hide Decided;
    var more := run + [m];
    forall i: nat | i + 1 < |more| ensures Decided(more[i], outcomes(i), more[i + 1], i + 2 < |more| || again) {
      if i + 1 < |run| {
        assert Decided(run[i], outcomes(i), run[i + 1], true);
      }
    }
  }

  /** The rounds since `first` and those that the rank still allows are within the bound, which is
      twice as much once the list of hosts has changed for the last time. */
  ghost predicate Within(rounds: nat, first: nat, steady: bool, again: bool, final: bool, rank: nat, most: nat) {
    rounds >= first ==>
      if again then rounds - first + rank < (if final && !steady then 2 * most else most)
      else rounds <= first + if steady then most else 2 * most
  }

  lemma WithinEnds(first: nat, steady: bool, most: nat)
    requires first > 0
    ensures forall final, rank: nat :: Within(0, first, steady, true, final, rank, most)
    ensures forall rounds: nat, final, rank: nat :: Within(rounds, first, steady, false, final, rank, most) ==>
              rounds <= first + if steady then most else 2 * most
  {
  }

  lemma WithinStep(rounds: nat, first: nat, steady: bool, final: bool, rank: nat, again: bool, final': bool, rank': nat, most: nat)
    requires Within(rounds, first, steady, true, final, rank, most) && rank' < most && (steady ==> final)
    requires rounds >= first && again ==> (final' == final && rank' < rank) || (!final && final')
    ensures Within(rounds + 1, first, steady, again, final', rank', most)
  {
  }

  lemma NothingLeftToTry(m: Moment, o: Outcome, m': Moment)
    requires Decided(m, o, m', false) && (m.req.initd || m.req == FreshReq())
    ensures MomentOk(m') && (Retryable(o) || o == IdleTimeout ==> Stuck(m') || m'.req.volumeError == VOLBUSY)
  {
  }

  /** One request, the status of the volume on each of its hosts, and what is known to be down. */
  class Client {
    var topology: Topology
    var req: Req
    var status: seq<nat>
    var down: seq<bool>
    var serverDown: seq<bool>

    ghost predicate Sized()
      reads this
    {
      && TopologyOk(topology) && |req.skip| == |status| == MAXHOSTS
      && |down| == |topology.owner| && |serverDown| == |topology.addrs|
    }

    /** A server is down only when all its addresses are; a host is skipped only after a call
        to it has timed out. */
    ghost predicate Valid()
      reads this
    {
      && Sized()
      && (forall s, k | 0 <= s < |serverDown| && serverDown[s] && 0 <= k < |topology.addrs[s]| :: down[topology.addrs[s][k]])
      && (forall i | 0 <= i < MAXHOSTS && req.skip[i] :: req.idleError > 0)
    }

    /** A fresh request for a volume with this status, when these addresses are known to be down. */
    constructor (t: Topology, volume: seq<nat>, unreachable: seq<bool>)
      requires TopologyOk(t) && |volume| == MAXHOSTS && |unreachable| == |t.owner|
      ensures Valid() && topology == t && status == volume && req == FreshReq() && down == unreachable
    {
      topology, status, req, down := t, volume, FreshReq(), unreachable;
      serverDown := seq(|t.addrs|, _ => false);
    }

    ghost function Left(): nat
      reads this
    {
      Potential(status, down, req.skip)
    }

    ghost function View(): Scene
      reads this
      requires Sized()
    {
      Scene(status, down, PassedOver(req))
    }

    ghost function Now(): Moment
      reads this
    {
      Moment(topology, req, status, down)
    }

    // ------------------------------------------------------------ choosing a connection

    /** Nothing has changed but the two marks a search may leave. */
    twostate predicate OnlyMarked()
      reads this
    {
      Marked(old(req), req, status)
    }

    /** What the search notes of a row it cannot use at this level. */
    method Note(i: nat)
      requires Valid() && i < |status|
      modifies this`req
      ensures Valid() && View() == old(View())
      ensures req == Noted(old(req), status[i])
    {
      hide TopologyOk;
      if status[i] == RD_BUSY || status[i] == RDWR_BUSY {
        if req.busyCount == 0 {
          req := req.(busyCount := 1);
        }
      } else if status[i] == OFFLINE {
        if req.volumeError == 0 {
          req := req.(volumeError := VOLMISSING);
        }
      }
    }

    /** One row looked at: the best address so far at this level, or a note of why it is no use. */
    method Row(level: nat, i: nat, lowp0: int, ghost row0: nat, ghost was: Req) returns (lowp: int, ghost row: nat)
      requires Valid() && level <= END_NOT_BUSY && i < MAXHOSTS && forall k | 0 <= k <= i :: topology.hosts[k] != NONE
      requires PassedRows(topology, View(), level, was, req, i, lowp0, row0)
      modifies this`req
      ensures Valid() && View() == old(View())
      ensures PassedRows(topology, View(), level, was, req, i + 1, lowp, row)
    {
      ghost var v := View();
      assert |topology.hosts| == |req.skip| == |status| == MAXHOSTS && |topology.rank| == |down|;
      assert TopologyOk(topology) && SceneOk(topology, v) && v.status == status && v.down == down;
      assert v.pass[i] == (req.idleError > 0 && req.skip[i]);
      hide Candidate, ServedBy, AllDown, TopologyOk, PassedRows, Valid, View, SceneOk, NoneAt, BusyBefore, NearestAt;
      ghost var before := req;
      lowp, row := lowp0, row0;
      if !(req.idleError > 0 && req.skip[i]) {
        if status[i] != level {
          Note(i);
        } else {
          lowp := Nearest(topology, down, i, lowp0);
          if lowp != lowp0 {
            RowServes(topology, v, lowp, i);
            row := i;
          }
        }
      }
      RowPassed(topology, v, level, was, before, req, i, lowp0, row0, lowp, row);
    }

    /** One pass over the rows, for hosts at this level. */
    method Pass(level: nat) returns (lowp: int, ghost row: nat)
      requires Valid() && level <= END_NOT_BUSY
      modifies this`req
      ensures OnlyMarked() && Valid() && View() == old(View())
      ensures req.busyCount == if old(req.busyCount) == 0 && SeesBusy(topology, View()) then 1 else old(req.busyCount)
      ensures lowp == NONE <==> NoneAt(topology, View(), level, MAXHOSTS)
      ensures lowp != NONE ==> ServedBy(topology, View(), lowp, row) && status[row] == level &&
                               NearestAt(topology, View(), level, MAXHOSTS, lowp)
    {
      ghost var v, was := View(), req;
      assert |topology.hosts| == MAXHOSTS;
      hide Candidate, NoneAt, BusyBefore, SeesBusy, ServedBy, TopologyOk, NearestAt;
      lowp, row := NONE, 0;
      NoRowsYet(topology, v, level);
      var i := 0;
      while i < MAXHOSTS && topology.hosts[i] != NONE
        invariant i <= MAXHOSTS && forall k | 0 <= k < i :: topology.hosts[k] != NONE
        invariant Valid() && View() == v && PassedRows(topology, v, level, was, req, i, lowp, row)
      {
        lowp, row := Row(level, i, lowp, row, was);
        i := i + 1;
      }
      EndOfRows(topology, v, level, i);
      if lowp != NONE { NearestToTheEnd(topology, v, level, i, lowp); }
    }

    /** The passes, from the best level on, until one finds an address. */
    method Passes() returns (lowp: int, ghost row: nat)
      requires Valid()
      modifies this`req
      ensures Valid() && View() == old(View()) && Marked(old(req), req, status)
      ensures req.busyCount == if old(req.busyCount) == 0 && SeesBusy(topology, View()) then 1 else old(req.busyCount)
      ensures lowp == NONE <==> NoCandidate(topology, View())
      ensures lowp != NONE ==> ServedBy(topology, View(), lowp, row) && row < MAXHOSTS && AtLeast(topology, View(), View().status[row]) &&
                               0 <= lowp < |topology.rank| && NearestAt(topology, View(), View().status[row], MAXHOSTS, lowp)
    {
      ghost var v, was := View(), req;
      assert SceneOk(topology, v) && v.status == status && Valid() && |topology.rank| == |v.down|;
      hide NearestAt, NoneAt, Candidate, ServedBy, SeesBusy, AtLeast, NoCandidate, TopologyOk, Listed, Valid, View;
      lowp, row := NONE, 0;
      FromTheStart(topology, v);
      assert Searched(topology, v, was, req, 0, NONE, 0);
      hide Searched, Marked, SceneOk;
      var notbusy: nat := NOT_BUSY;
      while lowp == NONE && notbusy <= END_NOT_BUSY
        invariant notbusy <= END_NOT_BUSY + 1 && Valid() && View() == v && (lowp == NONE ==> row == 0)
        invariant Searched(topology, v, was, req, notbusy, lowp, row)
      {
        ghost var before := req;
        ghost var r;
        lowp, r := Pass(notbusy);
        SearchedMore(topology, v, was, before, req, notbusy, lowp, r);
        row := if lowp == NONE then 0 else r;
        notbusy := notbusy + 1;
      }
      SearchedEnd(topology, v, was, req, notbusy, lowp, row);
    }

    /** Picks an address exactly when some row can serve the call, on a row of the least level in
        use, and the nearest of all on rows of that level unless row 0 is taken at once.  Finding a
        busy row on the way starts the busy count. */
    method Conn() returns (lowp: int, ghost row: nat)
      requires Valid()
      modifies this`req
      ensures OnlyMarked() && Valid() && View() == old(View())
      ensures req.busyCount == if old(req.busyCount) == 0 && !Shortcut(topology, View()) && SeesBusy(topology, View()) then 1
                               else old(req.busyCount)
      ensures lowp == NONE <==> NoCandidate(topology, View())
      ensures lowp != NONE ==> ServedBy(topology, View(), lowp, row) && AtLeast(topology, View(), status[row])
      ensures Shortcut(topology, View()) ==> lowp == topology.addrs[topology.hosts[0]][0] && row == 0
      ensures !Shortcut(topology, View()) && lowp != NONE ==> NearestAt(topology, View(), status[row], MAXHOSTS, lowp)
    {
      ghost var v := View();
      assert v.pass[0] == (req.idleError > 0 && req.skip[0]);
      hide NearestAt, NoneAt, Candidate, ServedBy, SeesBusy, AtLeast, NoCandidate, Listed;
      if status[0] == NOT_BUSY && topology.hosts[0] != NONE && !down[topology.addrs[topology.hosts[0]][0]] &&
         !(req.idleError > 0 && req.skip[0]) {
        lowp, row := topology.addrs[topology.hosts[0]][0], 0;
        ShortcutServes(topology, v);
        ServedSome(topology, v, lowp, 0);
      } else {
        lowp, row := Passes();
      }
    }

    // ------------------------------------------------------------ support actions

    /** The first look at a request's outcome clears what was noted before it. */
    method FinalizeReq()
      requires Valid()
      modifies this`req
      ensures Valid() && req == if old(req.initd) then old(req) else FreshReq().(initd := true)
    {
      if req.initd {
        return;
      }
      req := FreshReq().(initd := true);
    }

    /** From now on this request passes over a host that timed out, and over every host whose
        first address is down. */
    method BlackListOnce(tsp: nat) returns (left: bool)
      requires Sized()
      modifies this`req
      ensures Sized() && req == old(req).(skip := req.skip)
      ensures forall i | 0 <= i < MAXHOSTS ::
                req.skip[i] == (old(req.skip)[i] || topology.hosts[i] == tsp ||
                                (topology.hosts[i] != NONE && down[topology.addrs[topology.hosts[i]][0]]))
      ensures left <==> exists i :: 0 <= i < MAXHOSTS && topology.hosts[i] != NONE && !req.skip[i]
    {
      var i := 0;
      while i < MAXHOSTS
        invariant i <= MAXHOSTS && |req.skip| == MAXHOSTS && req == old(req).(skip := req.skip)
        invariant forall k | i <= k < MAXHOSTS :: req.skip[k] == old(req.skip)[k]
        invariant forall k | 0 <= k < i ::
                    req.skip[k] == (old(req.skip)[k] || topology.hosts[k] == tsp ||
                                    (topology.hosts[k] != NONE && down[topology.addrs[topology.hosts[k]][0]]))
      {
        if topology.hosts[i] == tsp {
          req := req.(skip := req.skip[i := true]);
        }
        if topology.hosts[i] != NONE && down[topology.addrs[topology.hosts[i]][0]] {
          req := req.(skip := req.skip[i := true]);
        }
        i := i + 1;
      }
      i := 0;
      left := false;
      while i < MAXHOSTS
        invariant i <= MAXHOSTS
        invariant left <==> exists k :: 0 <= k < i && topology.hosts[k] != NONE && !req.skip[k]
      {
        if topology.hosts[i] != NONE && !req.skip[i] {
          left := true;
        }
        i := i + 1;
      }
    }

    /** An address goes down, and its server with the last of them. */
    method MarkDown(sa: nat)
      requires Valid() && sa < |down|
      modifies this`down, this`serverDown
      ensures Valid() && down == old(down)[sa := true]
    {
      if down[sa] {
        return;
      }
      var s := topology.owner[sa];
      down := down[sa := true];
      var k := 0;
      while k < |topology.addrs[s]|
        invariant k <= |topology.addrs[s]| && forall j | 0 <= j < k :: down[topology.addrs[s][j]]
      {
        if !down[topology.addrs[s][k]] {
          return;
        }
        k := k + 1;
      }
      serverDown := serverDown[s := true];
    }

    /** Does nothing for a server that is down as a whole; a server with this address up is not. */
    method ServerDown(sa: nat)
      requires Valid() && sa < |down| && sa in topology.addrs[topology.owner[sa]]
      modifies this`down, this`serverDown
      ensures Valid() && down == old(down)[sa := true]
    {
      if serverDown[topology.owner[sa]] || down[sa] {
        return;
      }
      MarkDown(sa);
    }

    /** Give every row of a server this status. */
    method SetRows(tsp: nat, level: nat)
      requires Sized()
      modifies this`status
      ensures |status| == MAXHOSTS && forall i | 0 <= i < MAXHOSTS ::
                status[i] == if topology.hosts[i] == tsp then level else old(status)[i]
    {
      var i := 0;
      while i < MAXHOSTS
        invariant i <= MAXHOSTS == |status|
        invariant forall k | 0 <= k < MAXHOSTS ::
                    status[k] == if k < i && topology.hosts[k] == tsp then level else old(status)[k]
      {
        if topology.hosts[i] == tsp {
          status := status[i := level];
        }
        i := i + 1;
      }
    }

    /** The volume was not there. */
    method MissedRows(tsp: nat, changed: bool)
      requires Sized()
      modifies this`status
      ensures status == Missing(topology, old(status), tsp, changed)
    {
      var i := 0;
      while i < MAXHOSTS && topology.hosts[i] != NONE
        invariant i <= MAXHOSTS == |status| && forall k | 0 <= k < i :: topology.hosts[k] != NONE
        invariant forall k | i <= k < MAXHOSTS :: status[k] == old(status)[k]
        invariant forall k | 0 <= k < i ::
                    status[k] ==
                      if topology.hosts[k] == tsp then (if old(status)[k] == END_NOT_BUSY then OFFLINE else old(status)[k] + 1)
                      else if changed then NOT_BUSY else old(status)[k]
      {
        if topology.hosts[i] == tsp {
          if status[i] == END_NOT_BUSY {
            status := status[i := OFFLINE];
          } else {
            status := status[i := status[i] + 1];
          }
        } else if changed {
          status := status[i := NOT_BUSY];
        }
        i := i + 1;
      }
    }

    /** Everybody was busy: wait, and start over with every row that is not offline, a hundred
        times at most. */
    method WaitForBusy() returns (retry: bool)
      requires Valid()
      modifies this`req, this`status
      ensures Valid() && req == old(req).(busyCount := req.busyCount, volumeError := req.volumeError)
      ensures forall i | 0 <= i < MAXHOSTS ::
                status[i] == if old(status)[i] == OFFLINE then OFFLINE else NOT_BUSY
      ensures retry <==> old(req.busyCount) <= PATIENCE && exists i :: 0 <= i < MAXHOSTS && status[i] == NOT_BUSY
      ensures req.busyCount == if retry then old(req.busyCount) + 1 else old(req.busyCount)
      ensures req.volumeError == if old(req.busyCount) > PATIENCE then VOLBUSY else old(req.volumeError)
    {
      retry := false;
      var i := 0;
      while i < MAXHOSTS
        invariant i <= MAXHOSTS == |status| && req == old(req)
        invariant forall k | i <= k < MAXHOSTS :: status[k] == old(status)[k]
        invariant forall k | 0 <= k < i :: status[k] == if old(status)[k] == OFFLINE then OFFLINE else NOT_BUSY
        invariant retry <==> exists k :: 0 <= k < i && status[k] == NOT_BUSY
      {
        if status[i] != NOT_BUSY && status[i] != OFFLINE {
          status := status[i := NOT_BUSY];
        }
        if status[i] == NOT_BUSY {
          retry := true;
        }
        i := i + 1;
      }
      if req.busyCount > PATIENCE {
        req := req.(volumeError := VOLBUSY);
        retry := false;
      }
      if retry {
        req := req.(busyCount := req.busyCount + 1);
      }
    }

    // ------------------------------------------------------------ judging an outcome

    /** The call was made at an address that was up, for a row not passed over. */
    ghost predicate Called(sa: int, row: nat)
      reads this
      requires Sized()
    {
      && 0 <= sa < |down| && !down[sa] && row < MAXHOSTS && Listed(topology, row)
      && sa in topology.addrs[topology.hosts[row]] && topology.owner[sa] == topology.hosts[row]
      && status[row] <= END_NOT_BUSY && (req.idleError > 0 ==> !req.skip[row])
    }

    /** The servers of an answer are known, and the list ends with its first gap. */
    ghost predicate Answered(o: Outcome)
      reads this
    {
      o.MissingVolume? && o.answer.Entry? ==> TopologyOk(topology.(hosts := o.answer.hosts))
    }

    /** The list of hosts after an outcome. */
    ghost function Learned(o: Outcome): Topology
      reads this
    {
      if o.MissingVolume? && o.answer.Entry? then topology.(hosts := o.answer.hosts) else topology
    }

    /** Something has been used up: patience, or with no more of that some of the potential. */
    twostate predicate Progress()
      reads this
    {
      || Patience(req.busyCount) < Patience(old(req.busyCount))
      || (Patience(req.busyCount) == Patience(old(req.busyCount)) && Left() < old(Left()))
    }

    /** Every row that is not offline has been given another chance. */
    twostate predicate Waited(retry: bool)
      reads this
      requires |status| == |old(status)| == MAXHOSTS
    {
      && (forall i | 0 <= i < MAXHOSTS :: status[i] == if old(status)[i] == OFFLINE then OFFLINE else NOT_BUSY)
      && req.busyCount == old(req.busyCount) + (if retry then 1 else 0)
      && req == old(req).(busyCount := req.busyCount, volumeError := req.volumeError)
      && req.volumeError == if old(req.busyCount) > PATIENCE then VOLBUSY else old(req.volumeError)
    }

    /** The server's rows are busy, and nothing else has changed but the count. */
    twostate predicate RowsBusy(sa: nat)
      reads this
      requires |status| == |old(status)| == |topology.hosts| == MAXHOSTS && sa < |topology.owner|
    {
      && down == old(down)
      && forall i | 0 <= i < MAXHOSTS ::
           status[i] == if topology.hosts[i] == topology.owner[sa] then RDWR_BUSY else old(status)[i]
    }

    /** No connection could be had.  Busy hosts are waited for; otherwise this is the end. */
    method NoConnection() returns (retry: bool)
      requires Valid() && req.initd
      modifies this`req, this`status
      ensures Valid() && req.initd
      ensures retry ==> Progress()
      ensures retry <==> 0 < old(req.busyCount) <= PATIENCE && exists i :: 0 <= i < MAXHOSTS && status[i] == NOT_BUSY
      ensures old(req.busyCount) > 0 ==> Waited(retry)
      ensures old(req.busyCount) == 0 ==>
                status == old(status) && req == old(req).(networkError := old(req.networkError || req.volumeError == 0))
    {
      if req.busyCount > 0 {
        retry := WaitForBusy();
      } else {
        retry := false;
        if req.volumeError == 0 {
          req := req.(networkError := true);
        }
      }
    }

    method Idle(sa: nat, ghost row: nat) returns (retry: bool)
      requires Valid() && Called(sa, row)
      modifies this`req
      ensures Valid() && (retry <==> exists i :: 0 <= i < MAXHOSTS && topology.hosts[i] != NONE && !req.skip[i])
      ensures req == old(req).(skip := req.skip, idleError := old(req.idleError) + 1) && req.skip[row]
      ensures Progress()
    {
      ghost var skip := req.skip;
      retry := BlackListOnce(topology.owner[sa]);
      req := req.(idleError := req.idleError + 1);
      assert !skip[row] && req.skip[row];
      PotentialFalls(status, down, skip, status, down, req.skip);
    }

    /** The address goes down.  A network failure marks it once more at the end. */
    method Lost(sa: nat, ghost row: nat, twice: bool)
      requires Valid() && Called(sa, row)
      modifies this`down, this`serverDown
      ensures Valid() && down == old(down)[sa := true] && Progress()
    {
      ghost var was := down;
      ServerDown(sa);
      if twice {
        MarkDown(sa);
      }
      assert !was[sa] && down[sa];
      PotentialFalls(status, was, req.skip, status, down, req.skip);
    }

    /** VBUSY counts towards the hundred; VRESTARTING starts the count over. */
    method BusyAnswer(sa: nat, ghost row: nat, restarting: bool)
      requires Valid() && Called(sa, row)
      modifies this`req, this`status
      ensures Valid() && req == old(req).(busyCount := if restarting then 1 else old(req.busyCount) + 1)
      ensures status[row] == RDWR_BUSY
      ensures forall i | 0 <= i < MAXHOSTS :: status[i] == if topology.hosts[i] == topology.owner[sa] then RDWR_BUSY else old(status)[i]
      ensures !restarting ==> Progress()
    {
      ghost var was := status;
      req := req.(busyCount := if restarting then 1 else req.busyCount + 1);
      SetRows(topology.owner[sa], RDWR_BUSY);
      assert LevelsLeft(status[row]) < LevelsLeft(was[row]);
      PotentialFalls(was, down, req.skip, status, down, req.skip);
    }

    /** Take over the list of hosts; has it changed? */
    method CheckVldb(answer: Vldb) returns (changed: bool)
      requires Sized() && (answer.Entry? ==> TopologyOk(topology.(hosts := answer.hosts)))
      modifies this`topology
      ensures topology == if answer.Entry? then old(topology).(hosts := answer.hosts) else old(topology)
      ensures changed <==> topology.hosts != old(topology.hosts)
    {
      changed := false;
      if answer.Dunno? {
        return;
      }
      var was := topology.hosts;
      topology := topology.(hosts := answer.hosts);
      var n := 0;
      while n < MAXHOSTS && was[n] != NONE
        invariant n <= MAXHOSTS && forall k | 0 <= k < n :: was[k] != NONE
      {
        n := n + 1;
      }
      if n < MAXHOSTS && topology.hosts[n] != NONE {
        changed := true;
      }
      var i := n - 1;
      while !changed && i >= 0
        invariant -1 <= i < n
        invariant changed ==> topology.hosts != was
        invariant !changed && n < MAXHOSTS ==> topology.hosts[n] == NONE
        invariant !changed ==> forall k | i < k < n :: topology.hosts[k] == was[k]
      {
        if topology.hosts[i] != was[i] {
          changed := true;
        }
        i := i - 1;
      }
      if !changed {
        SameList(was, topology.hosts, n);
      }
    }

    method Missed(sa: nat, ghost row: nat, answer: Vldb)
      requires Valid() && Called(sa, row) && Answered(MissingVolume(answer))
      modifies this`req, this`status, this`topology
      ensures Valid() && req == old(req).(volumeError := VOLMISSING) && topology == old(Learned(MissingVolume(answer)))
      ensures status == Missing(topology, old(status), topology.owner[sa], topology.hosts != old(topology.hosts))
      ensures topology == old(topology) ==> Progress()
    {
      ghost var was := status;
      req := req.(volumeError := VOLMISSING);
      ghost var hosts := topology.hosts;
      var changed := CheckVldb(answer);
      MissedRows(topology.owner[sa], changed);
      if topology.hosts == hosts {
        assert LevelsLeft(status[row]) < LevelsLeft(was[row]);
        PotentialFalls(was, down, req.skip, status, down, req.skip);
      }
    }

    /** The verdict on a call that was made. */
    method Verdict(sa: nat, ghost row: nat, o: Outcome) returns (retry: bool)
      requires Valid() && req.initd && Called(sa, row) && Answered(o)
      modifies this`req, this`status, this`down, this`serverDown, this`topology
      ensures Valid() && req.initd && topology == old(Learned(o))
      ensures o != IdleTimeout ==> (retry <==> Retryable(o))
      ensures o == Restarting ==> RowsBusy(sa) && req == old(req).(busyCount := 1)
      ensures o in {NetworkFailure, TooLarge, UbikError} ==>
                down == old(down)[sa := true] && status == old(status) && req == old(req)
      ensures o == IdleTimeout ==>
                && (retry <==> exists i :: 0 <= i < MAXHOSTS && topology.hosts[i] != NONE && !req.skip[i])
                && req == old(req).(skip := req.skip, idleError := old(req.idleError) + 1)
                && req.skip[row] && status == old(status) && down == old(down)
      ensures o == Busy ==> RowsBusy(sa) && req == old(req).(busyCount := old(req.busyCount) + 1)
      ensures o.MissingVolume? ==>
                && req == old(req).(volumeError := VOLMISSING)
                && down == old(down) && status == Missing(topology, old(status), topology.owner[sa], topology.hosts != old(topology.hosts))
      ensures o == Success ==>
                && down == old(down) && req == old(req)
                && forall i | 0 <= i < MAXHOSTS ::
                     status[i] == if old(req.volumeError != 0) && topology.hosts[i] == topology.owner[sa]
                                  then NOT_BUSY else old(status)[i]
      ensures o in {NoAccess, LocationError, OtherError} ==> status == old(status) && down == old(down)
      ensures o == NoAccess ==> req == old(req).(accessError := true)
      ensures o == LocationError ==> req == old(req).(volumeError := VOLMISSING)
      ensures o == OtherError ==> req == old(req)
      ensures retry && o != Restarting && topology == old(topology) ==> Progress()
    {
      hide TopologyOk, Missing, Listed, Potential;
      match o {
        case Success =>
          if req.volumeError != 0 {
            SetRows(topology.owner[sa], NOT_BUSY);
          }
          retry := false;
        case IdleTimeout =>
          retry := Idle(sa, row);
        case NetworkFailure =>
          Lost(sa, row, true);
          retry := true;
        case TooLarge =>
          Lost(sa, row, false);
          retry := true;
        case UbikError =>
          Lost(sa, row, false);
          retry := true;
        case Busy =>
          BusyAnswer(sa, row, false);
          retry := true;
        case Restarting =>
          BusyAnswer(sa, row, true);
          retry := true;
        case MissingVolume(answer) =>
          Missed(sa, row, answer);
          retry := true;
        case NoAccess =>
          req := req.(accessError := true);
          retry := false;
        case LocationError =>
          req := req.(volumeError := VOLMISSING);
          retry := false;
        case OtherError =>
          retry := false;
      }
    }

    /** Decide whether to try again.  Every decision to do so, except after a restart or a change
        of hosts, has used something up that does not come back. */
    method Analyze(sa: int, ghost row: nat, o: Outcome) returns (retry: bool)
      requires Valid() && (sa != NONE ==> Called(sa, row)) && Answered(o)
      modifies this`req, this`status, this`down, this`serverDown, this`topology
      ensures Valid() && req.initd && topology == if sa == NONE then old(topology) else old(Learned(o))
      ensures sa != NONE && o != IdleTimeout ==> (retry <==> Retryable(o))
      ensures sa == NONE && !old(req.initd) ==>
                !retry && req == FreshReq().(initd := true, networkError := true) && status == old(status)
      ensures sa == NONE ==> down == old(down)
      ensures sa == NONE && old(req.initd) && old(req.busyCount) > 0 ==>
                && (retry <==> old(req.busyCount) <= PATIENCE && exists i :: 0 <= i < MAXHOSTS && status[i] == NOT_BUSY)
                && Waited(retry)
      ensures sa == NONE && old(req.busyCount) == 0 ==>
                !retry && status == old(status) &&
                (old(req.initd) ==> req == old(req).(networkError := old(req.networkError || req.volumeError == 0)))
      ensures sa != NONE && o == Restarting ==>
                RowsBusy(sa) && req == (if old(req.initd) then old(req) else FreshReq().(initd := true)).(busyCount := 1)
      ensures sa != NONE && o in {NetworkFailure, TooLarge, UbikError} ==> down == old(down)[sa := true] && status == old(status)
      ensures sa != NONE && o == IdleTimeout ==>
                && (retry <==> exists i :: 0 <= i < MAXHOSTS && topology.hosts[i] != NONE && !req.skip[i])
                && req.skip[row] && status == old(status) && down == old(down)
      ensures sa != NONE && o == Busy ==>
                RowsBusy(sa) && req.busyCount == (if old(req.initd) then old(req.busyCount) + 1 else 1)
      ensures sa != NONE && o.MissingVolume? ==>
                && req == (if old(req.initd) then old(req) else FreshReq().(initd := true)).(volumeError := VOLMISSING)
                && down == old(down) && status == Missing(topology, old(status), topology.owner[sa], topology.hosts != old(topology.hosts))
      ensures sa != NONE && o == Success ==>
                && down == old(down)
                && forall i | 0 <= i < MAXHOSTS ::
                     status[i] == if old(req.initd && req.volumeError != 0) && topology.hosts[i] == topology.owner[sa]
                                  then NOT_BUSY else old(status)[i]
      ensures sa != NONE && o == NoAccess ==> req.accessError && status == old(status)
      ensures sa != NONE && o == LocationError ==> req.volumeError == VOLMISSING && status == old(status)
      ensures retry && old(req.initd) && o != Restarting && topology == old(topology) ==> Progress()
    {
      hide TopologyOk, Missing, Listed, Potential;
      FinalizeReq();
      if sa == NONE {
        retry := NoConnection();
      } else {
        retry := Verdict(sa, row, o);
      }
    }

    // ------------------------------------------------------------ the whole loop

    ghost function Rank(): nat
      reads this
    {
      Patience(req.busyCount) * Span(|down|) + Left()
    }

    lemma RankBounded()
      requires Sized()
      ensures Left() < Span(|down|) && Rank() < (PATIENCE + 2) * Span(|down|)
    {
      PotentialBounded(status, down, req.skip);
      hide Potential;
      RankFits(Patience(req.busyCount), Left(), Span(|down|));
    }

    lemma ConnCalls(sa: int, row: nat)
      requires Valid() && sa != NONE && ServedBy(topology, View(), sa, row)
      ensures Called(sa, row)
    {
      assert View().pass[row] == (req.idleError > 0 && req.skip[row]);
    }

    /** The rest of a round whose search from this moment has found no row. */
    method Unserved(ghost m: Moment, o: Outcome) returns (retry: bool)
      requires Valid() && Answered(o) && MomentOk(m) && Stuck(m)
      requires topology == m.t && status == m.status && down == m.down
      requires req == m.req.(busyCount := Counted(m), volumeError := req.volumeError)
      modifies this`req, this`status, this`down, this`serverDown, this`topology
      ensures Valid() && req.initd && Decided(m, o, Now(), retry) && topology == old(topology)
      ensures retry && old(req.initd) && o != Restarting ==> Progress()
    {
      hide Potential, NoCandidate, SeesBusy, TopologyOk, Listed, Decided, Stuck, Counted, Answered, Missing;
      ghost var searched := req;
      retry := Analyze(NONE, 0, o);
      NoCallDecides(m, searched, o, Now(), retry);
    }

    /** The rest of a round whose search from this moment has found a row. */
    method Served(ghost m: Moment, sa: int, ghost row: nat, o: Outcome) returns (retry: bool)
      requires Valid() && Answered(o) && MomentOk(m) && !Stuck(m) && sa != NONE && Called(sa, row)
      modifies this`req, this`status, this`down, this`serverDown, this`topology
      ensures Valid() && req.initd && Decided(m, o, Now(), retry) && topology == old(Learned(o))
      ensures retry && old(req.initd) && o != Restarting && topology == old(topology) ==> Progress()
    {
      hide Potential, NoCandidate, SeesBusy, TopologyOk, Listed, Decided, Stuck, Counted, Answered, Missing;
      retry := Analyze(sa, row, o);
      assert o == IdleTimeout ==> req.idleError > 0 && (retry <==> HostLeft(Now()));
      CallDecides(m, o, Now(), retry);
    }

    /** One call and its verdict, with the decision exactly as it should be. */
    method Once(o: Outcome) returns (retry: bool)
      requires Valid() && Answered(o)
      modifies this
      ensures Valid() && req.initd && Decided(old(Now()), o, Now(), retry)
      ensures topology == old(topology) || topology == old(Learned(o))
      ensures retry && old(req.initd) && o != Restarting && topology == old(topology) ==> Progress()
    {
      ghost var m := Now();
      NoShortcutIfNone(topology, View());
      assert View() == Sight(m) && MomentOk(m);
      hide Potential, NoCandidate, SeesBusy, AtLeast, Shortcut, TopologyOk, ServedBy, NearestAt, Listed, Decided;
      var sa, row := Conn();
      if sa == NONE {
        retry := Unserved(m, o);
      } else {
        ConnCalls(sa, row);
        retry := Served(m, sa, row, o);
      }
    }

    /** After the first, every round that asks for another brings the rank down. */
    method Round(o: Outcome) returns (retry: bool)
      requires Valid() && Answered(o)
      modifies this
      ensures Valid() && req.initd && Rank() < (PATIENCE + 2) * Span(|topology.owner|)
      ensures topology == old(topology) || topology == old(Learned(o))
      ensures retry && old(req.initd) && o != Restarting && topology == old(topology) ==> Rank() < old(Rank())
      ensures Decided(old(Now()), o, Now(), retry)
    {
      hide Potential, TopologyOk, Decided;
      ghost var b, l := Patience(req.busyCount), Left();
      retry := Once(o);
      RankBounded();
      if retry && old(req.initd) && o != Restarting && topology == old(topology) {
        RankFalls(b, l, b, l, Patience(req.busyCount), Left(), Span(|down|));
      }
    }

    /** What the outcomes are from some round on: no server keeps restarting, and the location server's
        answers agree. */
    ghost predicate Calm(outcomes: nat -> Outcome, calm: nat, last: seq<int>) {
      forall i | i >= calm :: outcomes(i) != Restarting &&
        (outcomes(i).MissingVolume? && outcomes(i).answer.Entry? ==> outcomes(i).answer.hosts == last)
    }

    /** The outcome is final; or no row is left to serve the call, or the volume stayed busy too long. */
    ghost predicate NothingToTry(o: Outcome)
      reads this
      requires Sized()
    {
      Retryable(o) || o == IdleTimeout ==> NoCandidate(topology, View()) || req.volumeError == VOLBUSY
    }

    /** So far the request has run this course, and if it is at its end there is nothing left to try. */
    ghost predicate Traced(run: seq<Moment>, start: Moment, rounds: nat, outcomes: nat -> Outcome, again: bool)
      reads this
    {
      && |run| == rounds + 1 && run[0] == start && run[rounds] == Now() && Course(run, outcomes, again)
      && (!again ==> rounds > 0 && Sized() && NothingToTry(outcomes(rounds - 1)))
    }

    method NextRound(outcomes: nat -> Outcome, rounds: nat, ghost run0: seq<Moment>, ghost start: Moment)
        returns (retry: bool, ghost run: seq<Moment>)
      requires Valid() && (req.initd || req == FreshReq()) && Answered(outcomes(rounds))
      requires Traced(run0, start, rounds, outcomes, true)
      modifies this
      ensures Valid() && req.initd && Rank() < (PATIENCE + 2) * Span(|topology.owner|)
      ensures topology == old(topology) || topology == old(Learned(outcomes(rounds)))
      ensures retry && old(req.initd) && outcomes(rounds) != Restarting && topology == old(topology) ==> Rank() < old(Rank())
      ensures Traced(run, start, rounds + 1, outcomes, retry)
    {
      hide Rank, TopologyOk, Decided, NoCandidate, Course, Answered;
      ghost var m := Now();
      retry := Round(outcomes(rounds));
      CourseGrows(run0, outcomes, Now(), retry);
      run := run0 + [Now()];
      if !retry { NothingLeftToTry(m, outcomes(rounds), Now()); }
    }

    /** Try until there is nothing to try again for: every round but the last had a reason to go on and
        the last had none, so that it got an answer that is not retried, or no row is left to serve
        the call, or the volume stayed busy too long.  Whatever the outcomes, if they are calm from some
        round on, the number of rounds after that is bounded by the hundred waits times the levels,
        addresses and hosts there are, or by twice that if the hosts change once more. */
    method Call(outcomes: nat -> Outcome, ghost calm: nat, ghost last: seq<int>) returns (rounds: nat, ghost run: seq<Moment>)
      requires Valid() && req == FreshReq() && Calm(outcomes, calm, last) && forall i :: Answered(outcomes(i))
      modifies this
      ensures Valid()
      ensures rounds <= calm + 2 * (PATIENCE + 2) * Span(|topology.owner|) + 1
      ensures Calm(outcomes, 0, old(topology.hosts)) ==> rounds <= (PATIENCE + 2) * Span(|topology.owner|) + 1
      ensures rounds > 0 && |run| == rounds + 1 && run[0] == old(Now()) && run[rounds] == Now()
      ensures Course(run, outcomes, false)
      ensures NothingToTry(outcomes(rounds - 1))
    {
      hide Rank, TopologyOk, Traced, NothingToTry, Course, Within, Decided;
      rounds := 0;
      run := [Now()];
      ghost var start := Now();
      StartOfTrace(run, outcomes);
      ghost var t0, steady := topology, Calm(outcomes, 0, topology.hosts);
      ghost var from, final := if steady then 0 else calm, if steady then topology.hosts else last;
      ghost var first := if from == 0 then 1 else from;
      ghost var most := (PATIENCE + 2) * Span(|topology.owner|);
      WithinEnds(first, steady, most);
      var retry := true;
      while retry
        invariant Valid() && topology == t0.(hosts := topology.hosts) && (rounds == 0 ==> retry && req == FreshReq())
        invariant (rounds > 0 <==> req.initd) && Traced(run, start, rounds, outcomes, retry)
        invariant steady ==> topology.hosts == final
        invariant Within(rounds, first, steady, retry, topology.hosts == final, Rank(), most)
        decreases retry, if rounds < first then first - rounds else 0, topology.hosts != final, Rank()
      {
        assert Answered(outcomes(rounds)) by { AnsweredStill(t0, outcomes(rounds)); }
        ghost var was, rank := topology.hosts == final, Rank();
        retry, run := NextRound(outcomes, rounds, run, start);
        WithinStep(rounds, first, steady, was, rank, retry, topology.hosts == final, Rank(), most);
        rounds := rounds + 1;
      }
      EndOfTrace(run, start, rounds, outcomes);
    }

    lemma StartOfTrace(run: seq<Moment>, outcomes: nat -> Outcome)
      requires run == [Now()]
      ensures Traced(run, Now(), 0, outcomes, true)
    {
    }

    lemma EndOfTrace(run: seq<Moment>, start: Moment, rounds: nat, outcomes: nat -> Outcome)
      requires Sized() && Traced(run, start, rounds, outcomes, false)
      ensures rounds > 0 && |run| == rounds + 1 && run[0] == start && run[rounds] == Now() && Course(run, outcomes, false)
      ensures NothingToTry(outcomes(rounds - 1))
    {
    }

    lemma AnsweredStill(t0: Topology, o: Outcome)
      requires topology == t0.(hosts := topology.hosts)
      requires o.MissingVolume? && o.answer.Entry? ==> TopologyOk(t0.(hosts := o.answer.hosts))
      ensures Answered(o)
    {
    }

    // ------------------------------------------------------------ where the loop does not behave

    lemma BusyRowStartsOver()
      requires Sized() && SeesBusy(topology, View())
      ensures exists i :: 0 <= i < MAXHOSTS && RD_BUSY <= status[i] <= RDWR_BUSY
    {
      var i: nat :| i < MAXHOSTS && BusyRow(topology, View(), i);
      assert RD_BUSY <= status[i] <= RDWR_BUSY;
    }

    /** A round that finds no host but some busy one waits and tries again if and only if it is not
        the first, and its patience is not at an end. */
    method RoundOnBusyVolume(o: Outcome) returns (retry: bool)
      requires Valid() && Answered(o) && NoCandidate(topology, View()) && SeesBusy(topology, View())
      modifies this
      ensures retry <==> old(req.initd) && old(req.busyCount) <= PATIENCE
      ensures !old(req.initd) ==> req == FreshReq().(initd := true, networkError := true)
      ensures old(req.initd && req.busyCount > PATIENCE) ==> req.volumeError == VOLBUSY
    {
      hide NoCandidate, SeesBusy, AtLeast, ServedBy, TopologyOk;
      BusyRowStartsOver();
      NoShortcut(topology, View());
      ghost var k :| 0 <= k < MAXHOSTS && RD_BUSY <= status[k] <= RDWR_BUSY;
      var sa, row := Conn();
      retry := Analyze(sa, row, o);
      assert old(req.initd) ==> status[k] == NOT_BUSY;
    }

    /** So what the first search notes is lost to the first verdict: a request that finds the volume
        busy on every host gives up with a network error instead of waiting. */
    method FirstRoundOnBusyVolume(o: Outcome) returns (retry: bool)
      requires Valid() && Answered(o) && req == FreshReq() && NoCandidate(topology, View()) && SeesBusy(topology, View())
      modifies this
      ensures !retry && req.networkError && req.busyCount == 0
    {
      retry := RoundOnBusyVolume(o);
    }

    /** This row could serve the request, once it is not busy any more. */
    ghost predicate Alive(row: nat)
      reads this
    {
      && Valid() && Listed(topology, row) && !(req.idleError > 0 && req.skip[row]) && SomeUp(topology, View(), row)
      && (status[row] <= END_NOT_BUSY || (status[row] <= RDWR_BUSY && req.initd && req.busyCount <= PATIENCE))
    }

    lemma AliveOrBusy(row: nat)
      requires Alive(row)
      ensures NoCandidate(topology, View()) ==> status[row] > END_NOT_BUSY && SeesBusy(topology, View())
    {
      assert !View().pass[row];
      if status[row] <= END_NOT_BUSY {
        assert Candidate(topology, View(), row);
      } else {
        assert BusyRow(topology, View(), row);
      }
    }

    /** A round in which whoever is called says it is restarting. */
    method RestartingRound(ghost row: nat) returns (retry: bool)
      requires Alive(row)
      modifies this
      ensures retry && req.initd && Alive(row)
    {
      AliveOrBusy(row);
      hide NoCandidate, SeesBusy, AtLeast, ServedBy, TopologyOk;
      ghost var v := View();
      NoShortcutIfNone(topology, v);
      var sa, r := Conn();
      if sa != NONE { ConnCalls(sa, r); }
      retry := Analyze(sa, r, Restarting);
      StillUp(topology, v, View(), row);
    }

    /** If every server called is restarting the request goes on for good: for any volume, and a row that
        could serve it, any number of rounds all ask for another. */
    method RestartingNeverEnds(rounds: nat, ghost row: nat) returns (retry: bool)
      requires Alive(row)
      modifies this
      ensures retry && Alive(row)
    {
      retry := true;
      for i := 0 to rounds
        invariant retry && Alive(row)
      {
        retry := RestartingRound(row);
      }
    }

    /** A volume on one host with one address, the host's row at this level, and a request that
        has counted this many busy answers. */
    ghost predicate OneHost(level: nat, count: nat)
      reads this
    {
      && Valid() && topology.hosts == [0] + seq(MAXHOSTS - 1, _ => NONE) && topology.addrs == [[0]] && topology.owner == [0]
      && down == [false] && status == [level] + seq(MAXHOSTS - 1, _ => NOT_BUSY)
      && req == FreshReq().(initd := true, busyCount := count)
    }

    lemma OneHostServes(level: nat, count: nat)
      requires OneHost(level, count)
      ensures level == NOT_BUSY ==> !NoCandidate(topology, View()) && topology.owner[0] == topology.hosts[0]
      ensures level == RDWR_BUSY ==> NoCandidate(topology, View())
    {
      var v := View();
      if level == NOT_BUSY {
        ShortcutServes(topology, v);
      }
    }

    method OneHostWaits() returns (retry: bool)
      requires OneHost(RDWR_BUSY, 1)
      modifies this
      ensures retry && OneHost(NOT_BUSY, 2)
    {
      hide NoCandidate, SeesBusy, Candidate, Shortcut, AtLeast, TopologyOk;
      OneHostServes(RDWR_BUSY, 1);
      assert OFFLINE !in status;
      var sa, row := Conn();
      retry := Analyze(sa, row, Success);
      assert status[0] == NOT_BUSY;
    }

    method OneHostRestarts() returns (retry: bool)
      requires OneHost(NOT_BUSY, 2)
      modifies this
      ensures retry && OneHost(RDWR_BUSY, 1)
    {
      hide NoCandidate, SeesBusy, Shortcut, AtLeast, ServedBy;
      OneHostServes(NOT_BUSY, 2);
      assert OFFLINE !in status;
      var sa, row := Conn();
      ConnCalls(sa, row);
      retry := Analyze(sa, row, Restarting);
      assert sa == 0;
    }

    /** A server that is restarting brings the request back, two rounds later, to where it was:
        each such answer starts the count over, so the loop never ends. */
    method RestartCycle() returns (first: bool, second: bool)
      requires OneHost(RDWR_BUSY, 1)
      modifies this
      ensures first && second && OneHost(RDWR_BUSY, 1)
      ensures req == old(req) && status == old(status) && down == old(down)
    {
      first := OneHostWaits();
      second := OneHostRestarts();
    }

    /** Three servers with one address each, the last of them down and only sometimes listed; the first
        two rows at these levels; and a request that has been told the volume is missing. */
    ghost predicate TwoHosts(level0: nat, level1: nat, third: bool)
      reads this
    {
      && Valid() && topology.hosts == TwoOrThree(third) && topology.addrs == [[0], [1], [2]]
      && topology.owner == [0, 1, 2] && down == [false, false, true]
      && status == [level0, level1] + seq(MAXHOSTS - 2, _ => NOT_BUSY)
      && req == FreshReq().(initd := true, volumeError := VOLMISSING)
    }

    lemma TwoHostsServe(level0: nat, level1: nat, third: bool, sa: int, row: nat)
      requires TwoHosts(level0, level1, third) && (level0, level1) in {(0, 1), (1, 0)}
      requires sa != NONE ==> ServedBy(topology, View(), sa, row) && AtLeast(topology, View(), status[row])
      requires sa == NONE <==> NoCandidate(topology, View())
      ensures sa == row == level0 && Called(sa, row)
    {
      var v := View();
      assert Listed(topology, 0) && Listed(topology, 1);
      assert !v.down[topology.addrs[topology.hosts[0]][0]] && !v.down[topology.addrs[topology.hosts[1]][0]];
      assert SomeUp(topology, v, 0) && SomeUp(topology, v, 1);
      assert Candidate(topology, v, 0) && Candidate(topology, v, 1);
      ConnCalls(sa, row);
      assert topology.hosts[3] == NONE && row < 3;
      assert third ==> topology.addrs[topology.hosts[2]] == [2];
      assert row != 2;
    }

    lemma TwoHostsFlip(was: seq<nat>, row: nat, third: bool)
      requires topology.hosts == TwoOrThree(third) && row < 2
      requires |was| == MAXHOSTS && was[row] == NOT_BUSY && forall i | 2 <= i < MAXHOSTS :: was[i] == NOT_BUSY
      ensures Missing(topology, was, row, true) == [1 - row, row] + seq(MAXHOSTS - 2, _ => NOT_BUSY)
    {
      assert topology.hosts[0] == 0 && topology.hosts[1] == 1 && topology.hosts[3] == NONE;
      assert Listed(topology, 0) && Listed(topology, 1) && forall i: nat | 3 <= i :: !Listed(topology, i);
    }

    lemma TwoHostsQuiet(level0: nat, level1: nat, third: bool)
      requires TwoHosts(level0, level1, third) && level0 < RD_BUSY && level1 < RD_BUSY
      ensures !SeesBusy(topology, View()) && OFFLINE !in status
      ensures Answered(MissingVolume(Entry(TwoOrThree(!third))))
    {
    }

    /** The row used is a level up, and the other one starts over: the third host has come or gone. */
    method TwoHostsMiss(level0: nat, level1: nat, third: bool) returns (retry: bool)
      requires TwoHosts(level0, level1, third) && (level0, level1) in {(0, 1), (1, 0)}
      modifies this
      ensures retry && TwoHosts(level1, level0, !third) && topology == old(topology).(hosts := topology.hosts)
    {
      hide NoCandidate, SeesBusy, Shortcut, AtLeast, ServedBy, Called, TopologyOk;
      TwoHostsQuiet(level0, level1, third);
      var sa, row := Conn();
      TwoHostsServe(level0, level1, third, sa, row);
      ghost var was := status;
      retry := Analyze(sa, row, MissingVolume(Entry(TwoOrThree(!third))));
      assert topology.hosts != TwoOrThree(third) by { assert TwoOrThree(third)[2] != TwoOrThree(!third)[2]; }
      TwoHostsFlip(was, row, !third);
    }

    /** A volume whose two hosts that are up each say it is elsewhere, while a third comes and goes in
        the answers of the location server: after two rounds everything is as before. */
    method ChangingHostsCycle() returns (first: bool, second: bool)
      requires TwoHosts(0, 1, false)
      modifies this
      ensures first && second && TwoHosts(0, 1, false)
      ensures req == old(req) && status == old(status) && down == old(down) && topology == old(topology)
    {
      first := TwoHostsMiss(0, 1, false);
      second := TwoHostsMiss(1, 0, true);
    }
  }

  function TwoOrThree(third: bool): seq<int> { [0, 1, if third then 2 else NONE] + seq(MAXHOSTS - 3, _ => NONE) }

  /** The first address of a volume whose rows are all fresh is taken. */
  method FirstCall(t: Topology, unreachable: seq<bool>, o: Outcome) returns (c: Client, retry: bool)
    requires TopologyOk(t) && t.hosts[0] == 0 && t.owner != [] && t.addrs[0] == [0]
    requires |unreachable| == |t.owner| && !unreachable[0]
    requires o == Restarting ||
             (o.MissingVolume? && o.answer.Entry? && o.answer.hosts != t.hosts && TopologyOk(t.(hosts := o.answer.hosts)))
    ensures fresh(c) && c.Valid() && c.down == unreachable && retry
    ensures o == Restarting ==> c.topology == t && c.req == FreshReq().(initd := true, busyCount := 1)
    ensures o == Restarting ==> forall i | 0 <= i < MAXHOSTS ::
              |c.status| == MAXHOSTS && c.status[i] == if t.hosts[i] == 0 then RDWR_BUSY else NOT_BUSY
    ensures o != Restarting ==> c.topology == t.(hosts := o.answer.hosts)
    ensures o != Restarting ==> c.req == FreshReq().(initd := true, volumeError := VOLMISSING)
    ensures o != Restarting ==> c.status == Missing(c.topology, seq(MAXHOSTS, _ => NOT_BUSY), 0, true)
  {
    hide NoCandidate, SeesBusy, AtLeast, Candidate, Missing;
    c := new Client(t, seq(MAXHOSTS, _ => NOT_BUSY), unreachable);
    ghost var v := c.View();
    ShortcutServes(t, v);
    ServedSome(t, v, 0, 0);
    var sa, row := c.Conn();
    c.ConnCalls(sa, row);
    retry := c.Analyze(sa, row, o);
  }

  /** Both cycles are entered by a fresh request, with its first call. */
  method EnterRestartCycle() returns (c: Client)
    ensures fresh(c) && c.OneHost(RDWR_BUSY, 1)
  {
    var retry;
    c, retry := FirstCall(Topology([0] + seq(MAXHOSTS - 1, _ => NONE), [[0]], [0], [0]), [false], Restarting);
  }

  method EnterChangingHostsCycle() returns (c: Client)
    ensures fresh(c) && c.TwoHosts(1, 0, true)
  {
    var retry;
    assert TwoOrThree(false)[2] != TwoOrThree(true)[2];
    c, retry := FirstCall(Topology(TwoOrThree(false), [[0], [1], [2]], [0, 1, 2], [0, 0, 0]), [false, false, true],
                          MissingVolume(Entry(TwoOrThree(true))));
    c.TwoHostsFlip(seq(MAXHOSTS, _ => NOT_BUSY), 0, true);
    assert c.topology.hosts == TwoOrThree(true);
  }
}
