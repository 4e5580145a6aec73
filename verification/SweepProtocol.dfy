/**
 * The startup sweep while other tenants act. Grants, adoptions, releases, reaps and containers
 * coming and going may fall between any two of the sweep's reads and commands; gozer writes every
 * one of its own decisions to the log.
 */
module SweepProtocol {
  import opened Wrappers
  import opened Seqs
  import opened Holders
  import opened LeaseHistory
  import opened StartupSweep

  const HISTORY_SCAN_RECORDS := 200

  datatype Phase = Waiting | AsksStatus | AsksHistory | Acting(open: seq<Lease>, next: nat) | GaveUp

  /** What the sweep's three reads told it. */
  datatype Known = Known(ports: set<nat>, holders: set<Who>, history: Option<seq<HistoryRecord>>)

  /** The leases there were at those reads. The sweep does not see this. */
  datatype Was = Was(liveAtDocker: Table, liveAtStatus: Table, liveAtHistory: Table)

  /** What the others have done since. The sweep does not see this either. */
  datatype Since = Since(
    openedAfterDocker: set<LeaseId>,
    startedAfterDocker: set<nat>,
    openedAfterHistory: set<LeaseId>,
    adoptedAfterHistory: set<LeaseId>,
    ended: set<nat>)

  /** A lease a command of the sweep took away, the ports served at that moment, and what came before it. */
  datatype Removal = Removal(id: LeaseId, lease: Held, serving: set<nat>, since: Since)

  datatype State = State(
    live: Table,
    born: nat,
    log: seq<HistoryRecord>,
    serving: set<nat>,
    phase: Phase,
    known: Known,
    was: Was,
    since: Since,
    calls: seq<LeaseId>,
    removed: seq<Removal>)

  datatype Action =
    // gozer and its tenants
    | Grant(id: LeaseId, who: Who)
    | Adopt(id: LeaseId, who: Who)
    | Close(id: LeaseId, reaped: bool)
    | Note(record: HistoryRecord)
    | Containers(serving: set<nat>)
    // the sweep; `readable` and `refused` are the answers it gets
    | ReadDocker(readable: bool)
    | ReadStatus(readable: bool)
    | ReadHistory(readable: bool)
    | NextLease(refused: bool)

  predicate OfSweep(a: Action) {
    a.ReadDocker? || a.ReadStatus? || a.ReadHistory? || a.NextLease?
  }

  function Opened(id: LeaseId, who: Who, adopted: bool): HistoryRecord {
    HistoryRecord(Some(if adopted then "adopted" else "granted"), Some(id), Some(who))
  }

  function Ended(id: LeaseId, reaped: bool): HistoryRecord {
    HistoryRecord(Some(if reaped then "reaped" else "released"), Some(id), None)
  }

  function LastRecords(log: seq<HistoryRecord>): seq<HistoryRecord> {
    if |log| <= HISTORY_SCAN_RECORDS then log else log[|log| - HISTORY_SCAN_RECORDS..]
  }

  function StationHolders(live: Table): set<Who> {
    set id | id in live && IsStation(live[id].who) :: live[id].who
  }

  function OpenIn(history: Option<seq<HistoryRecord>>): seq<Lease> {
    if history.Some? then OpenLeases(history.value) else []
  }

  predicate Enabled(s: State, a: Action) {
    match a
    case Grant(_, _) => true
    case Adopt(_, _) => true
    case Close(id, _) => id in s.live
    case Note(record) => !Opens(record) && !Closes(record)
    case Containers(_) => true
    case ReadDocker(_) => s.phase.Waiting?
    case ReadStatus(_) => s.phase.AsksStatus?
    case ReadHistory(_) => s.phase.AsksHistory?
    case NextLease(_) => HasTurn(s)
  }

  /** The sweep is acting and some open lease is still to be looked at. */
  predicate HasTurn(s: State) {
    s.phase.Acting? && s.phase.next < |s.phase.open|
  }

  function Turn(s: State): Lease
    requires HasTurn(s)
  {
    s.phase.open[s.phase.next]
  }

  /** The sweep will ask for the lease whose turn it is. */
  predicate TurnIsStale(s: State) {
    HasTurn(s) && Judge(Turn(s), s.known.holders, s.known.ports).Stale?
  }

  function SerialsOf(live: Table, id: LeaseId): set<nat> {
    if id in live then {live[id].serial} else {}
  }

  /** A new lease under `id`; whatever lease the id named before is over. */
  function OpenNew(s: State, id: LeaseId, who: Who, adopted: bool): State {
    s.(live := s.live[id := Held(s.born, who)],
       born := s.born + 1,
       log := s.log + [Opened(id, who, adopted)],
       since := s.since.(openedAfterDocker := s.since.openedAfterDocker + {id},
                         openedAfterHistory := s.since.openedAfterHistory + {id},
                         ended := s.since.ended + SerialsOf(s.live, id)))
  }

  /** A live lease goes on under another holder. */
  function TakeOver(s: State, id: LeaseId, who: Who): State
    requires id in s.live
  {
    s.(live := s.live[id := s.live[id].(who := who)],
       log := s.log + [Opened(id, who, true)],
       since := s.since.(adoptedAfterHistory := s.since.adoptedAfterHistory + {id}))
  }

  /** The sweep acts on the open lease whose turn it is. */
  function Act(s: State, refused: bool): State
    requires HasTurn(s)
  {
    var id := Turn(s).id;
    var moved := s.(phase := s.phase.(next := s.phase.next + 1));
    if !TurnIsStale(s) then moved
    else
      var asked := moved.(calls := s.calls + [id]);
      if id in s.live && !refused then
        asked.(live := s.live - {id},
               log := s.log + [Ended(id, false)],
               removed := s.removed + [Removal(id, s.live[id], s.serving, s.since)])
      else asked
  }

  function Apply(s: State, a: Action): State
    requires Enabled(s, a)
  {
    match a
    case Grant(id, who) => OpenNew(s, id, who, false)
    case Adopt(id, who) => if id in s.live then TakeOver(s, id, who) else OpenNew(s, id, who, true)
    case Close(id, reaped) =>
      s.(live := s.live - {id}, log := s.log + [Ended(id, reaped)],
         since := s.since.(ended := s.since.ended + SerialsOf(s.live, id)))
    case Note(record) => s.(log := s.log + [record])
    case Containers(serving) =>
      s.(serving := serving,
         since := s.since.(startedAfterDocker := s.since.startedAfterDocker + (serving - s.serving)))
    case ReadDocker(readable) =>
      if !readable then s.(phase := GaveUp)
      else s.(phase := AsksStatus,
              known := s.known.(ports := s.serving),
              was := s.was.(liveAtDocker := s.live),
              since := s.since.(openedAfterDocker := {}, startedAfterDocker := {}))
    case ReadStatus(readable) =>
      if !readable then s.(phase := GaveUp)
      else s.(phase := AsksHistory,
              known := s.known.(holders := StationHolders(s.live)),
              was := s.was.(liveAtStatus := s.live))
    case ReadHistory(readable) =>
      var history := if readable then Some(LastRecords(s.log)) else None;
      s.(phase := Acting(OpenIn(history), 0),
         known := s.known.(history := history),
         was := s.was.(liveAtHistory := s.live),
         since := s.since.(openedAfterHistory := {}, adoptedAfterHistory := {}))
    case NextLease(refused) => Act(s, refused)
  }

  predicate Possible(s: State, run: seq<Action>)
    decreases |run|
  {
    run == [] || (Enabled(s, run[0]) && Possible(Apply(s, run[0]), run[1..]))
  }

  function After(s: State, run: seq<Action>): State
    requires Possible(s, run)
    decreases |run|
  {
    if run == [] then s else After(Apply(s, run[0]), run[1..])
  }

  // ----- what every step keeps -----

  function HolderIn(live: Table, id: LeaseId): Option<Who> {
    if id in live then Some(live[id].who) else None
  }

  /** gozer's log accounts for its leases. */
  ghost predicate Faithful(s: State) {
    forall id :: OpenHolder(s.log, id) == HolderIn(s.live, id)
  }

  /** No serial is used twice, and a lease that ended stays ended. */
  ghost predicate SerialsSound(s: State) {
    && (forall id <- s.live :: s.live[id].serial < s.born && s.live[id].serial !in s.since.ended)
    && (forall a, b :: a in s.live && b in s.live && a != b ==> s.live[a].serial != s.live[b].serial)
    && (forall n <- s.since.ended :: n < s.born)
  }

  ghost predicate Start(s: State) {
    Faithful(s) && SerialsSound(s) && s.phase.Waiting? && s.calls == [] && s.removed == []
  }

  predicate IsLease(table: Table, id: LeaseId, lease: Held) {
    id in table && table[id].serial == lease.serial
  }

  /** A live lease is the one its id named at the read exactly when the id has not been opened since. */
  ghost predicate Tracks(earlier: Table, anew: set<LeaseId>, s: State) {
    && (forall id <- earlier :: earlier[id].serial < s.born)
    && (forall id <- s.live :: IsLease(earlier, id, s.live[id]) <==> id !in anew)
  }

  ghost predicate DockerTracks(s: State) {
    Tracks(s.was.liveAtDocker, s.since.openedAfterDocker, s)
    && s.serving <= s.known.ports + s.since.startedAfterDocker
  }

  ghost predicate HistoryTracks(s: State) {
    && Tracks(s.was.liveAtHistory, s.since.openedAfterHistory, s)
    && (forall id <- s.live :: id !in s.since.openedAfterHistory && id !in s.since.adoptedAfterHistory
                               ==> HolderIn(s.was.liveAtHistory, id) == Some(s.live[id].who))
  }

  /** Every lease the sweep works from was live, under that holder, at the history read. */
  ghost predicate OpenWasLive(s: State)
    requires s.phase.Acting?
  {
    && s.phase.open == OpenIn(s.known.history)
    && UniqueIds(s.phase.open)
    && forall l <- s.phase.open :: HolderIn(s.was.liveAtHistory, l.id) == Some(l.who)
  }

  /** What there is to say about one lease the sweep took. */
  ghost predicate TookStale(r: Removal, known: Known, was: Was) {
    && r.id in was.liveAtHistory
    && Judge(Lease(r.id, was.liveAtHistory[r.id].who), known.holders, known.ports).Stale?
    && (IsLease(was.liveAtHistory, r.id, r.lease) <==> r.id !in r.since.openedAfterHistory)
    && (r.id !in r.since.openedAfterHistory && r.id !in r.since.adoptedAfterHistory
        ==> r.lease.who == was.liveAtHistory[r.id].who)
    && (IsLease(was.liveAtDocker, r.id, r.lease) <==> r.id !in r.since.openedAfterDocker)
    && r.lease.serial !in r.since.ended
    && r.serving <= known.ports + r.since.startedAfterDocker
  }

  ghost predicate CallsSoFar(s: State)
    requires s.phase.Acting? && s.phase.next <= |s.phase.open|
  {
    s.calls == Calls(s.phase.open[..s.phase.next], s.known.holders, s.known.ports)
  }

  ghost predicate Invariant(s: State) {
    && Faithful(s) && SerialsSound(s)
    && (!s.phase.Acting? ==> s.calls == [] && s.removed == [])
    && (!s.phase.Waiting? && !s.phase.GaveUp? ==> DockerTracks(s))
    && (s.phase.AsksHistory? || s.phase.Acting? ==> s.known.holders == StationHolders(s.was.liveAtStatus))
    && (s.phase.Acting? ==>
          && s.phase.next <= |s.phase.open|
          && HistoryTracks(s) && OpenWasLive(s) && CallsSoFar(s)
          && forall r <- s.removed :: TookStale(r, s.known, s.was))
  }

  lemma LogStep(log: seq<HistoryRecord>, r: HistoryRecord, id: LeaseId)
    ensures OpenHolder(log + [r], id)
            == if !Touches(r, id) then OpenHolder(log, id) else if Opens(r) then Some(HolderOf(r)) else None
  {
    assert (log + [r])[..|log|] == log;
  }

  lemma KeepsFaithful(s: State, a: Action)
    requires Faithful(s) && Enabled(s, a)
    ensures Faithful(Apply(s, a))
  {
    var t := Apply(s, a);
    if t.log != s.log {
      var r := t.log[|s.log|];
      assert t.log == s.log + [r];
      forall id
        ensures OpenHolder(t.log, id) == HolderIn(t.live, id)
      {
        LogStep(s.log, r, id);
      }
    }
  }

  lemma OpenNewKeepsSerials(s: State, id: LeaseId, who: Who, adopted: bool)
    requires SerialsSound(s)
    ensures SerialsSound(OpenNew(s, id, who, adopted))
  {
    assert id in s.live ==> s.live[id].serial < s.born;
  }

  lemma KeepsSerials(s: State, a: Action)
    requires SerialsSound(s) && Enabled(s, a)
    ensures SerialsSound(Apply(s, a))
  {
    if a.Grant? || (a.Adopt? && a.id !in s.live) {
      OpenNewKeepsSerials(s, a.id, a.who, a.Adopt?);
    } else if a.NextLease? {
      assert Act(s, a.refused).born == s.born;
    }
  }

  /** Tenants come and go: what is known of the reads stays true. */
  lemma KeepsTracks(s: State, a: Action, earlier: Table, anew: set<LeaseId>)
    requires Tracks(earlier, anew, s) && Enabled(s, a)
    ensures Tracks(earlier, if a.Grant? || (a.Adopt? && a.id !in s.live) then anew + {a.id} else anew, Apply(s, a))
  {
  }

  lemma KeepsDockerTracks(s: State, a: Action)
    requires DockerTracks(s) && Enabled(s, a) && !a.ReadDocker?
    ensures DockerTracks(Apply(s, a))
  {
    KeepsTracks(s, a, s.was.liveAtDocker, s.since.openedAfterDocker);
  }

  lemma KeepsHistoryTracks(s: State, a: Action)
    requires HistoryTracks(s) && Enabled(s, a) && s.phase.Acting?
    ensures HistoryTracks(Apply(s, a))
  {
    KeepsTracks(s, a, s.was.liveAtHistory, s.since.openedAfterHistory);
  }

  lemma WindowIsTrue(s: State, l: Lease)
    requires Faithful(s) && l in OpenLeases(LastRecords(s.log))
    ensures HolderIn(s.live, l.id) == Some(l.who)
  {
    var cut := |s.log| - |LastRecords(s.log)|;
    assert s.log == s.log[..cut] + LastRecords(s.log);
    WindowUnderReports(s.log[..cut], LastRecords(s.log), l);
    OpenLeasesMeaning(s.log);
  }

  lemma HistoryReadKeeps(s: State, readable: bool)
    requires Invariant(s) && s.phase.AsksHistory?
    ensures Invariant(Apply(s, ReadHistory(readable)))
  {
    var t := Apply(s, ReadHistory(readable));
    KeepsFaithful(s, ReadHistory(readable));
    KeepsDockerTracks(s, ReadHistory(readable));
    OpenLeasesMeaning(LastRecords(s.log));
    forall l | l in OpenLeases(LastRecords(s.log))
      ensures HolderIn(s.live, l.id) == Some(l.who)
    {
      WindowIsTrue(s, l);
    }
    assert t.phase.open[..0] == [];
  }

  lemma NextLeaseKeepsCalls(s: State, refused: bool)
    requires HasTurn(s) && CallsSoFar(s)
    ensures CallsSoFar(Act(s, refused))
  {
    FilterPrefix(s.phase.open, s.phase.next, IsStale(s.known.holders, s.known.ports));
  }

  lemma NextLeaseTakesStale(s: State, refused: bool)
    requires Invariant(s) && HasTurn(s)
    ensures forall r <- Act(s, refused).removed :: TookStale(r, s.known, s.was)
  {
    var t, l := Act(s, refused), Turn(s);
    assert l in s.phase.open && HolderIn(s.was.liveAtHistory, l.id) == Some(l.who);
    forall r | r in t.removed
      ensures TookStale(r, s.known, s.was)
    {
      if r !in s.removed {
        assert r == Removal(l.id, s.live[l.id], s.serving, s.since);
      }
    }
  }

  lemma KeepsInvariant(s: State, a: Action)
    requires Invariant(s) && Enabled(s, a)
    ensures Invariant(Apply(s, a))
  {
    KeepsFaithful(s, a);
    KeepsSerials(s, a);
    if a.ReadHistory? {
      HistoryReadKeeps(s, a.readable);
    } else {
      if !a.ReadDocker? && !s.phase.Waiting? && !s.phase.GaveUp? {
        KeepsDockerTracks(s, a);
      }
      if s.phase.Acting? {
        KeepsHistoryTracks(s, a);
        if a.NextLease? {
          NextLeaseKeepsCalls(s, a.refused);
          NextLeaseTakesStale(s, a.refused);
        }
      }
    }
  }

  lemma {:induction false} AlwaysInvariant(s: State, run: seq<Action>)
    requires Invariant(s) && Possible(s, run)
    ensures Invariant(After(s, run))
    decreases |run|
  {
    if run != [] {
      KeepsInvariant(s, run[0]);
      AlwaysInvariant(Apply(s, run[0]), run[1..]);
    }
  }

  // ----- safety over whole runs -----

  /**
   * In every interleaving, a lease a sweep command took away had an id that was live at the history
   * read under a `tt-station:` holder naming a port absent from the docker read. It was that very
   * lease, never ended in between, exactly when the id had not been opened again; and it had that
   * holder unless someone else had adopted it.
   */
  lemma SweepTakesOnlyStaleLeases(s: State, run: seq<Action>, r: Removal)
    requires Start(s) && Possible(s, run) && r in After(s, run).removed
    ensures var t := After(s, run);
            && t.phase.Acting? && r.id in t.was.liveAtHistory
            && var earlier := t.was.liveAtHistory[r.id];
            && earlier.who in t.known.holders
            && ServicePort(earlier.who).Some? && ServicePort(earlier.who).value !in t.known.ports
            && (r.lease.serial == earlier.serial <==> r.id !in r.since.openedAfterHistory)
            && r.lease.serial !in r.since.ended
            && (r.id !in r.since.openedAfterHistory && r.id !in r.since.adoptedAfterHistory ==> r.lease == earlier)
  {
    AlwaysInvariant(s, run);
  }

  /**
   * Docker is read first, so the claim about ports is about that moment. The lease taken was live
   * then exactly when its id had not been opened since, and its port is served when it is taken
   * only if a server came up on it since.
   */
  lemma DockerReadDecides(s: State, run: seq<Action>, r: Removal)
    requires Start(s) && Possible(s, run) && r in After(s, run).removed
    ensures var t := After(s, run);
            && (IsLease(t.was.liveAtDocker, r.id, r.lease) <==> r.id !in r.since.openedAfterDocker)
            && r.id in t.was.liveAtHistory
            && var port := ServicePort(t.was.liveAtHistory[r.id].who);
            && port.Some? && (port.value in r.serving ==> port.value in r.since.startedAfterDocker)
  {
    AlwaysInvariant(s, run);
  }

  /** `id` was taken by a removal recorded after the first `from`. */
  predicate TakenSince(removed: seq<Removal>, from: nat, id: LeaseId) {
    exists k :: from <= k < |removed| && removed[k].id == id
  }

  /** What the sweep does to the leases is exactly what its removals record. */
  lemma {:induction false} RemovalsAreTheWholeEffect(s: State, run: seq<Action>, id: LeaseId)
    requires Possible(s, run) && forall a <- run :: OfSweep(a)
    ensures s.removed <= After(s, run).removed
    ensures HolderIn(After(s, run).live, id)
            == if TakenSince(After(s, run).removed, |s.removed|, id) then None else HolderIn(s.live, id)
    decreases |run|
  {
    if run != [] {
      var t := Apply(s, run[0]);
      assert run[0] in run && forall a :: a in run[1..] ==> a in run;
      RemovalsAreTheWholeEffect(t, run[1..], id);
      var end := After(t, run[1..]);
      assert s.removed <= t.removed;
      if t.removed != s.removed {
        assert end.removed[|s.removed|] == t.removed[|s.removed|];
      }
    }
  }

  /**
   * A step of the sweep ends one lease at most, the stale one whose turn it is. If its id was neither
   * opened nor adopted since the history read, the holder it has now is a live station holder whose
   * port was not in use: everyone else's lease survives every step.
   */
  lemma OthersKeepTheirs(s: State, run: seq<Action>, a: Action, id: LeaseId)
    requires Start(s) && Possible(s, run) && Enabled(After(s, run), a) && OfSweep(a)
    requires id in After(s, run).live
    ensures var t := After(s, run);
            var gone := id !in Apply(t, a).live;
            && (!gone ==> Apply(t, a).live[id] == t.live[id])
            && (gone <==> a == NextLease(false) && TurnIsStale(t) && Turn(t).id == id)
            && (gone && id !in t.since.openedAfterHistory && id !in t.since.adoptedAfterHistory
                ==> Judge(Lease(id, t.live[id].who), t.known.holders, t.known.ports).Stale?)
  {
    AlwaysInvariant(s, run);
    var t := After(s, run);
    if HasTurn(t) {
      assert Turn(t) in t.phase.open;
    }
  }

  /**
   * Nothing the others do after the reads changes which releases the sweep asks for: at the end they
   * are those of the records, the holders and the ports it read.
   */
  lemma CallsAreSettled(s: State, run: seq<Action>)
    requires Start(s) && Possible(s, run)
    requires After(s, run).phase.Acting? && !HasTurn(After(s, run))
    ensures var t := After(s, run); t.calls == Calls(OpenIn(t.known.history), t.known.holders, t.known.ports)
  {
    AlwaysInvariant(s, run);
    var t := After(s, run);
    assert t.phase.open[..t.phase.next] == t.phase.open;
  }

  predicate Unreadable(a: Action) {
    a == ReadDocker(false) || a == ReadStatus(false) || a == ReadHistory(false)
  }

  /** Nothing is left for the sweep to ask for. */
  predicate AsksNothing(s: State) {
    s.phase.GaveUp? || (s.phase.Acting? && s.phase.open == [])
  }

  lemma {:induction false} StaysQuiet(s: State, run: seq<Action>)
    requires Possible(s, run) && AsksNothing(s)
    ensures After(s, run).calls == s.calls && After(s, run).removed == s.removed
    decreases |run|
  {
    if run != [] {
      StaysQuiet(Apply(s, run[0]), run[1..]);
    }
  }

  lemma UnreadableEnds(s: State, a: Action)
    requires Invariant(s) && Enabled(s, a) && Unreadable(a)
    ensures AsksNothing(Apply(s, a)) && Apply(s, a).calls == [] && Apply(s, a).removed == []
  {
  }

  /** A sweep that once could not read the containers, the status or the history asks for no release, whatever comes later. */
  lemma UnreadableTakesNothing(s: State, before: seq<Action>, a: Action, later: seq<Action>)
    requires Start(s) && Possible(s, before) && Enabled(After(s, before), a) && Unreadable(a)
    requires Possible(Apply(After(s, before), a), later)
    ensures var end := After(Apply(After(s, before), a), later);
            end.calls == [] && end.removed == []
  {
    AlwaysInvariant(s, before);
    UnreadableEnds(After(s, before), a);
    StaysQuiet(Apply(After(s, before), a), later);
  }

  /** The holders of the chips that are not free. */
  function HeldWhos(chips: seq<Chip>): set<Who> {
    set chip | chip in chips && chip.state != "FREE" && chip.who.Some? :: chip.who.value
  }

  /** A status in which each live lease's chips carry its holder, and every other chip is free or untracked. */
  ghost predicate StatusOf(chips: seq<Chip>, live: Table) {
    HeldWhos(chips) == set id | id in live :: live[id].who
  }

  /** The holders the sweep finds in such a status are the station holders of the live leases. */
  lemma StatusShowsHolders(chips: seq<Chip>, live: Table, who: Who)
    requires StatusOf(chips, live)
    ensures (exists chip <- chips :: chip.state != "FREE" && chip.who == Some(who) && "tt-station:" <= who)
            <==> who in StationHolders(live)
  {
    assert who in HeldWhos(chips) <==> exists chip <- chips :: chip.state != "FREE" && chip.who == Some(who);
    assert who in HeldWhos(chips) <==> exists id <- live :: live[id].who == who;
  }

  /**
   * Run on the same docker and history reads, and on any status of the leases there were at the
   * status read, the undisturbed sweep finds the same holders and issues the same releases.
   */
  method SweepAgain(ghost s: State, ghost run: seq<Action>, known: Known, chips: seq<Chip>, ownPort: nat, answers: LeaseId -> Answer)
    returns (live: seq<Who>, calls: seq<LeaseId>)
    requires Start(s) && Possible(s, run)
    requires After(s, run).phase.Acting? && !HasTurn(After(s, run))
    requires known == After(s, run).known && StatusOf(chips, After(s, run).was.liveAtStatus)
    ensures forall w :: w in live <==> w in StationHolders(After(s, run).was.liveAtStatus)
    ensures calls == After(s, run).calls
  {
    AlwaysInvariant(s, run);
    var report;
    report, live, calls := Sweep(Some(known.ports), Some(chips), known.history, ownPort, answers);
    CallsAreSettled(s, run);
    forall w
      ensures w in live <==> w in known.holders
    {
      StatusShowsHolders(chips, After(s, run).was.liveAtStatus, w);
    }
    assert ElementsOf(live) == known.holders;
  }

  lemma LastRecordsAreLast(log: seq<HistoryRecord>)
    ensures |LastRecords(log)| == if |log| < 200 then |log| else 200
    ensures log[|log| - |LastRecords(log)|..] == LastRecords(log)
  {
  }

  /** Nothing keeps the others from acting: ids may be granted again, and any live lease may end. */
  lemma OthersAreFree(s: State, id: LeaseId, who: Who, reaped: bool, serving: set<nat>)
    ensures Enabled(s, Grant(id, who)) && Enabled(s, Adopt(id, who)) && Enabled(s, Containers(serving))
    ensures Enabled(s, Close(id, reaped)) <==> id in s.live
  {
  }
}
