/**
 * Where the sweep's promise ends: from any state in which a stale lease is still to be looked at,
 * the others can bring it to take a lease it never saw, or one that serves.
 */
module SweepLimits {
  import opened Wrappers
  import opened Holders
  import opened LeaseHistory
  import opened StartupSweep
  import opened SweepProtocol

  lemma {:induction false} Compose(s: State, a: seq<Action>, b: seq<Action>)
    requires Possible(s, a)
    ensures Possible(s, a + b) <==> Possible(After(s, a), b)
    ensures Possible(s, a + b) ==> After(s, a + b) == After(After(s, a), b)
    decreases |a|
  {
    if a == [] {
      assert a + b == b;
    } else {
      assert (a + b)[1..] == a[1..] + b;
      Compose(Apply(s, a[0]), a[1..], b);
    }
  }

  lemma OneMore(s: State, run: seq<Action>, a: Action)
    requires Possible(s, run) && Enabled(After(s, run), a)
    ensures Possible(s, run + [a]) && After(s, run + [a]) == Apply(After(s, run), a)
  {
    Compose(s, run, [a]);
    var t := After(s, run);
    assert [a][1..] == [];
    assert Possible(Apply(t, a), []) && After(Apply(t, a), []) == Apply(t, a);
  }

  /** End the lease an id names, if there is one, and grant the id anew. */
  function Regrant(s: State, id: LeaseId, who: Who): seq<Action> {
    (if id in s.live then [Close(id, false)] else []) + [Grant(id, who)]
  }

  lemma AfterRegrant(s: State, run: seq<Action>, id: LeaseId, who: Who)
    requires Possible(s, run)
    ensures var t, more := After(s, run), run + Regrant(After(s, run), id, who);
            Possible(s, more)
            && After(s, more) == t.(live := t.live[id := Held(t.born, who)], born := t.born + 1,
                                    log := After(s, more).log, since := After(s, more).since)
            && id in After(s, more).since.openedAfterHistory
  {
    var t := After(s, run);
    var closed := run;
    if id in t.live {
      OneMore(s, run, Close(id, false));
      closed := run + [Close(id, false)];
      assert (t.live - {id})[id := Held(t.born, who)] == t.live[id := Held(t.born, who)];
    }
    OneMore(s, closed, Grant(id, who));
    assert closed + [Grant(id, who)] == run + Regrant(t, id, who);
  }

  /** After `more` the sweep has taken one more lease, while those ports were served and those ids opened anew. */
  ghost predicate Takes(s: State, run: seq<Action>, more: seq<Action>, id: LeaseId, lease: Held, serving: set<nat>, anew: set<LeaseId>)
    requires Possible(s, run) && Possible(s, run + more)
  {
    exists since: Since :: anew <= since.openedAfterHistory
                    && After(s, run + more).removed == After(s, run).removed + [Removal(id, lease, serving, since)]
  }

  /**
   * Whatever stale lease the sweep is about to look at: if its id is granted anew first, to anyone,
   * the sweep takes the new lease.
   */
  lemma ReopenedIsTaken(s: State, run: seq<Action>, who: Who) returns (more: seq<Action>)
    requires Possible(s, run) && TurnIsStale(After(s, run))
    ensures Possible(s, run + more)
    ensures Takes(s, run, more, Turn(After(s, run)).id, Held(After(s, run).born, who), After(s, run).serving, {Turn(After(s, run)).id})
  {
    var t := After(s, run);
    var id := Turn(t).id;
    AfterRegrant(s, run, id, who);
    var regranted := run + Regrant(t, id, who);
    OneMore(s, regranted, NextLease(false));
    more := Regrant(t, id, who) + [NextLease(false)];
    assert regranted + [NextLease(false)] == run + more;
    assert After(s, run + more).removed == t.removed + [Removal(id, Held(t.born, who), t.serving, After(s, regranted).since)];
  }

  /** And if a server comes up on its port first, the sweep takes the lease while it is served. */
  lemma ServedLeaseIsTaken(s: State, run: seq<Action>) returns (more: seq<Action>)
    requires Possible(s, run) && TurnIsStale(After(s, run)) && Turn(After(s, run)).id in After(s, run).live
    ensures Possible(s, run + more) && After(s, run + more).was == After(s, run).was
    ensures var t := After(s, run);
            Takes(s, run, more, Turn(t).id, t.live[Turn(t).id], t.serving + {ServicePort(Turn(t).who).value}, {})
  {
    var t := After(s, run);
    var up := Containers(t.serving + {ServicePort(Turn(t).who).value});
    OneMore(s, run, up);
    OneMore(s, run + [up], NextLease(false));
    more := [up, NextLease(false)];
    assert run + [up] + [NextLease(false)] == run + more;
    var id := Turn(t).id;
    assert After(s, run + more).removed == t.removed + [Removal(id, t.live[id], up.serving, After(s, run + [up]).since)];
  }

  // ----- three runs from an empty box -----

  const EMPTY := State(map[], 0, [], {}, Waiting, Known({}, {}, None), Was(map[], map[], map[]), Since({}, {}, {}, {}, {}), [], [])

  lemma OneOpenLease(who: Who)
    ensures OpenLeases([Opened("a", who, false)]) == [Lease("a", who)]
  {
    var h := [Opened("a", who, false)];
    assert h[..0] == [];
  }

  /** One lease, granted before or after the docker read, was read and is about to be looked at. */
  function Pending(who: Who, early: bool): State {
    var live := map["a" := Held(0, who)];
    var log := [Opened("a", who, false)];
    State(live, 1, log, {}, Acting([Lease("a", who)], 0), Known({}, {who}, Some(log)), Was(if early then live else map[], live, live),
          Since(if early then {} else {"a"}, {}, {}, {}, {}), [], [])
  }

  lemma PendingIsStale(port: nat, model: string, early: bool)
    requires port <= 65535 && model != ""
    ensures var who := HolderName(port, model);
            IsStation(who) && ServicePort(who) == Some(port) && TurnIsStale(Pending(who, early))
  {
    WhoRoundTrip(port, model);
    WhoSplits(port, model);
  }

  /** The same before the other two reads. */
  function Docked(who: Who, early: bool): State {
    var p := Pending(who, early);
    p.(phase := AsksStatus, known := Known({}, {}, None), was := p.was.(liveAtStatus := map[], liveAtHistory := map[]),
       since := p.since.(openedAfterHistory := {"a"}))
  }

  lemma TwoSteps(a: Action, b: Action)
    requires Enabled(EMPTY, a) && Enabled(Apply(EMPTY, a), b)
    ensures Possible(EMPTY, [a, b]) && After(EMPTY, [a, b]) == Apply(Apply(EMPTY, a), b)
  {
    var s := Apply(EMPTY, a);
    assert [a, b][1..] == [b] && [b][1..] == [];
    assert Possible(Apply(s, b), []) && After(Apply(s, b), []) == Apply(s, b);
    assert Possible(s, [b]) && After(s, [b]) == Apply(s, b);
  }

  lemma EarlySteps(who: Who)
    ensures Apply(Apply(EMPTY, Grant("a", who)), ReadDocker(true)) == Docked(who, true)
  {
  }

  lemma LateSteps(who: Who)
    ensures Apply(Apply(EMPTY, ReadDocker(true)), Grant("a", who)) == Docked(who, false)
  {
  }

  lemma DockedRun(who: Who, early: bool) returns (run: seq<Action>)
    ensures Possible(EMPTY, run) && After(EMPTY, run) == Docked(who, early)
  {
    if early {
      TwoSteps(Grant("a", who), ReadDocker(true));
      EarlySteps(who);
      run := [Grant("a", who), ReadDocker(true)];
    } else {
      TwoSteps(ReadDocker(true), Grant("a", who));
      LateSteps(who);
      run := [ReadDocker(true), Grant("a", who)];
    }
  }

  lemma PendingRun(who: Who, early: bool) returns (run: seq<Action>)
    requires IsStation(who)
    ensures Possible(EMPTY, run) && After(EMPTY, run) == Pending(who, early)
  {
    run := DockedRun(who, early);
    var s := Docked(who, early);
    OneOpenLease(who);
    assert StationHolders(s.live) == {who} by {
      assert s.live["a"].who == who;
    }
    OneMore(EMPTY, run, ReadStatus(true));
    run := run + [ReadStatus(true)];
    OneMore(EMPTY, run, ReadHistory(true));
    run := run + [ReadHistory(true)];
  }

  /** The run ends with this one lease taken, while those ports were served. */
  ghost predicate OnlyTook(t: State, lease: Held, serving: set<nat>) {
    exists since :: t.removed == [Removal("a", lease, serving, since)]
  }

  /** Ids are reused: whoever is granted the id after the history read loses it, station or not. */
  lemma ReusedIdIsTaken(port: nat, model: string, tenant: Who) returns (run: seq<Action>)
    requires port <= 65535 && model != ""
    ensures Start(EMPTY) && Possible(EMPTY, run) && OnlyTook(After(EMPTY, run), Held(1, tenant), {})
  {
    PendingIsStale(port, model, true);
    var start := PendingRun(HolderName(port, model), true);
    var more := ReopenedIsTaken(EMPTY, start, tenant);
    run := start + more;
  }

  /**
   * The same holder text does not make it the same lease: the agent's own fresh serve of the same
   * model, on its own port and already up, loses the lease it was just granted.
   */
  lemma RestartedServeIsTaken(port: nat, model: string) returns (run: seq<Action>)
    requires port <= 65535 && model != ""
    ensures Start(EMPTY) && Possible(EMPTY, run) && OnlyTook(After(EMPTY, run), Held(1, HolderName(port, model)), {port})
    ensures After(EMPTY, run).was.liveAtHistory == map["a" := Held(0, HolderName(port, model))]
  {
    var who := HolderName(port, model);
    PendingIsStale(port, model, true);
    var start := PendingRun(who, true);
    AfterRegrant(EMPTY, start, "a", who);
    var again := start + Regrant(After(EMPTY, start), "a", who);
    var more := ServedLeaseIsTaken(EMPTY, again);
    assert After(EMPTY, again).serving + {port} == {port};
    run := again + more;
  }

  /** A lease granted and a server started after the docker read: released while it serves. */
  lemma LateStarterIsTaken(port: nat, model: string) returns (run: seq<Action>)
    requires port <= 65535 && model != ""
    ensures Start(EMPTY) && Possible(EMPTY, run) && OnlyTook(After(EMPTY, run), Held(0, HolderName(port, model)), {port})
    ensures After(EMPTY, run).was.liveAtDocker == map[]
  {
    PendingIsStale(port, model, false);
    var start := PendingRun(HolderName(port, model), false);
    var more := ServedLeaseIsTaken(EMPTY, start);
    assert After(EMPTY, start).serving + {port} == {port};
    run := start + more;
  }
}
