/**
 * The startup sweep: release every `tt-station:` lease whose service port has nothing serving on
 * it. Here the three reads and gozer's answers to the release commands are values; SweepProtocol
 * lets other tenants act between them.
 */
module StartupSweep {
  import opened Wrappers
  import opened Seqs
  import opened Holders
  import opened LeaseHistory

  /** One chip of `gozer status`. */
  datatype Chip = Chip(state: string, who: Option<Who>, bdf: string, board: string)

  /** How gozer answers one command: it could not be run, or it exited with a code. */
  datatype Answer = NotRun | Exit(code: int)

  const EXIT_NO_LEASE := 13

  /** `release`: a lease that is already gone counts as released. */
  predicate Releases(answer: Answer) {
    answer.Exit? && (answer.code == 0 || answer.code == EXIT_NO_LEASE)
  }

  datatype SweepReport = SweepReport(
    released: seq<LeaseId>,
    kept: seq<LeaseId>,
    adoptable: seq<Lease>,
    unresolved: seq<Who>)

  /** What the sweep decides about one open lease, given the ports something serves on. */
  datatype Verdict = Uncorroborated | NoPort | Serving(port: nat) | Stale(port: nat)

  function Judge(l: Lease, live: set<Who>, ports: set<nat>): (v: Verdict) {
    if l.who !in live then Uncorroborated
    else
      match ServicePort(l.who)
      case None => NoPort
      case Some(port) => if port in ports then Serving(port) else Stale(port)
  }

  /** A chip that is not free shows that station holder. */
  ghost predicate Shows(chips: seq<Chip>, who: Who) {
    exists chip <- chips :: chip.state != "FREE" && chip.who == Some(who) && "tt-station:" <= who
  }

  function ElementsOf(s: seq<Who>): (r: set<Who>)
    ensures forall w :: w in r <==> w in s
  {
    set w | w in s
  }

  method LiveHolders(chips: seq<Chip>) returns (live: seq<Who>)
    ensures Distinct(live)
    ensures forall w :: w in live <==>
              exists chip <- chips :: chip.state != "FREE" && chip.who == Some(w) && "tt-station:" <= w
  {
    live := [];
    for i := 0 to |chips|
      invariant Distinct(live)
      invariant forall w :: w in live <==> Shows(chips[..i], w)
    {
      var chip := chips[i];
      ShowsSnoc(chips[..i], chip);
      assert chips[..i + 1] == chips[..i] + [chip];
      if chip.state == "FREE" {
        continue;
      }
      if chip.who.None? {
        continue;
      }
      var who := chip.who.value;
      if IsStation(who) && who !in live {
        DistinctSnoc(live, who);
        live := live + [who];
      }
    }
    assert chips[..|chips|] == chips;
    assert forall w :: w in live <==> Shows(chips, w);
  }

  lemma ShowsSnoc(chips: seq<Chip>, chip: Chip)
    ensures forall w :: Shows(chips + [chip], w)
                        <==> Shows(chips, w) || (chip.state != "FREE" && chip.who == Some(w) && "tt-station:" <= w)
  {
    assert forall c :: c in chips + [chip] <==> c in chips || c == chip;
  }

  function Ids(leases: seq<Lease>): (r: seq<LeaseId>)
    ensures |r| == |leases| && forall i :: 0 <= i < |r| ==> r[i] == leases[i].id
  {
    seq(|leases|, i requires 0 <= i < |leases| => leases[i].id)
  }

  function Whos(leases: seq<Lease>): (r: seq<Who>)
    ensures |r| == |leases| && forall i :: 0 <= i < |r| ==> r[i] == leases[i].who
  {
    seq(|leases|, i requires 0 <= i < |leases| => leases[i].who)
  }

  // The open leases under each verdict, in the order the history opened them.

  function IsStale(live: set<Who>, ports: set<nat>): Lease -> bool {
    l => Judge(l, live, ports).Stale?
  }

  function IsServing(live: set<Who>, ports: set<nat>): Lease -> bool {
    l => Judge(l, live, ports).Serving?
  }

  function IsOwn(live: set<Who>, ports: set<nat>, ownPort: nat): Lease -> bool {
    l => Judge(l, live, ports) == Serving(ownPort)
  }

  function NamesPort(port: nat): Lease -> bool {
    (l: Lease) => ServicePort(l.who) == Some(port)
  }

  function IsPortless(live: set<Who>, ports: set<nat>): Lease -> bool {
    l => Judge(l, live, ports).NoPort?
  }

  function IsReleased(live: set<Who>, ports: set<nat>, answers: LeaseId -> Answer): Lease -> bool {
    l => Judge(l, live, ports).Stale? && Releases(answers(l.id))
  }

  function IsRefused(live: set<Who>, ports: set<nat>, answers: LeaseId -> Answer): Lease -> bool {
    l => Judge(l, live, ports).Stale? && !Releases(answers(l.id))
  }

  /** The release commands the sweep issues. */
  function Calls(open: seq<Lease>, live: set<Who>, ports: set<nat>): seq<LeaseId> {
    Ids(Filter(open, IsStale(live, ports)))
  }

  /** One lease added to the report. */
  function Tally(report: SweepReport, l: Lease, v: Verdict, ownPort: nat, gone: bool): SweepReport {
    match v
    case Uncorroborated => report
    case NoPort => report.(unresolved := report.unresolved + [l.who])
    case Serving(port) =>
      report.(kept := report.kept + [l.id],
              adoptable := if port == ownPort then report.adoptable + [l] else report.adoptable)
    case Stale(_) => if gone then report.(released := report.released + [l.id]) else report
  }

  const NOTHING := SweepReport([], [], [], [])

  /** What the sweep reports about the leases the history shows open. */
  function ReportOn(open: seq<Lease>, live: set<Who>, ports: set<nat>, ownPort: nat, answers: LeaseId -> Answer): SweepReport {
    if open == [] then NOTHING
    else
      var init, l := open[..|open| - 1], open[|open| - 1];
      Tally(ReportOn(init, live, ports, ownPort, answers), l, Judge(l, live, ports), ownPort, Releases(answers(l.id)))
  }

  /** The live holders no open lease names, in the order the chips showed them. */
  function Unnamed(live: seq<Who>, open: seq<Lease>): seq<Who> {
    Filter(live, (w: Who) => w !in Whos(open))
  }

  function IsIn(live: seq<Who>): Who -> bool {
    w => w in live
  }

  lemma OneMoreOpen(open: seq<Lease>, i: nat, live: seq<Who>, ports: set<nat>, ownPort: nat, answers: LeaseId -> Answer)
    requires i < |open|
    ensures var lives, l := ElementsOf(live), open[i];
            var v := Judge(l, lives, ports);
            && Calls(open[..i + 1], lives, ports) == Calls(open[..i], lives, ports) + (if v.Stale? then [l.id] else [])
            && ReportOn(open[..i + 1], lives, ports, ownPort, answers)
               == Tally(ReportOn(open[..i], lives, ports, ownPort, answers), l, v, ownPort, Releases(answers(l.id)))
            && Filter(Whos(open)[..i + 1], IsIn(live)) == Filter(Whos(open)[..i], IsIn(live)) + (if l.who in live then [l.who] else [])
  {
    assert open[..i + 1][..i] == open[..i];
    FilterPrefix(open, i, IsStale(ElementsOf(live), ports));
    FilterPrefix(Whos(open), i, IsIn(live));
  }

  /** Act on each open lease in turn: skip it, keep it, or ask gozer to release it. */
  method ActOnOpen(open: seq<Lease>, live: seq<Who>, ports: set<nat>, ownPort: nat, answers: LeaseId -> Answer)
    returns (report: SweepReport, calls: seq<LeaseId>, handled: seq<Who>)
    ensures calls == Calls(open, ElementsOf(live), ports)
    ensures report == ReportOn(open, ElementsOf(live), ports, ownPort, answers)
    ensures handled == Filter(Whos(open), IsIn(live))
  {
    report, calls, handled := NOTHING, [], [];
    for i := 0 to |open|
      invariant calls == Calls(open[..i], ElementsOf(live), ports)
      invariant report == ReportOn(open[..i], ElementsOf(live), ports, ownPort, answers)
      invariant handled == Filter(Whos(open)[..i], IsIn(live))
    {
      var l := open[i];
      OneMoreOpen(open, i, live, ports, ownPort, answers);
      if l.who !in live {
        continue;
      }
      handled := handled + [l.who];
      var port := ServicePort(l.who);
      if port.None? {
        report := report.(unresolved := report.unresolved + [l.who]);
        continue;
      }
      if port.value in ports {
        if port.value == ownPort {
          report := report.(adoptable := report.adoptable + [l]);
        }
        report := report.(kept := report.kept + [l.id]);
        continue;
      }
      calls := calls + [l.id];
      if Releases(answers(l.id)) {
        report := report.(released := report.released + [l.id]);
      }
    }
    assert open[..|open|] == open && Whos(open)[..|open|] == Whos(open);
  }

  /** Report the live holders that no open lease names. */
  method ReportUnnamed(live: seq<Who>, handled: seq<Who>, open: seq<Lease>) returns (unnamed: seq<Who>)
    requires forall w :: w in handled <==> w in live && w in Whos(open)
    ensures unnamed == Unnamed(live, open)
  {
    unnamed := [];
    for i := 0 to |live|
      invariant unnamed == Filter(live[..i], (w: Who) => w !in Whos(open))
    {
      FilterPrefix(live, i, (w: Who) => w !in Whos(open));
      if live[i] !in handled {
        unnamed := unnamed + [live[i]];
      }
    }
    assert live[..|live|] == live;
  }

  /**
   * The sweep. `answers` is what gozer answers to a release of each id; `calls` are the releases
   * it was asked for, in order.
   */
  method Sweep(docker: Option<set<nat>>, status: Option<seq<Chip>>, history: Option<seq<HistoryRecord>>,
               ownPort: nat, answers: LeaseId -> Answer)
    returns (report: SweepReport, live: seq<Who>, calls: seq<LeaseId>)
    ensures docker.None? || status.None? ==> report == NOTHING && calls == [] && live == []
    ensures docker.None? || status.None? || history.None? ==> calls == [] && report.released == []
    ensures docker.Some? && status.Some? ==>
              forall w :: w in live <==>
                exists chip <- status.value :: chip.state != "FREE" && chip.who == Some(w) && "tt-station:" <= w
    ensures status.Some? && (forall chip <- status.value :: chip.state == "FREE") ==> live == [] && calls == []
    ensures forall id :: id in calls <==>
              && docker.Some? && status.Some? && history.Some?
              && exists l <- OpenLeases(history.value) :: l.id == id && ShownStale(l, status.value, docker.value)
    ensures forall id :: id in report.released <==>
              && docker.Some? && status.Some? && history.Some?
              && exists l <- OpenLeases(history.value) ::
                   l.id == id && ShownStale(l, status.value, docker.value) && answers(id) in {Exit(0), Exit(13)}
    ensures docker.Some? && status.Some? ==>
              var open := if history.Some? then OpenLeases(history.value) else [];
              && (forall id :: id in report.kept <==> exists l <- open :: l.id == id && ShownServing(l, status.value, docker.value))
              && (forall l :: l in report.adoptable
                              <==> l in open && ShownServing(l, status.value, docker.value) && ServicePort(l.who) == Some(ownPort))
              && (forall w :: w in report.unresolved
                              <==> Shows(status.value, w) && (ServicePort(w).None? || forall l <- open :: l.who != w))
    ensures docker.Some? && status.Some? ==>
              var open, lives := if history.Some? then OpenLeases(history.value) else [], ElementsOf(live);
              && calls == Calls(open, lives, docker.value)
              && report == ReportOn(open, lives, docker.value, ownPort, answers)
                 .(unresolved := Whos(Filter(open, IsPortless(lives, docker.value))) + Unnamed(live, open))
  {
    report, live, calls := NOTHING, [], [];
    if docker.None? || status.None? {
      return;
    }
    live := LiveHolders(status.value);
    assert forall w :: w in live <==> Shows(status.value, w);
    assert live != [] ==> Shows(status.value, live[0]);
    ReleasesMeaning(if history.Some? then OpenLeases(history.value) else [], live, docker.value, answers, status.value, ownPort);
    KeptMeaning(if history.Some? then OpenLeases(history.value) else [], live, docker.value, answers, status.value, ownPort);
    UnresolvedMeaning(if history.Some? then OpenLeases(history.value) else [], live, docker.value);
    if live == [] {
      assert ElementsOf(live) == {};
      ghost var unread := if history.Some? then OpenLeases(history.value) else [];
      NothingLive(unread, docker.value, ownPort, answers);
      ReportUnresolved(unread, {}, docker.value, ownPort, answers);
      return;
    }
    var open := OpenLeasesFromHistory(history);
    var handled;
    report, calls, handled := ActOnOpen(open, live, docker.value, ownPort, answers);
    FilterMembers(Whos(open), IsIn(live));
    var unnamed := ReportUnnamed(live, handled, open);
    ReportUnresolved(open, ElementsOf(live), docker.value, ownPort, answers);
    report := report.(unresolved := report.unresolved + unnamed);
  }

  /** A chip shows the lease's holder, and its port is readable and not in use. */
  ghost predicate ShownStale(l: Lease, chips: seq<Chip>, ports: set<nat>) {
    Shows(chips, l.who) && ServicePort(l.who).Some? && ServicePort(l.who).value !in ports
  }

  /** A chip shows the lease's holder, and its port is in use. */
  ghost predicate ShownServing(l: Lease, chips: seq<Chip>, ports: set<nat>) {
    Shows(chips, l.who) && ServicePort(l.who).Some? && ServicePort(l.who).value in ports
  }

  lemma KeptMeaning(open: seq<Lease>, live: seq<Who>, ports: set<nat>, answers: LeaseId -> Answer, chips: seq<Chip>, ownPort: nat)
    requires forall w :: w in live <==> Shows(chips, w)
    ensures forall id :: id in ReportOn(open, ElementsOf(live), ports, ownPort, answers).kept
                         <==> exists l <- open :: l.id == id && ShownServing(l, chips, ports)
    ensures forall l :: l in ReportOn(open, ElementsOf(live), ports, ownPort, answers).adoptable
                        <==> l in open && ShownServing(l, chips, ports) && ServicePort(l.who) == Some(ownPort)
  {
    var lives := ElementsOf(live);
    ReportKept(open, lives, ports, ownPort, answers);
    ReportAdoptable(open, lives, ports, ownPort, answers);
    FilterMembers(open, IsServing(lives, ports));
    FilterMembers(open, IsOwn(lives, ports, ownPort));
    forall id
      ensures id in Ids(Filter(open, IsServing(lives, ports))) <==> exists l <- open :: l.id == id && ShownServing(l, chips, ports)
    {
      InIds(Filter(open, IsServing(lives, ports)), id);
    }
  }

  lemma UnresolvedMeaning(open: seq<Lease>, live: seq<Who>, ports: set<nat>)
    ensures forall w :: w in Whos(Filter(open, IsPortless(ElementsOf(live), ports))) + Unnamed(live, open)
                        <==> w in live && (ServicePort(w).None? || forall l <- open :: l.who != w)
  {
    var portless := Filter(open, IsPortless(ElementsOf(live), ports));
    FilterMembers(open, IsPortless(ElementsOf(live), ports));
    forall w
      ensures w in Whos(portless) + Unnamed(live, open) <==> w in live && (ServicePort(w).None? || forall l <- open :: l.who != w)
    {
      InWhos(portless, w);
      if w in live {
        EveryHolderAnswered(open, live, w);
      }
      FilterMembers(live, (who: Who) => who !in Whos(open));
    }
  }

  lemma InWhos(leases: seq<Lease>, w: Who)
    ensures w in Whos(leases) <==> exists l <- leases :: l.who == w
  {
    if w in Whos(leases) {
      var k :| 0 <= k < |leases| && Whos(leases)[k] == w;
      assert leases[k] in leases;
    }
    if l :| l in leases && l.who == w {
      var k :| 0 <= k < |leases| && leases[k] == l;
      assert Whos(leases)[k] == w;
    }
  }

  lemma ReleasesMeaning(open: seq<Lease>, live: seq<Who>, ports: set<nat>, answers: LeaseId -> Answer, chips: seq<Chip>, ownPort: nat)
    requires forall w :: w in live <==> Shows(chips, w)
    ensures forall id :: id in Calls(open, ElementsOf(live), ports) <==> exists l <- open :: l.id == id && ShownStale(l, chips, ports)
    ensures forall id :: id in ReportOn(open, ElementsOf(live), ports, ownPort, answers).released
                         <==> exists l <- open :: l.id == id && ShownStale(l, chips, ports) && answers(id) in {Exit(0), Exit(13)}
  {
    var lives := ElementsOf(live);
    ReportReleased(open, lives, ports, ownPort, answers);
    FilterMembers(open, IsStale(lives, ports));
    FilterMembers(open, IsReleased(lives, ports, answers));
    forall id
      ensures id in Calls(open, lives, ports) <==> exists l <- open :: l.id == id && ShownStale(l, chips, ports)
      ensures id in Ids(Filter(open, IsReleased(lives, ports, answers)))
              <==> exists l <- open :: l.id == id && ShownStale(l, chips, ports) && answers(id) in {Exit(0), Exit(13)}
    {
      InIds(Filter(open, IsStale(lives, ports)), id);
      InIds(Filter(open, IsReleased(lives, ports, answers)), id);
    }
  }

  lemma InIds(leases: seq<Lease>, id: LeaseId)
    ensures id in Ids(leases) <==> exists l <- leases :: l.id == id
  {
    if id in Ids(leases) {
      var k :| 0 <= k < |leases| && Ids(leases)[k] == id;
      assert leases[k] in leases;
    }
    if l :| l in leases && l.id == id {
      var k :| 0 <= k < |leases| && leases[k] == l;
      assert Ids(leases)[k] == id;
    }
  }

  lemma {:induction false} NothingLive(open: seq<Lease>, ports: set<nat>, ownPort: nat, answers: LeaseId -> Answer)
    ensures Calls(open, {}, ports) == [] && ReportOn(open, {}, ports, ownPort, answers) == NOTHING
  {
    if open != [] {
      NothingLive(open[..|open| - 1], ports, ownPort, answers);
    }
  }

  // ----- what each list of the report holds -----

  lemma {:induction false} ReportReleased(open: seq<Lease>, live: set<Who>, ports: set<nat>, ownPort: nat, answers: LeaseId -> Answer)
    ensures ReportOn(open, live, ports, ownPort, answers).released == Ids(Filter(open, IsReleased(live, ports, answers)))
  {
    if open != [] {
      ReportReleased(open[..|open| - 1], live, ports, ownPort, answers);
    }
  }

  lemma {:induction false} ReportKept(open: seq<Lease>, live: set<Who>, ports: set<nat>, ownPort: nat, answers: LeaseId -> Answer)
    ensures ReportOn(open, live, ports, ownPort, answers).kept == Ids(Filter(open, IsServing(live, ports)))
  {
    if open != [] {
      ReportKept(open[..|open| - 1], live, ports, ownPort, answers);
    }
  }

  lemma {:induction false} ReportAdoptable(open: seq<Lease>, live: set<Who>, ports: set<nat>, ownPort: nat, answers: LeaseId -> Answer)
    ensures ReportOn(open, live, ports, ownPort, answers).adoptable == Filter(open, IsOwn(live, ports, ownPort))
  {
    if open != [] {
      ReportAdoptable(open[..|open| - 1], live, ports, ownPort, answers);
    }
  }

  /** The leases handed back for adoption are the kept ones on the agent's own port, in order. */
  lemma {:induction false} AdoptableAreKept(open: seq<Lease>, live: set<Who>, ports: set<nat>, ownPort: nat)
    ensures Filter(open, IsOwn(live, ports, ownPort))
            == Filter(Filter(open, IsServing(live, ports)), NamesPort(ownPort))
  {
    if open != [] {
      var init, l := open[..|open| - 1], open[|open| - 1];
      AdoptableAreKept(init, live, ports, ownPort);
      if Judge(l, live, ports).Serving? {
        FilterSnoc(Filter(init, IsServing(live, ports)), l, NamesPort(ownPort));
      }
    }
  }

  lemma {:induction false} ReportUnresolved(open: seq<Lease>, live: set<Who>, ports: set<nat>, ownPort: nat, answers: LeaseId -> Answer)
    ensures ReportOn(open, live, ports, ownPort, answers).unresolved == Whos(Filter(open, IsPortless(live, ports)))
  {
    if open != [] {
      ReportUnresolved(open[..|open| - 1], live, ports, ownPort, answers);
    }
  }

  // ----- accounting -----

  lemma IdFindsLease(open: seq<Lease>, keep: Lease -> bool, l: Lease)
    requires UniqueIds(open) && l in open
    ensures l.id in Ids(Filter(open, keep)) <==> keep(l)
  {
    var kept := Filter(open, keep);
    FilterMembers(open, keep);
    if l.id in Ids(kept) {
      var k :| 0 <= k < |kept| && kept[k].id == l.id;
      assert kept[k] in open;
    }
    if keep(l) {
      var k :| 0 <= k < |kept| && kept[k] == l;
      assert Ids(kept)[k] == l.id;
    }
  }

  /**
   * Every open lease under a live holder is in exactly one of released, refused, kept and
   * portless; a lease under any other holder is in none of them.
   */
  lemma EachLeaseOnce(open: seq<Lease>, live: set<Who>, ports: set<nat>, answers: LeaseId -> Answer, l: Lease)
    requires UniqueIds(open) && l in open
    ensures var released := l.id in Ids(Filter(open, IsReleased(live, ports, answers)));
            var refused := l.id in Ids(Filter(open, IsRefused(live, ports, answers)));
            var kept := l.id in Ids(Filter(open, IsServing(live, ports)));
            var portless := l.id in Ids(Filter(open, IsPortless(live, ports)));
            && (l.who in live <==> released || refused || kept || portless)
            && !(released && refused) && !(released && kept) && !(released && portless)
            && !(refused && kept) && !(refused && portless) && !(kept && portless)
            && (l.id in Calls(open, live, ports) <==> released || refused)
  {
    IdFindsLease(open, IsReleased(live, ports, answers), l);
    IdFindsLease(open, IsRefused(live, ports, answers), l);
    IdFindsLease(open, IsServing(live, ports), l);
    IdFindsLease(open, IsPortless(live, ports), l);
    IdFindsLease(open, IsStale(live, ports), l);
  }

  /** Nothing is lost in the counts either. */
  lemma {:induction false} CountsAddUp(open: seq<Lease>, live: set<Who>, ports: set<nat>, answers: LeaseId -> Answer)
    ensures |Filter(open, (l: Lease) => l.who in live)|
            == |Filter(open, IsReleased(live, ports, answers))| + |Filter(open, IsRefused(live, ports, answers))|
             + |Filter(open, IsServing(live, ports))| + |Filter(open, IsPortless(live, ports))|
  {
    if open != [] {
      CountsAddUp(open[..|open| - 1], live, ports, answers);
    }
  }

  /** Every live holder is acted on through some open lease or reported as having none. */
  lemma EveryHolderAnswered(open: seq<Lease>, live: seq<Who>, w: Who)
    requires w in live
    ensures (exists l <- open :: l.who == w) <==> w !in Unnamed(live, open)
  {
    FilterMembers(live, (w: Who) => w !in Whos(open));
    if exists l <- open :: l.who == w {
      var k :| 0 <= k < |open| && open[k].who == w;
      assert Whos(open)[k] == w;
    }
    if w in Whos(open) {
      var k :| 0 <= k < |open| && Whos(open)[k] == w;
      assert open[k] in open;
    }
  }

  /**
   * The sweep acts on every open id of a live holder, not only on the holder's latest record:
   * either all of them are asked for or none is.
   */
  lemma AllIdsOfAHolderTogether(open: seq<Lease>, live: set<Who>, ports: set<nat>, a: Lease, b: Lease)
    requires UniqueIds(open) && a in open && b in open && a.who == b.who
    ensures a.id in Calls(open, live, ports) <==> b.id in Calls(open, live, ports)
  {
    IdFindsLease(open, IsStale(live, ports), a);
    IdFindsLease(open, IsStale(live, ports), b);
  }
}
