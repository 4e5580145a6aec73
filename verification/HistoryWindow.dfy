/** What the sweep makes of a lease whose opening fell off the end of the log it reads. */
module HistoryWindow {
  import opened Wrappers
  import opened Seqs
  import opened LeaseHistory
  import opened StartupSweep

  predicate OpenUnder(open: seq<Lease>, who: Who) {
    exists l <- open :: l.who == who
  }

  /** A lease that is open, but not by the records that were read. */
  ghost predicate Hidden(h1: seq<HistoryRecord>, h2: seq<HistoryRecord>, l: Lease) {
    l in OpenLeases(h1 + h2) && l !in OpenLeases(h2)
  }

  /**
   * A hidden lease is never asked for. Its live holder is reported as having no lease exactly when
   * nothing else is open under that holder in what was read.
   */
  lemma HiddenLease(h1: seq<HistoryRecord>, h2: seq<HistoryRecord>, l: Lease, live: seq<Who>, ports: set<nat>)
    requires Hidden(h1, h2, l) && l.who in live
    ensures l.id !in Calls(OpenLeases(h2), ElementsOf(live), ports)
    ensures l.who in Unnamed(live, OpenLeases(h2)) <==> !OpenUnder(OpenLeases(h2), l.who)
  {
    IdNotRead(h1, h2, l);
    EveryHolderAnswered(OpenLeases(h2), live, l.who);
    CalledIsOpen(OpenLeases(h2), ElementsOf(live), ports, l.id);
  }

  lemma IdNotRead(h1: seq<HistoryRecord>, h2: seq<HistoryRecord>, l: Lease)
    requires Hidden(h1, h2, l)
    ensures forall other :: other in OpenLeases(h2) ==> other.id != l.id
  {
    OpenLeasesMeaning(h1 + h2);
    forall other | other in OpenLeases(h2)
      ensures other.id != l.id
    {
      WindowUnderReports(h1, h2, other);
      assert other in OpenLeases(h1 + h2) && OpenHolder(h1 + h2, other.id) == Some(other.who);
    }
  }

  lemma CalledIsOpen(open: seq<Lease>, live: set<Who>, ports: set<nat>, id: LeaseId)
    ensures id in Calls(open, live, ports) ==> exists l <- open :: l.id == id
  {
    var stale := Filter(open, IsStale(live, ports));
    FilterMembers(open, IsStale(live, ports));
    if id in Calls(open, live, ports) {
      var k :| 0 <= k < |stale| && stale[k].id == id;
      assert stale[k] in open;
    }
  }

  /** Two leases of one holder, the first opened before the window: it is neither asked for nor reported. */
  lemma HiddenInSilence(who: Who, live: seq<Who>, ports: set<nat>)
    requires who in live
    ensures var h1 := [HistoryRecord(Some("granted"), Some("a"), Some(who))];
            var h2 := [HistoryRecord(Some("granted"), Some("b"), Some(who))];
            && Hidden(h1, h2, Lease("a", who))
            && "a" !in Calls(OpenLeases(h2), ElementsOf(live), ports) && who !in Unnamed(live, OpenLeases(h2))
  {
    var h1 := [HistoryRecord(Some("granted"), Some("a"), Some(who))];
    var h2 := [HistoryRecord(Some("granted"), Some("b"), Some(who))];
    var a, b := Lease("a", who), Lease("b", who);
    assert h1[..0] == [] && h2[..0] == [];
    assert OpenLeases(h1) == [a] && OpenLeases(h2) == [b];
    assert a.id != b.id;
    WindowUnderReports(h1, h2, a);
    HiddenLease(h1, h2, a, live, ports);
    assert b in OpenLeases(h2) && b.who == who;
  }
}
