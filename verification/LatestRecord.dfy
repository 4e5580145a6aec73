/**
 * The rule the sweep is documented to follow, one lease for each stale live holder, against the
 * loop, which acts on every open id of such a holder.
 */
module LatestRecord {
  import opened Wrappers
  import opened Seqs
  import opened Holders
  import opened LeaseHistory
  import opened StartupSweep

  /** A later record ends the lease of that id. */
  predicate ClosedAfter(h: seq<HistoryRecord>, i: nat, id: LeaseId) {
    exists j :: i < j < |h| && h[j].leaseId == Some(id) && Closes(h[j])
  }

  /** A granted or adopted record for that exact `who`, with no later closing one for the same id. */
  predicate Names(h: seq<HistoryRecord>, i: nat, who: Who)
    requires i < |h|
  {
    Opens(h[i]) && HolderOf(h[i]) == who && h[i].leaseId.Some? && !ClosedAfter(h, i, h[i].leaseId.value)
  }

  /** The id of the latest such record among the first `n`. */
  function LatestUpTo(h: seq<HistoryRecord>, n: nat, who: Who): (r: Option<LeaseId>)
    requires n <= |h|
    ensures r.Some? ==> exists i :: 0 <= i < n && Names(h, i, who) && h[i].leaseId == r
    ensures r.None? ==> forall i :: 0 <= i < n ==> !Names(h, i, who)
  {
    if n == 0 then None
    else if Names(h, n - 1, who) then h[n - 1].leaseId
    else LatestUpTo(h, n - 1, who)
  }

  function LatestFor(h: seq<HistoryRecord>, who: Who): Option<LeaseId> {
    LatestUpTo(h, |h|, who)
  }

  /** A live holder with a readable port on which nothing serves. */
  predicate IsStaleHolder(who: Who, live: set<Who>, ports: set<nat>) {
    who in live && ServicePort(who).Some? && ServicePort(who).value !in ports
  }

  /** The leases the loop asks gozer to release. */
  function Asked(h: seq<HistoryRecord>, live: set<Who>, ports: set<nat>): set<Lease> {
    set l | l in OpenLeases(h) && IsStaleHolder(l.who, live, ports)
  }

  /** The leases the documentation describes: the latest record of each stale live holder. */
  function Documented(h: seq<HistoryRecord>, live: set<Who>, ports: set<nat>): set<Lease> {
    set who | who in live && IsStaleHolder(who, live, ports) && LatestFor(h, who).Some? :: Lease(LatestFor(h, who).value, who)
  }

  lemma StaleIs(l: Lease, live: set<Who>, ports: set<nat>)
    ensures IsStale(live, ports)(l) <==> IsStaleHolder(l.who, live, ports)
  {
  }

  lemma AskedAreStale(h: seq<HistoryRecord>, live: set<Who>, ports: set<nat>)
    ensures forall l :: l in Filter(OpenLeases(h), IsStale(live, ports)) <==> l in Asked(h, live, ports)
  {
    FilterMembers(OpenLeases(h), IsStale(live, ports));
    forall l
      ensures IsStale(live, ports)(l) <==> IsStaleHolder(l.who, live, ports)
    {
      StaleIs(l, live, ports);
    }
  }

  /** The releases the sweep issues are those of the asked leases. */
  lemma AskedAreCalled(h: seq<HistoryRecord>, live: set<Who>, ports: set<nat>, id: LeaseId)
    ensures id in Calls(OpenLeases(h), live, ports) <==> exists l <- Asked(h, live, ports) :: l.id == id
  {
    AskedAreStale(h, live, ports);
    InIds(Filter(OpenLeases(h), IsStale(live, ports)), id);
  }

  // ----- when they are the same -----

  /** Two leases of one stale live holder are open. */
  ghost predicate StaleHolderHasTwo(h: seq<HistoryRecord>, live: set<Who>, ports: set<nat>) {
    exists a, b :: a in Asked(h, live, ports) && b in Asked(h, live, ports) && a.who == b.who && a.id != b.id
  }

  /** The latest record of a stale live holder names an id that is now somebody else's. */
  ghost predicate StaleIdTakenOver(h: seq<HistoryRecord>, live: set<Who>, ports: set<nat>) {
    exists who, other :: IsStaleHolder(who, live, ports) && LatestFor(h, who).Some? && other != who
                         && Lease(LatestFor(h, who).value, other) in OpenLeases(h)
  }

  /** After a record opens an id and none closes it, the id is open. */
  lemma {:induction false} StaysOpen(h: seq<HistoryRecord>, i: nat, id: LeaseId)
    requires i < |h| && Opens(h[i]) && h[i].leaseId == Some(id) && !ClosedAfter(h, i, id)
    ensures OpenHolder(h, id).Some?
  {
    var init, last := h[..|h| - 1], h[|h| - 1];
    if i < |init| && !Touches(last, id) {
      assert forall j :: i < j < |init| ==> init[j] == h[j];
      StaysOpen(init, i, id);
    }
  }

  /** There is a record behind an open lease. */
  lemma {:induction false} OpeningRecord(h: seq<HistoryRecord>, id: LeaseId)
    requires OpenHolder(h, id).Some?
    ensures exists i :: 0 <= i < |h| && h[i].leaseId == Some(id) && Names(h, i, OpenHolder(h, id).value)
  {
    var init, last := h[..|h| - 1], h[|h| - 1];
    if Touches(last, id) {
      assert Names(h, |h| - 1, OpenHolder(h, id).value);
    } else {
      OpeningRecord(init, id);
      var i :| 0 <= i < |init| && init[i].leaseId == Some(id) && Names(init, i, OpenHolder(init, id).value);
      assert forall j :: 0 <= j < |init| ==> init[j] == h[j];
      assert Names(h, i, OpenHolder(h, id).value);
    }
  }

  /** An open lease's holder has a latest record, and its id is open under someone. */
  lemma LatestIsOpen(h: seq<HistoryRecord>, who: Who) returns (other: Who)
    requires LatestFor(h, who).Some?
    ensures Lease(LatestFor(h, who).value, other) in OpenLeases(h)
  {
    var id := LatestFor(h, who).value;
    var i :| 0 <= i < |h| && Names(h, i, who) && h[i].leaseId == Some(id);
    StaysOpen(h, i, id);
    OpenLeasesMeaning(h);
    other := OpenHolder(h, id).value;
    assert OpenHolder(h, Lease(id, other).id) == Some(Lease(id, other).who);
  }

  lemma OpenHasLatest(h: seq<HistoryRecord>, l: Lease)
    requires l in OpenLeases(h)
    ensures LatestFor(h, l.who).Some?
  {
    OpenLeasesMeaning(h);
    OpeningRecord(h, l.id);
  }

  /** What the documentation names is what the loop asks for, unless an id was taken over. */
  lemma DocumentedAreAsked(h: seq<HistoryRecord>, live: set<Who>, ports: set<nat>)
    ensures Documented(h, live, ports) <= Asked(h, live, ports) <==> !StaleIdTakenOver(h, live, ports)
  {
    OpenLeasesMeaning(h);
    forall who | IsStaleHolder(who, live, ports) && LatestFor(h, who).Some?
      ensures Lease(LatestFor(h, who).value, who) in OpenLeases(h)
              <==> !exists other :: other != who && Lease(LatestFor(h, who).value, other) in OpenLeases(h)
    {
      var other := LatestIsOpen(h, who);
      var mine := Lease(LatestFor(h, who).value, who);
      assert forall l :: l in OpenLeases(h) && l.id == mine.id ==> OpenHolder(h, mine.id) == Some(l.who);
    }
    if StaleIdTakenOver(h, live, ports) {
      var who, other :| IsStaleHolder(who, live, ports) && LatestFor(h, who).Some? && other != who
                        && Lease(LatestFor(h, who).value, other) in OpenLeases(h);
      assert Lease(LatestFor(h, who).value, who) in Documented(h, live, ports);
    }
  }

  /**
   * The loop and the documented rule come to the same leases exactly when no stale live holder has
   * two leases open and none has its latest id in another's hands.
   */
  lemma LatestRecordRule(h: seq<HistoryRecord>, live: set<Who>, ports: set<nat>)
    ensures Asked(h, live, ports) == Documented(h, live, ports)
            <==> !StaleHolderHasTwo(h, live, ports) && !StaleIdTakenOver(h, live, ports)
  {
    DocumentedAreAsked(h, live, ports);
    if !StaleHolderHasTwo(h, live, ports) && !StaleIdTakenOver(h, live, ports) {
      forall l | l in Asked(h, live, ports)
        ensures l in Documented(h, live, ports)
      {
        OpenHasLatest(h, l);
        assert Lease(LatestFor(h, l.who).value, l.who) in Documented(h, live, ports);
      }
    }
  }

  // ----- the two ways they differ -----

  function Granted(id: LeaseId, who: Who): HistoryRecord {
    HistoryRecord(Some("granted"), Some(id), Some(who))
  }

  function Adopted(id: LeaseId, who: Who): HistoryRecord {
    HistoryRecord(Some("adopted"), Some(id), Some(who))
  }

  lemma OneOpening(r: HistoryRecord)
    requires Opens(r) && r.leaseId.Some?
    ensures OpenLeases([r]) == [Lease(r.leaseId.value, HolderOf(r))]
  {
    assert [r][..0] == [];
  }

  lemma OneLeasePosition(l: Lease, id: LeaseId)
    ensures Position([l], id) == if l.id == id then 0 else 1
  {
    assert [l][..0] == [];
  }

  lemma TwoOpenings(first: HistoryRecord, second: HistoryRecord)
    requires Opens(first) && Opens(second) && first.leaseId.Some? && second.leaseId.Some?
    ensures var a, b := Lease(first.leaseId.value, HolderOf(first)), Lease(second.leaseId.value, HolderOf(second));
            OpenLeases([first, second]) == if a.id == b.id then [b] else [a, b]
  {
    var a := Lease(first.leaseId.value, HolderOf(first));
    OneOpening(first);
    OneLeasePosition(a, second.leaseId.value);
    assert [first, second][..1] == [first];
    assert OpenLeases([first, second]) == Step([a], second);
  }

  /** Two grants to one stale live holder: both are released, where the documentation names the later. */
  lemma BothGrantsReleased(port: nat, model: string)
    requires port <= 65535 && model != ""
    ensures var who := HolderName(port, model);
            var h := [Granted("a", who), Granted("b", who)];
            Asked(h, {who}, {}) == {Lease("a", who), Lease("b", who)} && Documented(h, {who}, {}) == {Lease("b", who)}
  {
    var who := HolderName(port, model);
    AloneIsStale(port, model);
    BothGranted(who);
  }

  lemma AloneIsStale(port: nat, model: string)
    requires port <= 65535 && model != ""
    ensures IsStaleHolder(HolderName(port, model), {HolderName(port, model)}, {})
  {
    WhoRoundTrip(port, model);
  }

  /** With one stale holder the documented rule is about its latest record. */
  lemma DocumentedAlone(h: seq<HistoryRecord>, who: Who, id: LeaseId)
    requires IsStaleHolder(who, {who}, {}) && LatestFor(h, who) == Some(id)
    ensures Documented(h, {who}, {}) == {Lease(id, who)}
  {
  }

  lemma BothGranted(who: Who)
    requires IsStaleHolder(who, {who}, {})
    ensures var h := [Granted("a", who), Granted("b", who)];
            Asked(h, {who}, {}) == {Lease("a", who), Lease("b", who)} && Documented(h, {who}, {}) == {Lease("b", who)}
  {
    var h := [Granted("a", who), Granted("b", who)];
    TwoOpenings(h[0], h[1]);
    assert "a" != "b" && Names(h, 1, who);
    DocumentedAlone(h, who, "b");
  }

  /** An id adopted by another holder: the documentation still names it, and the loop leaves it alone. */
  lemma TakenOverIsNamed(port: nat, model: string, other: Who)
    requires port <= 65535 && model != "" && other != HolderName(port, model)
    ensures var who := HolderName(port, model);
            var h := [Granted("a", who), Adopted("a", other)];
            Asked(h, {who}, {}) == {} && Documented(h, {who}, {}) == {Lease("a", who)}
  {
    var who := HolderName(port, model);
    AloneIsStale(port, model);
    TakenOver(who, other);
  }

  lemma TakenOver(who: Who, other: Who)
    requires IsStaleHolder(who, {who}, {}) && other != who
    ensures var h := [Granted("a", who), Adopted("a", other)];
            Asked(h, {who}, {}) == {} && Documented(h, {who}, {}) == {Lease("a", who)}
  {
    var h := [Granted("a", who), Adopted("a", other)];
    TwoOpenings(h[0], h[1]);
    assert Names(h, 0, who) && !Names(h, 1, who);
    assert LatestUpTo(h, 1, who) == Some("a");
    DocumentedAlone(h, who, "a");
  }
}
