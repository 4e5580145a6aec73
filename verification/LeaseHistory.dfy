/**
 * Which leases a gozer history log shows as open. The agent folds the log into a vector it pushes
 * to, overwrites in place and retains from; the meaning of the result is the last record for each
 * id.
 */
module LeaseHistory {
  import opened Wrappers
  import opened Seqs

  type LeaseId = string
  type Who = string

  datatype HistoryRecord = HistoryRecord(event: Option<string>, leaseId: Option<LeaseId>, who: Option<Who>)

  datatype Lease = Lease(id: LeaseId, who: Who)

  /** One lease. Its id may be used again for a later lease; its serial never is. */
  datatype Held = Held(serial: nat, who: Who)

  type Table = map<LeaseId, Held>

  predicate Opens(r: HistoryRecord) {
    r.event == Some("granted") || r.event == Some("adopted")
  }

  predicate Closes(r: HistoryRecord) {
    r.event == Some("released") || r.event == Some("reaped")
  }

  /** The record says something about whether `id` is open. */
  predicate Touches(r: HistoryRecord, id: LeaseId) {
    r.leaseId == Some(id) && (Opens(r) || Closes(r))
  }

  predicate Touched(h: seq<HistoryRecord>, id: LeaseId) {
    exists r <- h :: Touches(r, id)
  }

  function HolderOf(r: HistoryRecord): Who {
    match r.who case Some(w) => w case None => ""
  }

  /** The holder of `id` after `h`: that of its last touching record, if that record opens it. */
  function OpenHolder(h: seq<HistoryRecord>, id: LeaseId): (r: Option<Who>) {
    if h == [] then None
    else
      var last := h[|h| - 1];
      if !Touches(last, id) then OpenHolder(h[..|h| - 1], id)
      else if Opens(last) then Some(HolderOf(last))
      else None
  }

  /** Where the current opening of `id` began: its first opening record since it was last closed. */
  function OpenedAt(h: seq<HistoryRecord>, id: LeaseId): (r: nat)
    ensures OpenHolder(h, id).Some? ==> r < |h|
  {
    if h == [] then 0
    else
      var init, last := h[..|h| - 1], h[|h| - 1];
      if Touches(last, id) && Opens(last) && OpenHolder(init, id).None? then |init| else OpenedAt(init, id)
  }

  function Without(open: seq<Lease>, id: LeaseId): seq<Lease> {
    Filter(open, (l: Lease) => l.id != id)
  }

  /** `find(|(open_id, _)| open_id == id)`. */
  function Position(open: seq<Lease>, id: LeaseId): (r: nat)
    ensures r <= |open|
    ensures r < |open| ==> open[r].id == id
    ensures forall i :: 0 <= i < r ==> open[i].id != id
  {
    if open == [] then 0
    else
      var p := Position(open[..|open| - 1], id);
      if p < |open| - 1 then p
      else if open[|open| - 1].id == id then |open| - 1
      else |open|
  }

  function Step(open: seq<Lease>, r: HistoryRecord): seq<Lease> {
    match r.leaseId
    case None => open
    case Some(id) =>
      if Opens(r) then
        var p := Position(open, id);
        if p < |open| then open[p := Lease(id, HolderOf(r))] else open + [Lease(id, HolderOf(r))]
      else if Closes(r) then Without(open, id)
      else open
  }

  function OpenLeases(h: seq<HistoryRecord>): (open: seq<Lease>) {
    if h == [] then [] else Step(OpenLeases(h[..|h| - 1]), h[|h| - 1])
  }

  /** What the agent computes from a history read; an unreadable one yields nothing. */
  method OpenLeasesFromHistory(history: Option<seq<HistoryRecord>>) returns (open: seq<Lease>)
    ensures open == if history.Some? then OpenLeases(history.value) else []
  {
    open := [];
    if history.None? {
      return;
    }
    var h := history.value;
    for i := 0 to |h|
      invariant open == OpenLeases(h[..i])
    {
      assert h[..i + 1][..i] == h[..i];
      var record := h[i];
      if record.leaseId.Some? {
        var id := record.leaseId.value;
        if record.event == Some("granted") || record.event == Some("adopted") {
          var who := HolderOf(record);
          var p := 0;
          while p < |open| && open[p].id != id
            invariant p <= |open|
            invariant forall k :: 0 <= k < p ==> open[k].id != id
          {
            p := p + 1;
          }
          if p < |open| {
            open := open[p := Lease(id, who)];
          } else {
            open := open + [Lease(id, who)];
          }
        } else if record.event == Some("released") || record.event == Some("reaped") {
          open := Filter(open, (l: Lease) => l.id != id);
        }
      }
    }
    assert h[..|h|] == h;
  }

  // ----- what the fold means -----

  ghost predicate UniqueIds(open: seq<Lease>) {
    forall i, j :: 0 <= i < j < |open| ==> open[i].id != open[j].id
  }

  lemma {:induction false} FilterKeepsUnique(open: seq<Lease>, keep: Lease -> bool)
    requires UniqueIds(open)
    ensures UniqueIds(Filter(open, keep))
  {
    if open != [] {
      FilterKeepsUnique(open[..|open| - 1], keep);
      FilterMembers(open[..|open| - 1], keep);
      assert forall l :: l in Filter(open[..|open| - 1], keep) ==> l.id != open[|open| - 1].id;
    }
  }

  /** The vector lists exactly the ids whose last touching record opens them, once, with its holder. */
  lemma {:induction false} OpenLeasesMeaning(h: seq<HistoryRecord>)
    ensures UniqueIds(OpenLeases(h))
    ensures forall l :: l in OpenLeases(h) <==> OpenHolder(h, l.id) == Some(l.who)
  {
    if h != [] {
      var init, r := h[..|h| - 1], h[|h| - 1];
      OpenLeasesMeaning(init);
      var before, after := OpenLeases(init), OpenLeases(h);
      if r.leaseId.Some? && Opens(r) {
        var id := r.leaseId.value;
        var p := Position(before, id);
        assert after[p] == Lease(id, HolderOf(r));
        forall l
          ensures l in after <==> OpenHolder(h, l.id) == Some(l.who)
        {
          if l.id == id {
            assert l in after ==> l == after[p];
          } else {
            if l in before {
              var k :| 0 <= k < |before| && before[k] == l;
              assert after[k] == l;
            }
          }
        }
      } else if r.leaseId.Some? && Closes(r) {
        FilterKeepsUnique(before, (l: Lease) => l.id != r.leaseId.value);
        FilterMembers(before, (l: Lease) => l.id != r.leaseId.value);
      }
    }
  }

  /** The vector's order is the order in which the current openings began. */
  ghost predicate InOpeningOrder(open: seq<Lease>, h: seq<HistoryRecord>) {
    forall i, j :: 0 <= i < j < |open| ==> OpenedAt(h, open[i].id) < OpenedAt(h, open[j].id)
  }

  lemma {:induction false} OpenLeasesOrder(h: seq<HistoryRecord>)
    ensures InOpeningOrder(OpenLeases(h), h)
  {
    if h != [] {
      var init, r := h[..|h| - 1], h[|h| - 1];
      OpenLeasesOrder(init);
      OpenLeasesMeaning(init);
      forall id | OpenHolder(init, id).Some?
        ensures Lease(id, OpenHolder(init, id).value) in OpenLeases(init)
      {
        var l := Lease(id, OpenHolder(init, id).value);
        assert OpenHolder(init, l.id) == Some(l.who);
      }
      if r.leaseId.Some? && Closes(r) {
        FilterKeepsOrder(OpenLeases(init), init, (l: Lease) => l.id != r.leaseId.value);
      }
      StepKeepsOrder(OpenLeases(init), init, h);
    }
  }

  lemma StepKeepsOrder(before: seq<Lease>, init: seq<HistoryRecord>, h: seq<HistoryRecord>)
    requires h != [] && init == h[..|h| - 1]
    requires InOpeningOrder(before, init)
    requires forall l :: l in before <==> OpenHolder(init, l.id) == Some(l.who)
    requires forall id :: OpenHolder(init, id).Some? ==> Lease(id, OpenHolder(init, id).value) in before
    requires forall id :: h[|h| - 1].leaseId == Some(id) && Closes(h[|h| - 1])
                          ==> InOpeningOrder(Without(before, id), init)
    ensures InOpeningOrder(Step(before, h[|h| - 1]), h)
  {
    var r := h[|h| - 1];
    var after := Step(before, r);
    forall i, j | 0 <= i < j < |after|
      ensures OpenedAt(h, after[i].id) < OpenedAt(h, after[j].id)
    {
      if r.leaseId.Some? && Closes(r) && !Opens(r) {
        assert after == Without(before, r.leaseId.value);
        assert OpenedAt(init, after[i].id) < OpenedAt(init, after[j].id);
      } else {
        assert after[i].id == before[i].id && before[i] in before;
        if j < |before| {
          assert after[j].id == before[j].id && before[j] in before;
          assert OpenedAt(init, before[i].id) < OpenedAt(init, before[j].id);
        } else {
          var id := r.leaseId.value;
          assert forall w :: Lease(id, w) !in before;
          assert OpenHolder(init, id).None?;
          assert OpenedAt(h, after[i].id) == OpenedAt(init, before[i].id) < |init|;
        }
      }
    }
  }

  lemma {:induction false} FilterKeepsOrder(open: seq<Lease>, h: seq<HistoryRecord>, keep: Lease -> bool)
    requires InOpeningOrder(open, h)
    ensures InOpeningOrder(Filter(open, keep), h)
  {
    if open != [] {
      FilterKeepsOrder(open[..|open| - 1], h, keep);
      FilterMembers(open[..|open| - 1], keep);
      forall l | l in Filter(open[..|open| - 1], keep)
        ensures OpenedAt(h, l.id) < OpenedAt(h, open[|open| - 1].id)
      {
        assert l in open[..|open| - 1];
        var k :| 0 <= k < |open| - 1 && open[k] == l;
      }
    }
  }

  // ----- a truncated window -----

  lemma {:induction false} HolderAfterWindow(h1: seq<HistoryRecord>, h2: seq<HistoryRecord>, id: LeaseId)
    ensures OpenHolder(h1 + h2, id) == if Touched(h2, id) then OpenHolder(h2, id) else OpenHolder(h1, id)
    ensures !Touched(h2, id) ==> OpenHolder(h2, id).None?
  {
    if h2 == [] {
      assert h1 + h2 == h1;
    } else {
      var init, r := h2[..|h2| - 1], h2[|h2| - 1];
      assert (h1 + h2)[..|h1 + h2| - 1] == h1 + init;
      HolderAfterWindow(h1, init, id);
      if Touches(r, id) {
        assert r in h2;
      } else {
        assert forall q :: q in h2 <==> q in init || q == r;
      }
    }
  }

  /**
   * Reading only the end of the log under-reports and never over-reports: what it shows open is
   * open, under the same holder, and what it misses is exactly what was opened before the window
   * and not mentioned inside it.
   */
  lemma WindowUnderReports(h1: seq<HistoryRecord>, h2: seq<HistoryRecord>, l: Lease)
    ensures l in OpenLeases(h2) ==> l in OpenLeases(h1 + h2)
    ensures l in OpenLeases(h1 + h2) && l !in OpenLeases(h2)
            <==> l in OpenLeases(h1) && !Touched(h2, l.id)
  {
    OpenLeasesMeaning(h1);
    OpenLeasesMeaning(h2);
    OpenLeasesMeaning(h1 + h2);
    HolderAfterWindow(h1, h2, l.id);
  }

  // ----- single records -----

  /** Any other event, and any record without an id, leaves the leases as they were. */
  lemma OtherRecordsIgnored(h: seq<HistoryRecord>, r: HistoryRecord)
    requires r.leaseId.None? || r.event.None? || r.event.value !in {"granted", "adopted", "released", "reaped"}
    ensures OpenLeases(h + [r]) == OpenLeases(h)
  {
    assert (h + [r])[..|h|] == h;
  }

  /** A grant or an adoption leaves the id open under its holder, or under none when it names none. */
  lemma OpeningRecordOpens(h: seq<HistoryRecord>, event: string, id: LeaseId, who: Option<Who>)
    requires event in {"granted", "adopted"}
    ensures Lease(id, if who.Some? then who.value else "") in OpenLeases(h + [HistoryRecord(Some(event), Some(id), who)])
  {
    var r := HistoryRecord(Some(event), Some(id), who);
    assert (h + [r])[..|h|] == h;
    OpenLeasesMeaning(h + [r]);
    var l := Lease(id, HolderOf(r));
    assert OpenHolder(h + [r], l.id) == Some(l.who);
  }

  /** A release or a reap closes it. */
  lemma ClosingRecordCloses(h: seq<HistoryRecord>, event: string, id: LeaseId, who: Option<Who>)
    requires event in {"released", "reaped"}
    ensures forall l :: l in OpenLeases(h + [HistoryRecord(Some(event), Some(id), who)]) ==> l.id != id
  {
    var r := HistoryRecord(Some(event), Some(id), who);
    assert (h + [r])[..|h|] == h;
    OpenLeasesMeaning(h + [r]);
  }
}
