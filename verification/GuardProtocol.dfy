/**
 * Overlapping serves, each with its own lease guard, while other tenants open leases and leases are
 * reaped or released by hand. Ids are used again once they are free.
 */
module GuardProtocol {
  import opened Wrappers
  import opened Holders
  import opened LeaseHistory
  import opened LeaseGuard

  /** What became of a lease the agent acquired. */
  datatype Holding = Guarded | HandedOver | Stuck | GivenBack

  /** A guard's drop ended a lease: its own, or another that had come under its id. */
  datatype Taking = Taking(guard: nat, lease: nat)

  /**
   * `ids` lists the ids of all leases there have been, by serial. `mine` are those the agent
   * acquired; `lost` are those of them that ended by any other hand than their own guard's.
   */
  datatype State = State(
    ids: seq<LeaseId>,
    live: Table,
    ended: set<nat>,
    mine: map<nat, Holding>,
    lost: set<nat>,
    takings: seq<Taking>)

  datatype Action =
    // the agent; `refuse` is how gozer answers a release
    | Acquire(request: Request)
    | HandOver(guard: nat)
    | Drop(guard: nat, refuse: bool)
    // everybody else
    | Opening(id: LeaseId, who: Who)
    | Adopting(id: LeaseId, who: Who)
    | Ending(id: LeaseId)

  function Whos(live: Table): (r: map<LeaseId, Who>) {
    map id | id in live :: live[id].who
  }

  predicate HasGuard(s: State, g: nat) {
    g in s.mine && s.mine[g].Guarded? && g < |s.ids|
  }

  predicate Enabled(s: State, a: Action) {
    match a
    case Acquire(_) => true
    case HandOver(g) => HasGuard(s, g)
    case Drop(g, _) => HasGuard(s, g)
    case Opening(id, _) => id !in s.live
    case Adopting(id, _) => id in s.live
    case Ending(id) => id in s.live
  }

  function Begin(s: State, id: LeaseId, who: Who): State {
    s.(ids := s.ids + [id], live := s.live[id := Held(|s.ids|, who)])
  }

  function Finish(s: State, id: LeaseId): State
    requires id in s.live
  {
    s.(live := s.live - {id}, ended := s.ended + {s.live[id].serial})
  }

  function LostIf(s: State, n: nat): set<nat> {
    if n in s.mine then s.lost + {n} else s.lost
  }

  /** What `release` does when a guard is dropped. */
  function DropGuard(s: State, g: nat, refuse: bool): State
    requires HasGuard(s, g)
  {
    var id := s.ids[g];
    if id !in s.live then s.(mine := s.mine[g := GivenBack])
    else if refuse then s.(mine := s.mine[g := Stuck])
    else
      var n := s.live[id].serial;
      Finish(s, id).(mine := s.mine[g := GivenBack],
                     lost := if n == g then s.lost else LostIf(s, n),
                     takings := s.takings + [Taking(g, n)])
  }

  function Apply(s: State, a: Action): State
    requires Enabled(s, a)
  {
    match a
    case Acquire(r) =>
      if !Obtains(r, Whos(s.live)) then s
      else Begin(s, r.answer.id, HolderName(r.port, r.model)).(mine := s.mine[|s.ids| := Guarded])
    case HandOver(g) => s.(mine := s.mine[g := HandedOver])
    case Drop(g, refuse) => DropGuard(s, g, refuse)
    case Opening(id, who) => Begin(s, id, who)
    case Adopting(id, who) => s.(live := s.live[id := s.live[id].(who := who)])
    case Ending(id) => Finish(s, id).(lost := LostIf(s, s.live[id].serial))
  }

  predicate Possible(s: State, run: seq<Action>)
    decreases |run|, 0
  {
    run == [] || (Possible(s, run[..|run| - 1]) && Enabled(After(s, run[..|run| - 1]), run[|run| - 1]))
  }

  function After(s: State, run: seq<Action>): State
    requires Possible(s, run)
    decreases |run|, 1
  {
    if run == [] then s else Apply(After(s, run[..|run| - 1]), run[|run| - 1])
  }

  const EMPTY := State([], map[], {}, map[], {}, [])

  // ----- what every step keeps -----

  /** A lease is live, under its own id, until it ends, and only then is the id used again. */
  ghost predicate Sound(s: State) {
    && (forall id <- s.live :: s.live[id].serial < |s.ids| && s.ids[s.live[id].serial] == id && s.live[id].serial !in s.ended)
    && (forall n :: 0 <= n < |s.ids| && n !in s.ended ==> s.ids[n] in s.live && s.live[s.ids[n]].serial == n)
    && (forall n <- s.ended :: n < |s.ids|)
    && (forall m, n :: 0 <= m < n < |s.ids| && s.ids[m] == s.ids[n] ==> m in s.ended)
  }

  /** The agent's leases end by being given back or lost, and in no other way. */
  ghost predicate Accounted(s: State) {
    && (forall n <- s.mine :: n < |s.ids| && (n in s.ended <==> s.mine[n].GivenBack? || n in s.lost))
    && (forall n <- s.lost :: n in s.mine)
  }

  ghost predicate TakingSound(s: State, k: Taking) {
    && k.guard in s.mine && s.mine[k.guard].GivenBack?
    && k.guard <= k.lease < |s.ids| && s.ids[k.guard] == s.ids[k.lease] && k.lease in s.ended
    && (k.guard != k.lease ==> k.guard in s.lost)
  }

  ghost predicate Invariant(s: State) {
    && Sound(s) && Accounted(s)
    && (forall k <- s.takings :: TakingSound(s, k))
  }

  lemma BeginKeeps(s: State, id: LeaseId, who: Who)
    requires Sound(s) && id !in s.live
    ensures Sound(Begin(s, id, who))
  {
  }

  lemma FinishKeeps(s: State, id: LeaseId)
    requires Sound(s) && id in s.live
    ensures Sound(Finish(s, id))
  {
  }

  lemma KeepsSound(s: State, a: Action)
    requires Sound(s) && Enabled(s, a)
    ensures Sound(Apply(s, a))
  {
    match a
    case Acquire(r) =>
      if Obtains(r, Whos(s.live)) {
        BeginKeeps(s, r.answer.id, HolderName(r.port, r.model));
      }
    case Drop(g, refuse) =>
      if s.ids[g] in s.live {
        FinishKeeps(s, s.ids[g]);
      }
    case Opening(id, who) => BeginKeeps(s, id, who);
    case Ending(id) => FinishKeeps(s, id);
    case _ =>
  }

  lemma DropKeepsAccounts(s: State, g: nat, refuse: bool)
    requires Sound(s) && Accounted(s) && HasGuard(s, g)
    ensures Accounted(DropGuard(s, g, refuse))
  {
  }

  /** A dropped guard keeps its lease only when there was one under its id and the release was refused; nobody else's guard changes. */
  lemma DropOutcome(s: State, g: nat, refuse: bool)
    requires HasGuard(s, g)
    ensures var t := Apply(s, Drop(g, refuse));
            && (t.mine[g] == Stuck <==> refuse && s.ids[g] in s.live)
            && (t.mine[g] == GivenBack <==> !refuse || s.ids[g] !in s.live)
            && t.mine - {g} == s.mine - {g}
            && t.live == (if refuse then s.live else s.live - {s.ids[g]})
  {
    assert s.ids[g] !in s.live ==> s.live - {s.ids[g]} == s.live;
  }

  lemma DropKeepsTakings(s: State, g: nat, refuse: bool)
    requires Invariant(s) && HasGuard(s, g)
    ensures forall k <- DropGuard(s, g, refuse).takings :: TakingSound(DropGuard(s, g, refuse), k)
  {
  }

  lemma KeepsAccounts(s: State, a: Action)
    requires Sound(s) && Accounted(s) && Enabled(s, a)
    ensures Accounted(Apply(s, a))
  {
    if a.Drop? {
      DropKeepsAccounts(s, a.guard, a.refuse);
    }
  }

  lemma KeepsTakings(s: State, a: Action)
    requires Invariant(s) && Enabled(s, a)
    ensures forall k <- Apply(s, a).takings :: TakingSound(Apply(s, a), k)
  {
    if a.Drop? {
      DropKeepsTakings(s, a.guard, a.refuse);
    } else {
      var t := Apply(s, a);
      assert t.takings == s.takings && s.ids <= t.ids && s.ended <= t.ended && s.lost <= t.lost;
      forall k | k in t.takings
        ensures TakingSound(t, k)
      {
        assert TakingSound(s, k);
      }
    }
  }

  lemma KeepsInvariant(s: State, a: Action)
    requires Invariant(s) && Enabled(s, a)
    ensures Invariant(Apply(s, a))
  {
    KeepsSound(s, a);
    KeepsAccounts(s, a);
    KeepsTakings(s, a);
  }

  lemma {:induction false} AlwaysInvariant(run: seq<Action>)
    requires Possible(EMPTY, run)
    ensures Invariant(After(EMPTY, run))
    decreases |run|
  {
    if run != [] {
      AlwaysInvariant(run[..|run| - 1]);
      KeepsInvariant(After(EMPTY, run[..|run| - 1]), run[|run| - 1]);
    }
  }

  // ----- over every run -----

  /** The agent's leases that are live, by serial. */
  ghost function LiveOfAgent(s: State): set<nat> {
    set id | id in s.live && s.live[id].serial in s.mine :: s.live[id].serial
  }

  /**
   * Whatever overlaps with whatever, the agent's live leases are those still guarded, those handed
   * over and those gozer refused to take back, except the ones that ended by another hand.
   */
  lemma LeasesConserved(run: seq<Action>)
    requires Possible(EMPTY, run)
    ensures var t := After(EMPTY, run);
            LiveOfAgent(t) == set n | n in t.mine && !t.mine[n].GivenBack? && n !in t.lost
  {
    AlwaysInvariant(run);
    var t := After(EMPTY, run);
    forall n
      ensures n in LiveOfAgent(t) <==> n in t.mine && !t.mine[n].GivenBack? && n !in t.lost
    {
      if n in t.mine && n !in t.ended {
        assert t.ids[n] in t.live;
      }
    }
  }

  /** As long as nobody else ends a lease, overlapping serves never end each other's. */
  lemma UndisturbedLoseNothing(run: seq<Action>)
    requires Possible(EMPTY, run) && forall i :: 0 <= i < |run| ==> !run[i].Ending?
    ensures var t := After(EMPTY, run);
            && LiveOfAgent(t) == (set n | n in t.mine && !t.mine[n].GivenBack?)
            && forall k <- t.takings :: k.lease == k.guard
  {
    NothingLost(run);
    LeasesConserved(run);
    AlwaysInvariant(run);
  }

  lemma {:induction false} NothingLost(run: seq<Action>)
    requires Possible(EMPTY, run) && forall i :: 0 <= i < |run| ==> !run[i].Ending?
    ensures After(EMPTY, run).lost == {}
    decreases |run|
  {
    if run != [] {
      var init, a := run[..|run| - 1], run[|run| - 1];
      NothingLost(init);
      AlwaysInvariant(init);
      assert !a.Ending?;
    }
  }

  /** What the drop of a guard would end now. */
  function Target(s: State, g: nat): Option<nat>
    requires g < |s.ids|
  {
    if s.ids[g] in s.live then Some(s.live[s.ids[g]].serial) else None
  }

  /** The guard's lease ended, and its id was opened again for a lease that is still there. */
  ghost predicate Reopened(s: State, g: nat)
    requires g < |s.ids|
  {
    g in s.ended && exists n :: g < n < |s.ids| && s.ids[n] == s.ids[g] && n !in s.ended
  }

  lemma TargetMeaning(s: State, g: nat)
    requires Sound(s) && g < |s.ids|
    ensures Target(s, g) == Some(g) <==> g !in s.ended
    ensures Target(s, g).Some? && Target(s, g).value != g <==> Reopened(s, g)
    ensures Target(s, g).None? ==> s.ids[g] !in s.live
  {
    if Target(s, g).Some? {
      var n := Target(s, g).value;
      assert s.ids[n] == s.ids[g] && n !in s.ended;
      assert n < g ==> n in s.ended;
    }
  }

  /**
   * A drop ends its own lease exactly when that is still live, another's exactly when the id was
   * closed and opened again under it, and otherwise nothing.
   */
  lemma DropTakesAnother(run: seq<Action>, g: nat)
    requires Possible(EMPTY, run) && HasGuard(After(EMPTY, run), g)
    ensures var t := After(EMPTY, run);
            var u := Apply(t, Drop(g, false));
            && (Target(t, g).Some? && Target(t, g).value != g <==> Reopened(t, g))
            && (Target(t, g) == Some(g) <==> g !in t.ended)
            && u.live == (if Target(t, g).Some? then t.live - {t.ids[g]} else t.live)
            && u.takings == t.takings + (match Target(t, g) case Some(n) => [Taking(g, n)] case None => [])
  {
    AlwaysInvariant(run);
    TargetMeaning(After(EMPTY, run), g);
  }

  lemma OneMore(run: seq<Action>, a: Action)
    requires Possible(EMPTY, run) && Enabled(After(EMPTY, run), a)
    ensures Possible(EMPTY, run + [a]) && After(EMPTY, run + [a]) == Apply(After(EMPTY, run), a)
  {
    assert (run + [a])[..|run|] == run;
  }

  /** A guard's lease is ended, its id opened for a stranger, and the stranger's lease ended by the drop. */
  function AfterStranger(t: State, g: nat): State
    requires g < |t.ids|
  {
    t.(ids := t.ids + [t.ids[g]],
       live := t.live - {t.ids[g]},
       ended := t.ended + {g, |t.ids|},
       mine := t.mine[g := GivenBack],
       lost := t.lost + {g},
       takings := t.takings + [Taking(g, |t.ids|)])
  }

  lemma StrangerSteps(t: State, g: nat, tenant: Who)
    requires Invariant(t) && HasGuard(t, g) && g !in t.ended
    ensures var id := t.ids[g];
            && id in t.live
            && var closed := Apply(t, Ending(id));
            && id !in closed.live
            && var reopened := Apply(closed, Opening(id, tenant));
            && HasGuard(reopened, g) && Apply(reopened, Drop(g, false)) == AfterStranger(t, g)
  {
    var id := t.ids[g];
    assert t.live[id].serial == g;
    assert (t.live - {id})[id := Held(|t.ids|, tenant)] - {id} == t.live - {id};
  }

  /** It can happen to any guard at any time: its lease is reaped, its id granted, and the drop ends the stranger's lease. */
  lemma StrangerIsTaken(run: seq<Action>, g: nat, tenant: Who) returns (more: seq<Action>)
    requires Possible(EMPTY, run) && HasGuard(After(EMPTY, run), g) && g !in After(EMPTY, run).ended
    ensures Possible(EMPTY, more) && After(EMPTY, more) == AfterStranger(After(EMPTY, run), g)
  {
    AlwaysInvariant(run);
    var id := After(EMPTY, run).ids[g];
    StrangerSteps(After(EMPTY, run), g, tenant);
    OneMore(run, Ending(id));
    more := run + [Ending(id)];
    OneMore(more, Opening(id, tenant));
    more := more + [Opening(id, tenant)];
    OneMore(more, Drop(g, false));
    more := more + [Drop(g, false)];
  }

  /** A lease that has not ended keeps its id to itself. */
  lemma KeptLeaseIsNotReissued(run: seq<Action>, n: nat)
    requires Possible(EMPTY, run) && n < |After(EMPTY, run).ids| && n !in After(EMPTY, run).ended
    ensures var t := After(EMPTY, run); forall m :: n < m < |t.ids| ==> t.ids[m] != t.ids[n]
  {
    AlwaysInvariant(run);
  }

  lemma StaysHandedOver(s: State, a: Action, g: nat)
    requires Invariant(s) && Enabled(s, a) && g in s.mine && s.mine[g].HandedOver?
    ensures g in Apply(s, a).mine && Apply(s, a).mine[g].HandedOver?
  {
  }

  lemma {:induction false} HandedOverStays(run: seq<Action>, later: seq<Action>, g: nat)
    requires Possible(EMPTY, run) && Possible(EMPTY, run + later)
    requires g in After(EMPTY, run).mine && After(EMPTY, run).mine[g].HandedOver?
    ensures g in After(EMPTY, run + later).mine && After(EMPTY, run + later).mine[g].HandedOver?
    decreases |later|
  {
    if later == [] {
      assert run + later == run;
    } else {
      var init := later[..|later| - 1];
      assert (run + later)[..|run + later| - 1] == run + init;
      HandedOverStays(run, init, g);
      AlwaysInvariant(run + init);
      StaysHandedOver(After(EMPTY, run + init), later[|later| - 1], g);
    }
  }

  /** A lease once handed over stays so, and its guard's drop never ends a lease, before or after. */
  lemma HandedOverOnce(run: seq<Action>, later: seq<Action>, g: nat)
    requires Possible(EMPTY, run) && Possible(EMPTY, run + later)
    requires g in After(EMPTY, run).mine && After(EMPTY, run).mine[g].HandedOver?
    ensures var t := After(EMPTY, run + later);
            g in t.mine && t.mine[g].HandedOver? && forall k <- t.takings :: k.guard != g
  {
    HandedOverStays(run, later, g);
    AlwaysInvariant(run + later);
  }

  // ----- the agent's own objects take these steps -----

  /** The objects hold what the state says: gozer its leases, and one armed guard for each guarded one. */
  ghost predicate Matches(gozer: Gozer, guards: map<nat, Guard>, s: State)
    reads gozer, set g | g in guards :: guards[g]
  {
    && gozer.live == Whos(s.live)
    && (forall g :: g in guards <==> HasGuard(s, g))
    && (forall g <- guards :: guards[g].gozer == gozer && guards[g].armed && guards[g].id == s.ids[g])
    && (forall a, b :: a in guards && b in guards && a != b ==> guards[a] != guards[b])
  }

  lemma WhosOfBegin(s: State, id: LeaseId, who: Who)
    ensures Whos(Begin(s, id, who).live) == Whos(s.live)[id := who]
  {
  }

  lemma WhosOfFinish(s: State, id: LeaseId)
    requires id in s.live
    ensures Whos(Finish(s, id).live) == Whos(s.live) - {id}
  {
  }

  method DoAcquire(gozer: Gozer, guards: map<nat, Guard>, ghost s: State, count: nat, r: Request)
    returns (more: map<nat, Guard>)
    requires Matches(gozer, guards, s) && Accounted(s) && count == |s.ids|
    modifies gozer
    ensures Matches(gozer, more, Apply(s, Acquire(r)))
    ensures forall g <- more :: (g in guards && more[g] == guards[g]) || fresh(more[g])
  {
    more := guards;
    var result := AcquireForServe(gozer, r);
    if result.Ok? && result.value.Some? {
      WhosOfBegin(s, r.answer.id, HolderName(r.port, r.model));
      more := guards[count := result.value.value];
    }
  }

  method DoHandOver(gozer: Gozer, guards: map<nat, Guard>, ghost s: State, g: nat, refuse: bool)
    returns (less: map<nat, Guard>, lease: LeaseId)
    requires Matches(gozer, guards, s) && HasGuard(s, g)
    modifies gozer, guards[g]
    ensures Matches(gozer, less, Apply(s, HandOver(g))) && less == guards - {g}
    ensures lease == s.ids[g]
  {
    var guard := guards[g];
    less := guards - {g};
    lease := guard.IntoLeaseId();
    guard.Drop(refuse);
  }

  method DoDrop(gozer: Gozer, guards: map<nat, Guard>, ghost s: State, g: nat, refuse: bool)
    returns (less: map<nat, Guard>)
    requires Matches(gozer, guards, s) && HasGuard(s, g)
    modifies gozer
    ensures Matches(gozer, less, Apply(s, Drop(g, refuse))) && less == guards - {g}
  {
    var guard := guards[g];
    less := guards - {g};
    if s.ids[g] in s.live {
      WhosOfFinish(s, s.ids[g]);
    }
    guard.Drop(refuse);
  }

  /** What everybody else does to gozer's leases. */
  method DoOthers(gozer: Gozer, guards: map<nat, Guard>, ghost s: State, a: Action)
    requires Matches(gozer, guards, s) && Accounted(s) && Enabled(s, a)
    requires a.Opening? || a.Adopting? || a.Ending?
    modifies gozer
    ensures Matches(gozer, guards, Apply(s, a))
  {
    match a {
      case Opening(id, who) =>
        gozer.Opens(id, who);
        WhosOfBegin(s, id, who);
      case Adopting(id, who) =>
        gozer.Opens(id, who);
        assert Whos(Apply(s, a).live) == Whos(s.live)[id := who];
      case Ending(id) =>
        gozer.Ends(id);
        WhosOfFinish(s, id);
    }
  }

  ghost predicate IsHandedOver(s: State, id: LeaseId) {
    exists g :: g in s.mine && s.mine[g].HandedOver? && g < |s.ids| && s.ids[g] == id
  }

  /** One step, by the objects. */
  method Perform(gozer: Gozer, guards: map<nat, Guard>, ghost s: State, count: nat, a: Action)
    returns (after: map<nat, Guard>, next: nat, handed: seq<LeaseId>)
    requires Matches(gozer, guards, s) && Accounted(s) && count == |s.ids| && Enabled(s, a)
    modifies gozer, set g | g in guards :: guards[g]
    ensures Matches(gozer, after, Apply(s, a)) && next == |Apply(s, a).ids|
    ensures forall g <- after :: (g in guards && after[g] == guards[g]) || fresh(after[g])
    ensures handed == if a.HandOver? then [s.ids[a.guard]] else []
  {
    after, next, handed := guards, count, [];
    match a {
      case Acquire(r) =>
        after := DoAcquire(gozer, guards, s, count, r);
        next := if count in after then count + 1 else count;
        assert count in after <==> HasGuard(Apply(s, a), count);
      case HandOver(g) =>
        var lease;
        after, lease := DoHandOver(gozer, guards, s, g, false);
        handed := [lease];
      case Drop(g, refuse) =>
        after := DoDrop(gozer, guards, s, g, refuse);
      case Opening(_, _) =>
        DoOthers(gozer, guards, s, a);
        next := count + 1;
      case _ =>
        DoOthers(gozer, guards, s, a);
    }
  }

  /** A whole run, by the objects: they end up with the leases of the state the run leads to. */
  method ServeAll(gozer: Gozer, run: seq<Action>) returns (handed: seq<LeaseId>)
    requires Possible(EMPTY, run) && gozer.live == map[]
    modifies gozer
    ensures gozer.live == Whos(After(EMPTY, run).live)
    ensures forall id :: id in handed <==> IsHandedOver(After(EMPTY, run), id)
  {
    handed := [];
    var guards: map<nat, Guard> := map[];
    var count := 0;
    for i := 0 to |run|
      invariant Possible(EMPTY, run[..i]) && Matches(gozer, guards, After(EMPTY, run[..i]))
      invariant count == |After(EMPTY, run[..i]).ids|
      invariant forall g <- guards :: fresh(guards[g])
      invariant forall id :: id in handed <==> IsHandedOver(After(EMPTY, run[..i]), id)
    {
      PrefixPossible(run, i);
      PrefixPossible(run, i + 1);
      assert run[..i + 1][..i] == run[..i];
      PrefixStep(run, i);
      AlwaysInvariant(run[..i]);
      ghost var s := After(EMPTY, run[..i]);
      HandedBy(s, run[i]);
      var one;
      guards, count, one := Perform(gozer, guards, s, count, run[i]);
      handed := handed + one;
    }
    assert run[..|run|] == run;
  }

  lemma {:induction false} PrefixPossible(run: seq<Action>, i: nat)
    requires Possible(EMPTY, run) && i <= |run|
    ensures Possible(EMPTY, run[..i])
    decreases |run|
  {
    if i < |run| {
      PrefixPossible(run[..|run| - 1], i);
      assert run[..|run| - 1][..i] == run[..i];
    } else {
      assert run[..i] == run;
    }
  }

  lemma PrefixStep(run: seq<Action>, i: nat)
    requires i < |run| && Possible(EMPTY, run[..i]) && Possible(EMPTY, run[..i + 1]) && Enabled(After(EMPTY, run[..i]), run[i])
    ensures After(EMPTY, run[..i + 1]) == Apply(After(EMPTY, run[..i]), run[i])
  {
    assert run[..i + 1][..i] == run[..i];
  }

  lemma HandedBy(s: State, a: Action)
    requires Invariant(s) && Enabled(s, a)
    ensures forall id :: IsHandedOver(Apply(s, a), id)
                         <==> IsHandedOver(s, id) || (a.HandOver? && s.ids[a.guard] == id)
  {
    var t := Apply(s, a);
    forall g | g in s.mine && s.mine[g].HandedOver?
      ensures g in t.mine && t.mine[g].HandedOver? && g < |s.ids| && t.ids[g] == s.ids[g]
    {
      StaysHandedOver(s, a, g);
    }
    if a.HandOver? {
      assert t.mine[a.guard].HandedOver? && t.ids[a.guard] == s.ids[a.guard];
    }
  }
}
