/**
 * Serving under a lease: acquire, serve, and give the lease back on every exit except the one that
 * hands it over. The guard is an object whose armed flag decides what its drop does. What runs of
 * overlapping serves keep is in `GuardProtocol`.
 */
module LeaseGuard {
  import opened Wrappers
  import opened Decimal
  import opened Holders
  import opened LeaseHistory

  /** How gozer answers an acquire. It never grants an id that is live. */
  datatype AcquireAnswer = Grant(id: LeaseId) | Busy | Broken

  datatype Outcome = Granted(id: LeaseId) | Unavailable | Failed

  datatype ServeError = Contention | AcquireFailed

  /** gozer's own table of leases. */
  class Gozer {
    var live: map<LeaseId, Who>

    constructor ()
      ensures live == map[]
    {
      live := map[];
    }

    method Acquire(who: Who, answer: AcquireAnswer) returns (outcome: Outcome)
      modifies this
      ensures outcome == if answer.Broken? then Failed
                         else if answer.Busy? || answer.id in old(live) then Unavailable
                         else Granted(answer.id)
      ensures live == if outcome.Granted? then old(live)[outcome.id := who] else old(live)
    {
      if answer.Broken? {
        outcome := Failed;
      } else if answer.Busy? || answer.id in live {
        outcome := Unavailable;
      } else {
        live := live[answer.id := who];
        outcome := Granted(answer.id);
      }
    }

    /** Exit 0 for a release, 13 when there is no such lease, 15 for a refusal. */
    method Release(id: LeaseId, refuse: bool) returns (code: int)
      modifies this
      ensures code == if id !in old(live) then 13 else if refuse then 15 else 0
      ensures live == if refuse then old(live) else old(live) - {id}
    {
      if id !in live {
        assert live - {id} == live;
        return 13;
      }
      if refuse {
        return 15;
      }
      live := live - {id};
      return 0;
    }

    /** Another tenant takes or takes over a lease. */
    method Opens(id: LeaseId, who: Who)
      modifies this
      ensures live == old(live)[id := who]
    {
      live := live[id := who];
    }

    /** A lease is reaped, or released by hand. */
    method Ends(id: LeaseId)
      modifies this
      ensures live == old(live) - {id}
    {
      live := live - {id};
    }
  }

  class Guard {
    const gozer: Gozer
    const id: LeaseId
    var armed: bool

    constructor (gozer: Gozer, id: LeaseId)
      ensures this.gozer == gozer && this.id == id && armed
    {
      this.gozer, this.id, armed := gozer, id, true;
    }

    /** Hand the lease over: the drop that follows releases nothing. */
    method IntoLeaseId() returns (lease: LeaseId)
      modifies this
      ensures !armed && lease == id
    {
      armed := false;
      lease := id;
    }

    method Drop(refuse: bool)
      modifies gozer
      ensures gozer.live == if armed && !refuse then old(gozer.live) - {id} else old(gozer.live)
    {
      if !armed {
        return;
      }
      var code := gozer.Release(id, refuse);
    }
  }

  /** One request for a lease and how gozer answers it. */
  datatype Request = Request(leasing: bool, port: nat, model: string, force: bool, answer: AcquireAnswer)

  /** gozer hands out the lease it offers. */
  predicate Obtains(r: Request, live: map<LeaseId, Who>) {
    r.leasing && r.answer.Grant? && r.answer.id !in live
  }

  /**
   * Take a lease for one serve. With leasing off there is none; on, a serve gets the lease that gozer
   * grants, forced or not, and only without one does force decide.
   */
  method AcquireForServe(gozer: Gozer, r: Request) returns (result: Result<Option<Guard>, ServeError>)
    modifies gozer
    ensures result.Ok? && result.value.Some? <==> r.leasing && r.answer.Grant? && r.answer.id !in old(gozer.live)
    ensures result.Ok? && result.value.Some? ==>
              var guard := result.value.value;
              && fresh(guard) && guard.gozer == gozer && guard.armed && guard.id == r.answer.id
              && gozer.live == old(gozer.live)[guard.id := "tt-station:" + Print(r.port) + ":" + r.model]
    ensures !(result.Ok? && result.value.Some?) ==> gozer.live == old(gozer.live)
    ensures result == Ok(None) <==> !r.leasing || (r.force && !(r.answer.Grant? && r.answer.id !in old(gozer.live)))
    ensures result == Err(AcquireFailed) <==> r.leasing && !r.force && r.answer.Broken?
    ensures result == Err(Contention) <==>
              r.leasing && !r.force && (r.answer.Busy? || (r.answer.Grant? && r.answer.id in old(gozer.live)))
  {
    if !r.leasing {
      return Ok(None);
    }
    var who := HolderName(r.port, r.model);
    var outcome := gozer.Acquire(who, r.answer);
    match outcome
    case Granted(id) =>
      var guard := new Guard(gozer, id);
      return Ok(Some(guard));
    case Unavailable =>
      return if r.force then Ok(None) else Err(Contention);
    case Failed =>
      return if r.force then Ok(None) else Err(AcquireFailed);
  }
}
