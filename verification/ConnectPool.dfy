/**
One process, one Postgres pool: `connect` opens it or checks that the one already open can
serve the request. First calls can race; the losers close their pools and are checked
against the winner.
*/
module ConnectPool {
  import opened Common

  const DEFAULT_MAX_CONNECTIONS: nat := 10
  const DEFAULT_ACQUIRE_TIMEOUT_SECS: nat := 30

  datatype PoolSettings = PoolSettings(dsn: string, maxConnections: nat, acquireTimeout: nat)

  /** What a call asked for; `None` means "whatever the pool has". */
  datatype PoolRequest = PoolRequest(dsn: string, maxConnections: Option<nat>, acquireTimeout: Option<nat>) {

    function Settings(): PoolSettings {
      PoolSettings(
        dsn,
        if maxConnections.Some? then maxConnections.value else DEFAULT_MAX_CONNECTIONS,
        if acquireTimeout.Some? then acquireTimeout.value else DEFAULT_ACQUIRE_TIMEOUT_SECS)
    }

    function Differences(existing: PoolSettings): seq<Reconfigured> {
      (if dsn != existing.dsn then [Dsn] else [])
      + (if maxConnections.Some? && maxConnections.value != existing.maxConnections
         then [MaxConnections(existing.maxConnections, maxConnections.value)] else [])
      + (if acquireTimeout.Some? && acquireTimeout.value != existing.acquireTimeout
         then [AcquireTimeout(existing.acquireTimeout, acquireTimeout.value)] else [])
    }
  }

  datatype Reconfigured =
    | Dsn
    | MaxConnections(existing: nat, asked: nat)
    | AcquireTimeout(existing: nat, asked: nat)

  function Reuse(request: PoolRequest, existing: PoolSettings): Result<(), Reconfigured> {
    var differences := request.Differences(existing);
    if differences == [] then Ok(()) else Err(differences[0])
  }

  /** Every setting the request names is the one `existing` has. */
  predicate Serves(existing: PoolSettings, request: PoolRequest) {
    && existing.dsn == request.dsn
    && (request.maxConnections.Some? ==> existing.maxConnections == request.maxConnections.value)
    && (request.acquireTimeout.Some? ==> existing.acquireTimeout == request.acquireTimeout.value)
  }

  /** `difference` is a setting the request names and `existing` does not have, with both values. */
  predicate Differs(existing: PoolSettings, request: PoolRequest, difference: Reconfigured) {
    match difference
    case Dsn => request.dsn != existing.dsn
    case MaxConnections(has, asked) =>
      has == existing.maxConnections && request.maxConnections == Some(asked) && has != asked
    case AcquireTimeout(has, asked) =>
      has == existing.acquireTimeout && request.acquireTimeout == Some(asked) && has != asked
  }

  /**
  A pool may be used exactly when it has every setting the request names, and a refusal names
  one it has not; a request may always use a pool opened for it, whose other settings are ten
  connections and thirty seconds.
  */
  lemma ReuseIffServes(request: PoolRequest, existing: PoolSettings)
    ensures Reuse(request, existing).Ok? <==> Serves(existing, request)
    ensures Reuse(request, existing).Err? ==> Differs(existing, request, Reuse(request, existing).error)
    ensures Serves(request.Settings(), request)
    ensures request.maxConnections.None? ==> request.Settings().maxConnections == 10
    ensures request.acquireTimeout.None? ==> request.Settings().acquireTimeout == 30
  {
  }

  // ---------------------------------------------------------------------------
  // Concurrent calls
  // ---------------------------------------------------------------------------

  datatype Refusal = Mismatch(difference: Reconfigured) | ConnectFailed

  datatype Pc =
    | Start
    | Opening                             // found no pool; connecting one
    | Opened                              // its own pool is open, not yet offered
    | Beaten                              // another call published first
    | Done(result: Result<(), Refusal>)

  /** What became of the pool a call opened. */
  datatype Pool = Unopened | Open | Closing | Shut

  /** Call `c` has `requests[c]`; the pool it may open is `pools[c]`; `published` names the winner. */
  datatype State = State(requests: seq<PoolRequest>, pcs: seq<Pc>, pools: seq<Pool>, published: Option<nat>)

  datatype Step =
    | Look(c: nat)
    | Connect(c: nat)
    | FailConnect(c: nat)
    | Offer(c: nat)
    | Recheck(c: nat)
    | Shutdown(c: nat)

  predicate Shape(s: State) {
    |s.pcs| == |s.requests| == |s.pools| && (s.published.Some? ==> s.published.value < |s.requests|)
  }

  predicate Enabled(s: State, step: Step) {
    Shape(s) && step.c < |s.pcs| &&
    match step
    case Look(c) => s.pcs[c].Start?
    case Connect(c) => s.pcs[c].Opening?
    case FailConnect(c) => s.pcs[c].Opening?
    case Offer(c) => s.pcs[c].Opened?
    case Recheck(c) => s.pcs[c].Beaten? && s.published.Some?
    case Shutdown(c) => s.pools[c].Closing?
  }

  /** The check against the published pool. */
  function Checked(s: State, c: nat): Pc
    requires Shape(s) && c < |s.pcs| && s.published.Some?
  {
    match Reuse(s.requests[c], s.requests[s.published.value].Settings())
    case Ok(_) => Done(Ok(()))
    case Err(difference) => Done(Err(Mismatch(difference)))
  }

  function Apply(s: State, step: Step): State
    requires Enabled(s, step)
  {
    match step
    case Look(c) => s.(pcs := s.pcs[c := if s.published.Some? then Checked(s, c) else Opening])
    case Connect(c) => s.(pcs := s.pcs[c := Opened], pools := s.pools[c := Open])
    case FailConnect(c) => s.(pcs := s.pcs[c := Done(Err(ConnectFailed))])
    case Offer(c) =>
      if s.published.None? then s.(pcs := s.pcs[c := Done(Ok(()))], published := Some(c))
      else s.(pcs := s.pcs[c := Beaten], pools := s.pools[c := Closing])
    case Recheck(c) => s.(pcs := s.pcs[c := Checked(s, c)])
    case Shutdown(c) => s.(pools := s.pools[c := Shut])
  }

  ghost predicate IsRun(s: State, steps: seq<Step>, last: State)
    decreases |steps|
  {
    if steps == [] then s == last
    else Enabled(s, steps[0]) && IsRun(Apply(s, steps[0]), steps[1..], last)
  }

  predicate IsStart(s: State) {
    && Shape(s) && s.published.None?
    && forall c :: 0 <= c < |s.pcs| ==> s.pcs[c].Start? && s.pools[c].Unopened?
  }

  predicate RefusedForSetting(pc: Pc) {
    pc.Done? && pc.result.Err? && pc.result.error.Mismatch?
  }

  /** What holds of one call and of the pool it may have opened. */
  ghost predicate CallInv(s: State, c: nat)
    requires Shape(s) && c < |s.pcs|
  {
    && (s.pcs[c].Start? || s.pcs[c].Opening? ==> s.published != Some(c))
    && (s.pools[c].Open? <==> s.pcs[c].Opened? || s.published == Some(c))
    && (s.pcs[c].Opened? ==> s.published != Some(c))
    && (s.pcs[c].Beaten? ==> s.published.Some?)
    && (s.pcs[c] == Done(Ok(())) ==>
          s.published.Some? && Serves(s.requests[s.published.value].Settings(), s.requests[c]))
    && (RefusedForSetting(s.pcs[c]) ==>
          && s.published.Some? && !Serves(s.requests[s.published.value].Settings(), s.requests[c])
          && Differs(s.requests[s.published.value].Settings(), s.requests[c], s.pcs[c].result.error.difference))
  }

  ghost predicate Inv(s: State) {
    Shape(s) && forall c :: 0 <= c < |s.pcs| ==> CallInv(s, c)
  }

  lemma StepKeepsInv(s: State, step: Step)
    requires Inv(s) && Enabled(s, step)
    ensures Inv(Apply(s, step)) && Apply(s, step).requests == s.requests
    ensures s.published.Some? ==> Apply(s, step).published == s.published
  {
    var s' := Apply(s, step);
    var c0 := step.c;
    if s.published.Some? {
      ReuseIffServes(s.requests[c0], s.requests[s.published.value].Settings());
    }
    ReuseIffServes(s.requests[c0], s.requests[c0].Settings());
    assert CallInv(s, c0);
    forall c | 0 <= c < |s'.pcs| ensures CallInv(s', c) {
      assert CallInv(s, c);
    }
  }

  lemma {:induction false} RunKeepsInv(s: State, steps: seq<Step>, last: State)
    requires Inv(s) && IsRun(s, steps, last)
    ensures Inv(last) && last.requests == s.requests
    ensures s.published.Some? ==> last.published == s.published
    decreases |steps|
  {
    if steps != [] {
      StepKeepsInv(s, steps[0]);
      RunKeepsInv(Apply(s, steps[0]), steps[1..], last);
    }
  }

  /** A call's pool has been opened exactly if the run has the step that opens it. */
  lemma {:induction false} OpenedIffConnected(s: State, steps: seq<Step>, last: State, c: nat)
    requires Inv(s) && IsRun(s, steps, last) && c < |s.pools|
    ensures c < |last.pools|
    ensures !last.pools[c].Unopened? <==> !s.pools[c].Unopened? || Connect(c) in steps
    decreases |steps|
  {
    if steps != [] {
      var next := Apply(s, steps[0]);
      assert CallInv(s, c);
      StepKeepsInv(s, steps[0]);
      assert !next.pools[c].Unopened? <==> !s.pools[c].Unopened? || steps[0] == Connect(c);
      OpenedIffConnected(next, steps[1..], last, c);
      assert steps == [steps[0]] + steps[1..];
    }
  }

  /** A call ends in a connection failure exactly if the run has the step in which it failed. */
  lemma {:induction false} FailedIffStep(s: State, steps: seq<Step>, last: State, c: nat)
    requires Inv(s) && IsRun(s, steps, last) && c < |s.pcs|
    ensures c < |last.pcs|
    ensures last.pcs[c] == Done(Err(ConnectFailed)) <==>
              s.pcs[c] == Done(Err(ConnectFailed)) || FailConnect(c) in steps
    decreases |steps|
  {
    if steps != [] {
      var next := Apply(s, steps[0]);
      StepKeepsInv(s, steps[0]);
      assert next.pcs[c] == Done(Err(ConnectFailed)) <==>
               s.pcs[c] == Done(Err(ConnectFailed)) || steps[0] == FailConnect(c);
      FailedIffStep(next, steps[1..], last, c);
      assert steps == [steps[0]] + steps[1..];
    }
  }

  /**
  A call that is over succeeded exactly if its connection did not fail and the published pool
  has every setting it named; if it was refused for a setting, for one it named and did not
  get.
  */
  lemma {:induction false} SucceedsIff(start: State, steps: seq<Step>, last: State, c: nat)
    requires IsStart(start) && IsRun(start, steps, last) && c < |start.requests|
    ensures Shape(last) && c < |last.pcs|
    ensures last.pcs[c].Done? ==>
      (last.pcs[c].result.Ok? <==>
         && FailConnect(c) !in steps
         && last.published.Some? && Serves(last.requests[last.published.value].Settings(), last.requests[c]))
    ensures RefusedForSetting(last.pcs[c]) ==>
      last.published.Some?
      && Differs(last.requests[last.published.value].Settings(), last.requests[c], last.pcs[c].result.error.difference)
  {
    RunKeepsInv(start, steps, last);
    FailedIffStep(start, steps, last, c);
    assert CallInv(last, c);
    if last.pcs[c].Done? {
      match last.pcs[c].result
      case Ok(unit) => assert unit == ();
      case Err(ConnectFailed) =>
      case Err(Mismatch(_)) => assert RefusedForSetting(last.pcs[c]);
    }
  }

  /**
  Any race of `connect` calls, seen at any two points of it: once a pool is published it
  stays; a call that succeeded gets every setting it named, a call refused for a setting
  did not. Every pool that was opened is still its call's own to offer, or is the published
  one and open, or is closing or closed; and once no shutdown is left to run, closed.
  */
  lemma {:induction false} OnePoolPerProcess(
    start: State, before: seq<Step>, mid: State, after: seq<Step>, last: State, c: nat)
    requires IsStart(start) && IsRun(start, before, mid) && IsRun(mid, after, last)
    requires c < |start.requests|
    ensures Shape(last) && last.requests == start.requests
    ensures mid.published.Some? ==> last.published == mid.published
    ensures last.pcs[c] == Done(Ok(())) || RefusedForSetting(last.pcs[c]) ==> last.published.Some?
    ensures last.published.Some? ==>
              var settings := last.requests[last.published.value].Settings();
              && (last.pcs[c] == Done(Ok(())) ==> Serves(settings, last.requests[c]))
              && (RefusedForSetting(last.pcs[c]) ==> !Serves(settings, last.requests[c]))
    ensures Connect(c) !in before + after ==> last.pools[c].Unopened? && last.published != Some(c)
    ensures Connect(c) in before + after ==>
              if last.pcs[c].Opened? || last.published == Some(c) then last.pools[c].Open?
              else last.pools[c].Closing? || last.pools[c].Shut?
    ensures Connect(c) in before + after && !Enabled(last, Shutdown(c)) ==>
              last.pcs[c].Opened? || last.published == Some(c) || last.pools[c].Shut?
  {
    RunKeepsInv(start, before, mid);
    RunKeepsInv(mid, after, last);
    OpenedIffConnected(start, before, mid, c);
    OpenedIffConnected(mid, after, last, c);
    assert CallInv(last, c);
  }
}
