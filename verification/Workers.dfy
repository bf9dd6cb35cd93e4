/**
Thread-per-core hand-off: the main thread builds the sub-interpreter workers, spawns one
thread for each and hands it its worker. A worker must be ended exactly once: on its own
thread if it was handed over, otherwise on the thread that built it, whichever spawns and
hand-offs fail. Its own thread can end it only once it has the last reference to the
worker's context, of which its connection tasks hold clones.
*/
module Workers {
  import opened Common

  /** What became of a worker. A thread that finds the context still shared leaks it, with an error. */
  datatype Fate = OnOwnThread | OnCreator | Leaked

  datatype MainPc =
    | Watching                       // starting the stop watcher
    | Spawning(i: nat)
    | Handing(i: nat)                // thread `i` exists; its worker is about to be sent
    | JoiningAll(i: nat)             // spawn `i` failed: stopping and joining what runs
    | EndingFrom(i: nat, j: nat)     // after that: ending worker `j` of those from `i` on
    | Failed(i: nat)                 // returned the error of spawn `i`
    | EndingAll(j: nat)              // the watcher failed: ending worker `j` of them all
    | Unwatched                      // returned the error of the watcher
    | Returned                       // returned the thread handles

  /** `clones` are the references to the context that tasks of the thread's local set hold. */
  datatype Thread =
    | NoThread
    | Waiting                        // for its worker
    | Sent                           // its worker is in its channel
    | Serving(clones: nat)           // in `serve`, which holds a reference of its own
    | Stopped(clones: nat, ok: bool) // `serve` returned; its local set still has tasks
    | Cleared(clones: nat, ok: bool) // the local set is dropped
    | Exited(received: bool)

  datatype State = State(main: MainPc, threads: seq<Thread>, fates: seq<seq<Fate>>, cancelled: bool)

  datatype Step =
    | Watch(ok: bool)
    | Spawn(ok: bool)
    | Die(t: nat)                    // the thread ends before a worker is sent to it
    | Hand
    | Receive(t: nat, runtime: bool) // a thread with a worker in its channel always gets it
    | Clone(t: nat)                  // a connection or a request starts
    | Drop(t: nat)                   // one ends
    | LoopEnds(t: nat, ok: bool)
    | DropLocal(t: nat)
    | End(t: nat)
    | Joined
    | EndOne
    | Return

  predicate IsThread(s: State, t: nat) { t < |s.threads| == |s.fates| }

  predicate Enabled(s: State, step: Step) {
    match step
    case Watch(_) => s.main.Watching?
    case Spawn(_) => s.main.Spawning? && s.main.i < |s.threads|
    case Die(t) => IsThread(s, t) && s.threads[t].Waiting?
    case Hand => s.main.Handing? && IsThread(s, s.main.i)
    case Receive(t, _) => IsThread(s, t) && s.threads[t].Sent?
    case Clone(t) => IsThread(s, t) && s.threads[t].Serving?
    case Drop(t) => IsThread(s, t) && s.threads[t].Serving? && s.threads[t].clones > 0
    case LoopEnds(t, _) => IsThread(s, t) && s.threads[t].Serving?
    case DropLocal(t) => IsThread(s, t) && s.threads[t].Stopped?
    case End(t) => IsThread(s, t) && s.threads[t].Cleared?
    case Joined => s.main.JoiningAll? && forall t :: 0 <= t < |s.threads| ==> IsOver(s.threads[t])
    case EndOne => (s.main.EndingFrom? || s.main.EndingAll?) && |s.fates| == |s.threads|
    case Return => s.main.Spawning? && s.main.i >= |s.threads|
  }

  predicate IsOver(thread: Thread) { thread.NoThread? || thread.Exited? }

  /** References to the context: the thread's own, that of `serve`, and the clones. */
  function References(thread: Thread): nat {
    match thread
    case Serving(clones) => 2 + clones
    case Stopped(clones, _) => 1 + clones
    case Cleared(clones, _) => 1 + clones
    case _ => 0
  }

  /** `TpcContext::end`: only the last reference can be unwrapped. */
  function EndedBy(thread: Thread): Fate { if References(thread) == 1 then OnOwnThread else Leaked }

  function Ended(s: State, w: nat, fate: Fate): seq<seq<Fate>>
    requires w < |s.fates|
  {
    s.fates[w := s.fates[w] + [fate]]
  }

  function Goes(s: State, t: nat, thread: Thread): State
    requires t < |s.threads|
  {
    s.(threads := s.threads[t := thread])
  }

  function Apply(s: State, step: Step): State
    requires Enabled(s, step)
  {
    match step
    case Watch(ok) => s.(main := if ok then Spawning(0) else EndingAll(0))
    case Spawn(ok) =>
      if ok then s.(main := Handing(s.main.i), threads := s.threads[s.main.i := Waiting])
      else s.(main := JoiningAll(s.main.i), cancelled := true)
    case Hand =>
      var i := s.main.i;
      if s.threads[i].Waiting? then s.(main := Spawning(i + 1), threads := s.threads[i := Sent])
      else s.(main := Spawning(i + 1), fates := Ended(s, i, OnCreator))
    case Die(t) => Goes(s, t, Exited(false))
    case Receive(t, runtime) => Goes(s, t, if runtime then Serving(0) else Cleared(0, false))
    case Clone(t) => Goes(s, t, Serving(s.threads[t].clones + 1))
    case Drop(t) => Goes(s, t, Serving(s.threads[t].clones - 1))
    case LoopEnds(t, ok) => Goes(s, t, Stopped(s.threads[t].clones, ok))
    case DropLocal(t) => Goes(s, t, Cleared(0, s.threads[t].ok))
    case End(t) =>
      s.(threads := s.threads[t := Exited(true)], cancelled := s.cancelled || !s.threads[t].ok,
         fates := Ended(s, t, EndedBy(s.threads[t])))
    case Joined => s.(main := EndingFrom(s.main.i, s.main.i))
    case EndOne =>
      if s.main.j < |s.fates| then s.(main := s.main.(j := s.main.j + 1), fates := Ended(s, s.main.j, OnCreator))
      else s.(main := if s.main.EndingFrom? then Failed(s.main.i) else Unwatched)
    case Return => s.(main := Returned)
  }

  ghost predicate IsRun(s: State, steps: seq<Step>, last: State)
    decreases |steps|
  {
    if steps == [] then s == last
    else Enabled(s, steps[0]) && IsRun(Apply(s, steps[0]), steps[1..], last)
  }

  predicate IsStart(s: State) {
    && s.main.Watching? && |s.fates| == |s.threads|
    && (forall w :: 0 <= w < |s.threads| ==> s.threads[w].NoThread? && s.fates[w] == [])
  }

  /** Workers below this index have had their turn: a thread was spawned for each. */
  function Turn(s: State): nat {
    match s.main
    case Watching => 0
    case Spawning(i) => i
    case Handing(i) => i
    case JoiningAll(i) => i
    case EndingFrom(i, _) => i
    case Failed(i) => i
    case EndingAll(_) => 0
    case Unwatched => 0
    case Returned => |s.threads|
  }

  /** Whether the main thread has ended worker `w` while cleaning up. */
  predicate CleanedUp(s: State, w: nat) {
    match s.main
    case EndingFrom(i, j) => i <= w < j
    case Failed(i) => i <= w
    case EndingAll(j) => w < j
    case Unwatched => true
    case _ => false
  }

  /** What one worker's thread and what became of the worker have to do with each other. */
  ghost predicate WorkerInv(s: State, w: nat)
    requires w < |s.threads| == |s.fates|
  {
    match s.threads[w]
    case NoThread => Turn(s) <= w && s.fates[w] == if CleanedUp(s, w) then [OnCreator] else []
    case Waiting => s.main == Handing(w) && s.fates[w] == []
    case Sent => w < Turn(s) && s.fates[w] == []
    case Serving(_) => w < Turn(s) && s.fates[w] == []
    case Stopped(_, _) => w < Turn(s) && s.fates[w] == []
    case Cleared(clones, _) => w < Turn(s) && s.fates[w] == [] && clones == 0
    case Exited(true) => w < Turn(s) && s.fates[w] == [OnOwnThread]
    case Exited(false) =>
      if s.main == Handing(w) then s.fates[w] == [] else w < Turn(s) && s.fates[w] == [OnCreator]
  }

  /** What holds of the main thread and the threads as a whole. */
  ghost predicate MainInv(s: State) {
    && |s.fates| == |s.threads| && Turn(s) <= |s.threads|
    && (s.main.EndingFrom? ==> s.main.i <= s.main.j <= |s.threads|)
    && (s.main.EndingAll? ==> s.main.j <= |s.threads|)
    && (s.main.Watching? || s.main.EndingAll? || s.main.Unwatched? ==>
          forall t :: 0 <= t < |s.threads| ==> s.threads[t].NoThread?)
    && (s.main.EndingFrom? || s.main.Failed? ==> forall t :: 0 <= t < |s.threads| ==> IsOver(s.threads[t]))
    && (s.main.JoiningAll? || s.main.EndingFrom? || s.main.Failed? ==> s.cancelled)
    && (s.main.Handing? ==> s.main.i < |s.threads| && !s.threads[s.main.i].NoThread?)
  }

  ghost predicate Inv(s: State) {
    MainInv(s) && forall w :: 0 <= w < |s.threads| ==> WorkerInv(s, w)
  }

  lemma {:induction false} StepKeepsMainInv(s: State, step: Step)
    requires MainInv(s) && Enabled(s, step)
    ensures MainInv(Apply(s, step)) && |Apply(s, step).threads| == |s.threads|
  {
  }

  lemma {:induction false} HandKeepsWorkerInv(s: State, w: nat)
    requires w < |s.threads| && MainInv(s) && WorkerInv(s, w) && Enabled(s, Hand)
    ensures WorkerInv(Apply(s, Hand), w)
  {
    assert w != s.main.i ==> Apply(s, Hand).fates[w] == s.fates[w];
    assert [] + [OnCreator] == [OnCreator];
  }

  lemma {:induction false} EndKeepsWorkerInv(s: State, t: nat, w: nat)
    requires w < |s.threads| && MainInv(s) && WorkerInv(s, w) && Enabled(s, End(t))
    ensures |Apply(s, End(t)).threads| == |Apply(s, End(t)).fates| == |s.threads| && WorkerInv(Apply(s, End(t)), w)
  {
    assert w != t ==> Apply(s, End(t)).threads[w] == s.threads[w] && Apply(s, End(t)).fates[w] == s.fates[w];
    assert [] + [OnOwnThread] == [OnOwnThread];
  }

  /** The other steps of the threads themselves. */
  lemma {:induction false} ThreadKeepsWorkerInv(s: State, step: Step, w: nat)
    requires w < |s.threads| && MainInv(s) && WorkerInv(s, w) && Enabled(s, step)
    requires step.Die? || step.Receive? || step.Clone? || step.Drop? || step.LoopEnds? || step.DropLocal?
    ensures |Apply(s, step).threads| == |Apply(s, step).fates| == |s.threads| && WorkerInv(Apply(s, step), w)
  {
    var s' := Apply(s, step);
    assert s'.main == s.main && s'.fates == s.fates && s'.threads == s.threads[step.t := s'.threads[step.t]];
  }

  /** The other steps of the main thread. */
  lemma {:induction false} MainKeepsWorkerInv(s: State, step: Step, w: nat)
    requires w < |s.threads| && MainInv(s) && WorkerInv(s, w) && Enabled(s, step)
    requires step.Watch? || step.Spawn? || step.Joined? || step.EndOne? || step.Return?
    requires |Apply(s, step).threads| == |Apply(s, step).fates| == |s.threads|
    ensures WorkerInv(Apply(s, step), w)
  {
    assert [] + [OnCreator] == [OnCreator];
  }

  lemma {:induction false} StepKeepsInv(s: State, step: Step)
    requires Inv(s) && Enabled(s, step)
    ensures Inv(Apply(s, step)) && |Apply(s, step).threads| == |s.threads|
  {
    StepKeepsMainInv(s, step);
    forall w | 0 <= w < |s.threads| ensures WorkerInv(Apply(s, step), w) {
      assert WorkerInv(s, w);
      if step.Hand? {
        HandKeepsWorkerInv(s, w);
      } else if step.End? {
        EndKeepsWorkerInv(s, step.t, w);
      } else if step.Watch? || step.Spawn? || step.Joined? || step.EndOne? || step.Return? {
        MainKeepsWorkerInv(s, step, w);
      } else {
        ThreadKeepsWorkerInv(s, step, w);
      }
    }
  }

  lemma {:induction false} RunKeepsInv(s: State, steps: seq<Step>, last: State)
    requires Inv(s) && IsRun(s, steps, last)
    ensures Inv(last) && |last.threads| == |s.threads|
    decreases |steps|
  {
    if steps != [] {
      StepKeepsInv(s, steps[0]);
      RunKeepsInv(Apply(s, steps[0]), steps[1..], last);
    }
  }

  /** Nothing is left to happen to worker `w`: an error was returned, or the handles were and its thread is gone. */
  predicate IsSettled(s: State, w: nat)
    requires w < |s.threads|
  {
    s.main.Failed? || s.main.Unwatched? || (s.main.Returned? && IsOver(s.threads[w]))
  }

  /**
  For every pattern of failures and every interleaving of threads and their tasks: a worker
  is ended at most once, not before its thread is done with it, and never leaked. When
  nothing is left to happen to it, it has been ended exactly once, on its own thread if it
  was handed over and on the creating thread if it was not.
  */
  lemma {:induction false} EveryWorkerEndsOnce(start: State, steps: seq<Step>, last: State, w: nat)
    requires IsStart(start) && IsRun(start, steps, last) && w < |start.threads|
    ensures |last.threads| == |last.fates| == |start.threads|
    ensures |last.fates[w]| <= 1 && Leaked !in last.fates[w]
    ensures last.fates[w] != [] && !last.threads[w].NoThread? ==> last.threads[w].Exited?
    ensures IsSettled(last, w) ==>
              last.fates[w] == if last.threads[w] == Exited(true) then [OnOwnThread] else [OnCreator]
  {
    forall v | 0 <= v < |start.threads| ensures WorkerInv(start, v) {}
    RunKeepsInv(start, steps, last);
    assert WorkerInv(last, w);
    if last.main.Failed? {
      assert IsOver(last.threads[w]);
    }
  }

  /** Thread `t` failed, or has stopped the server for it. */
  predicate Failing(s: State, t: nat)
    requires t < |s.threads|
  {
    match s.threads[t]
    case Stopped(_, ok) => !ok
    case Cleared(_, ok) => !ok
    case Exited(received) => received && s.cancelled
    case _ => false
  }

  predicate IsFailure(step: Step, t: nat) { step == LoopEnds(t, false) || step == Receive(t, false) }

  lemma {:induction false} StepKeepsFailing(s: State, step: Step, t: nat)
    requires Enabled(s, step) && t < |s.threads| && (Failing(s, t) || IsFailure(step, t))
    requires Inv(s)
    ensures |Apply(s, step).threads| == |s.threads| && Failing(Apply(s, step), t)
  {
    assert WorkerInv(s, t);
  }

  lemma {:induction false} RunKeepsFailing(s: State, steps: seq<Step>, last: State, t: nat)
    requires Inv(s) && IsRun(s, steps, last) && t < |s.threads|
    requires Failing(s, t) || exists i :: 0 <= i < |steps| && IsFailure(steps[i], t)
    ensures t < |last.threads| && Failing(last, t)
    decreases |steps|
  {
    if steps != [] {
      StepKeepsInv(s, steps[0]);
      if Failing(s, t) || IsFailure(steps[0], t) {
        StepKeepsFailing(s, steps[0], t);
      } else {
        var i :| 0 <= i < |steps| && IsFailure(steps[i], t);
        assert steps[1..][i - 1] == steps[i];
      }
      RunKeepsFailing(Apply(s, steps[0]), steps[1..], last, t);
    }
  }

  /**
  A thread whose runtime could not be built or whose `serve` failed stops the server before it
  is gone, whatever the others do.
  */
  lemma {:induction false} FailedThreadStopsServer(start: State, steps: seq<Step>, last: State, t: nat)
    requires IsStart(start) && IsRun(start, steps, last) && t < |start.threads|
    requires LoopEnds(t, false) in steps || Receive(t, false) in steps
    ensures |last.threads| == |start.threads|
    ensures last.threads[t].Exited? ==> last.cancelled
  {
    forall v | 0 <= v < |start.threads| ensures WorkerInv(start, v) {}
    RunKeepsInv(start, steps, last);
    var i :| 0 <= i < |steps| && (steps[i] == LoopEnds(t, false) || steps[i] == Receive(t, false));
    assert IsFailure(steps[i], t);
    RunKeepsFailing(start, steps, last, t);
  }

  lemma {:induction false} ThenStep(s: State, steps: seq<Step>, mid: State, step: Step, next: State)
    requires IsRun(s, steps, mid) && Enabled(mid, step) && Apply(mid, step) == next
    ensures IsRun(s, steps + [step], next)
    decreases |steps|
  {
    if steps == [] {
      assert [step][1..] == [] && IsRun(next, [], next);
    } else {
      assert (steps + [step])[1..] == steps[1..] + [step];
      ThenStep(Apply(s, steps[0]), steps[1..], mid, step, next);
    }
  }

  /** A server of one worker. */
  function Single(main: MainPc, thread: Thread): State { State(main, [thread], [[]], false) }

  /** It can have any number of references to the context alive while it serves. */
  lemma {:induction false} CanServe(n: nat) returns (steps: seq<Step>)
    ensures IsRun(Single(Watching, NoThread), steps, Single(Spawning(1), Serving(n)))
  {
    var start := Single(Watching, NoThread);
    if n == 0 {
      ThenStep(start, [], start, Watch(true), Single(Spawning(0), NoThread));
      ThenStep(start, [Watch(true)], Single(Spawning(0), NoThread), Spawn(true), Single(Handing(0), Waiting));
      steps := [Watch(true)] + [Spawn(true)];
      ThenStep(start, steps, Single(Handing(0), Waiting), Hand, Single(Spawning(1), Sent));
      steps := steps + [Hand];
      ThenStep(start, steps, Single(Spawning(1), Sent), Receive(0, true), Single(Spawning(1), Serving(0)));
      steps := steps + [Receive(0, true)];
    } else {
      steps := CanServe(n - 1);
      ThenStep(start, steps, Single(Spawning(1), Serving(n - 1)), Clone(0), Single(Spawning(1), Serving(n)));
      steps := steps + [Clone(0)];
    }
  }

  /**
  Why the local set is dropped first: `serve` can return with any number of references still
  in the tasks of the local set, as its drain is bounded in time, and the worker would then
  be leaked exactly if there is one. Once the set is dropped it is ended.
  */
  lemma {:induction false} EndingBeforeTheDropLeaks(n: nat, ok: bool)
    returns (start: State, steps: seq<Step>, stopped: State)
    ensures IsStart(start) && IsRun(start, steps, stopped)
    ensures |stopped.threads| == 1 && stopped.threads[0] == Stopped(n, ok) && Enabled(stopped, DropLocal(0))
    ensures EndedBy(stopped.threads[0]) == Leaked <==> n > 0
    ensures EndedBy(Apply(stopped, DropLocal(0)).threads[0]) == OnOwnThread
  {
    start, stopped := Single(Watching, NoThread), Single(Spawning(1), Stopped(n, ok));
    steps := CanServe(n);
    ThenStep(start, steps, Single(Spawning(1), Serving(n)), LoopEnds(0, ok), stopped);
    steps := steps + [LoopEnds(0, ok)];
  }

  /**
  A spawn error is returned only after the server was told to stop and every running thread
  was joined; a watcher error only before any thread was started. Either way every worker
  not handed over was ended by the creating thread.
  */
  lemma {:induction false} FailureJoinsFirst(start: State, steps: seq<Step>, last: State)
    requires IsStart(start) && IsRun(start, steps, last) && (last.main.Failed? || last.main.Unwatched?)
    ensures |last.fates| == |last.threads|
    ensures last.main.Failed? ==> last.cancelled
    ensures forall t :: 0 <= t < |last.threads| ==> IsOver(last.threads[t])
    ensures forall t :: Turn(last) <= t < |last.threads| ==> last.threads[t].NoThread? && last.fates[t] == [OnCreator]
  {
    forall v | 0 <= v < |start.threads| ensures WorkerInv(start, v) {}
    RunKeepsInv(start, steps, last);
    forall t | Turn(last) <= t < |last.threads|
      ensures last.threads[t].NoThread? && last.fates[t] == [OnCreator]
    {
      assert WorkerInv(last, t) && IsOver(last.threads[t]);
    }
  }

  /** Joins every thread; the first failure, in spawn order, is the result. */
  method JoinAll(outcomes: seq<Result<(), int>>) returns (r: Result<(), int>)
    ensures r.Ok? <==> forall k :: 0 <= k < |outcomes| ==> outcomes[k].Ok?
    ensures r.Err? ==> exists k :: 0 <= k < |outcomes| && outcomes[k] == r
                                && forall j :: 0 <= j < k ==> outcomes[j].Ok?
  {
    var first: Option<int> := None;
    for i := 0 to |outcomes|
      invariant first.None? <==> forall k :: 0 <= k < i ==> outcomes[k].Ok?
      invariant first.Some? ==> exists k :: 0 <= k < i && outcomes[k] == Err(first.value)
                                         && forall j :: 0 <= j < k ==> outcomes[j].Ok?
    {
      if outcomes[i].Err? && first.None? {
        first := Some(outcomes[i].error);
      }
    }
    r := if first.Some? then Err(first.value) else Ok(());
  }
}
