/**
WebSocket connection slots: an atomic counter of open connections, a slot held from before
the handler thread is spawned until it has been joined, and every exit of the upgrade.
*/
module ConnectionSlots {
  import opened Common

  /** Where the upgrade of one connection is, once its handler thread exists. */
  datatype Stage =
    | AwaitingVerdict     // in the request's own future
    | JoiningInline       // a hook rejected it: joined in the same future
    | Upgrading           // from here on in a task of its own
    | Pumping
    | Joining

  datatype Conn =
    | Fresh
    | Refused
    | Slotted                                   // it has a slot and no thread yet
    | Threaded(stage: Stage, running: bool)     // slot and thread; `running` until the handler returns
    | Orphaned(running: bool)                   // its future was dropped: the slot is gone, the thread is not
    | Over(running: bool)                       // joined, slot released

  datatype State = State(max: nat, open: nat, conns: seq<Conn>)

  datatype Verdict = Accept | Reject | Lost

  datatype Step =
    | Acquire(c: nat)
    | Spawn(c: nat, ok: bool)
    | Return(c: nat)                  // the handler thread ends
    | Answer(c: nat, verdict: Verdict)
    | Upgrade(c: nat, ok: bool)
    | Disconnect(c: nat)              // the pump ends
    | Join(c: nat)
    | Drop(c: nat)                    // the request's future is dropped while it waits

  predicate HasThread(conn: Conn) { conn.Threaded? || conn.Orphaned? || conn.Over? }

  predicate Enabled(s: State, step: Step) {
    step.c < |s.conns| &&
    var conn := s.conns[step.c];
    match step
    case Acquire(_) => conn.Fresh?
    case Spawn(_, _) => conn.Slotted?
    case Return(_) => HasThread(conn) && conn.running
    case Answer(_, _) => conn.Threaded? && conn.stage.AwaitingVerdict?
    case Upgrade(_, _) => conn.Threaded? && conn.stage.Upgrading?
    case Disconnect(_) => conn.Threaded? && conn.stage.Pumping?
    case Join(_) => conn.Threaded? && (conn.stage.Joining? || conn.stage.JoiningInline?) && !conn.running
    case Drop(_) => conn.Threaded? && (conn.stage.AwaitingVerdict? || conn.stage.JoiningInline?)
  }

  function Apply(s: State, step: Step): State
    requires Enabled(s, step)
  {
    var c := step.c;
    var conn := s.conns[c];
    match step
    case Acquire(_) =>
      if s.open < s.max then s.(open := s.open + 1, conns := s.conns[c := Slotted])
      else s.(conns := s.conns[c := Refused])
    case Spawn(_, ok) =>
      if ok then s.(conns := s.conns[c := Threaded(AwaitingVerdict, true)])
      else s.(open := Released(s), conns := s.conns[c := Refused])
    case Return(_) => s.(conns := s.conns[c := conn.(running := false)])
    case Answer(_, verdict) =>
      var stage := match verdict case Accept => Upgrading case Reject => JoiningInline case Lost => Joining;
      s.(conns := s.conns[c := conn.(stage := stage)])
    case Upgrade(_, ok) => s.(conns := s.conns[c := conn.(stage := if ok then Pumping else Joining)])
    case Disconnect(_) => s.(conns := s.conns[c := conn.(stage := Joining)])
    case Join(_) => s.(open := Released(s), conns := s.conns[c := Over(conn.running)])
    case Drop(_) => s.(open := Released(s), conns := s.conns[c := Orphaned(conn.running)])
  }

  /** `fetch_sub(1)`; at zero it would wrap, which the invariant rules out. */
  function Released(s: State): nat { if s.open == 0 then 0xFFFF_FFFF_FFFF_FFFF else s.open - 1 }

  ghost predicate IsRun(s: State, steps: seq<Step>, last: State)
    decreases |steps|
  {
    if steps == [] then s == last
    else Enabled(s, steps[0]) && IsRun(Apply(s, steps[0]), steps[1..], last)
  }

  predicate IsStart(s: State) {
    s.open == 0 && forall c :: 0 <= c < |s.conns| ==> s.conns[c].Fresh?
  }

  function HoldsSlot(conn: Conn): nat { if conn.Slotted? || conn.Threaded? then 1 else 0 }

  function Runs(conn: Conn): nat {
    if HasThread(conn) && conn.running then 1 else 0
  }

  function RunsOrphaned(conn: Conn): nat { if conn.Orphaned? && conn.running then 1 else 0 }

  ghost predicate Inv(s: State) {
    && s.open == SumBy(HoldsSlot, s.conns) <= s.max
    && forall c :: 0 <= c < |s.conns| && s.conns[c].Over? ==> !s.conns[c].running
  }

  lemma {:induction false} StepKeepsInv(s: State, step: Step)
    requires Inv(s) && Enabled(s, step)
    ensures Inv(Apply(s, step)) && Apply(s, step).max == s.max
    ensures SumBy(RunsOrphaned, Apply(s, step).conns) <= SumBy(RunsOrphaned, s.conns) + (if step.Drop? then 1 else 0)
  {
    var conn := Apply(s, step).conns[step.c];
    SumByUpdate(HoldsSlot, s.conns, step.c, conn);
    SumByUpdate(RunsOrphaned, s.conns, step.c, conn);
    assert Apply(s, step).conns == s.conns[step.c := conn];
  }

  function Drops(steps: seq<Step>): nat {
    if steps == [] then 0 else (if steps[0].Drop? then 1 else 0) + Drops(steps[1..])
  }

  lemma {:induction false} RunKeepsInv(s: State, steps: seq<Step>, last: State)
    requires Inv(s) && IsRun(s, steps, last)
    ensures Inv(last) && last.max == s.max
    ensures SumBy(RunsOrphaned, last.conns) <= SumBy(RunsOrphaned, s.conns) + Drops(steps)
    decreases |steps|
  {
    if steps != [] {
      StepKeepsInv(s, steps[0]);
      RunKeepsInv(Apply(s, steps[0]), steps[1..], last);
    }
  }

  lemma {:induction false} RunningHoldSlots(conns: seq<Conn>)
    requires forall c :: 0 <= c < |conns| && conns[c].Over? ==> !conns[c].running
    ensures SumBy(Runs, conns) <= SumBy(HoldsSlot, conns) + SumBy(RunsOrphaned, conns)
  {
    if conns != [] {
      assert forall c :: 0 <= c < |conns[1..]| ==> conns[1..][c] == conns[c + 1];
      RunningHoldSlots(conns[1..]);
    }
  }

  /**
  On every exit of the upgrade: the counter is the number of slots held and never above the
  limit, and the handler threads alive are at most the limit and those whose request future
  was dropped while it waited and that have not returned since, at most one for each drop.
  So without such drops the limit bounds threads.
  */
  lemma {:induction false} SlotsBoundThreads(start: State, steps: seq<Step>, last: State)
    requires IsStart(start) && IsRun(start, steps, last)
    ensures last.open == SumBy(HoldsSlot, last.conns) <= start.max
    ensures SumBy(Runs, last.conns) <= start.max + SumBy(RunsOrphaned, last.conns)
    ensures SumBy(RunsOrphaned, last.conns) <= Drops(steps)
  {
    SumByZero(HoldsSlot, start.conns);
    SumByZero(RunsOrphaned, start.conns);
    RunKeepsInv(start, steps, last);
    RunningHoldSlots(last.conns);
  }

  /** How a connection came to where it is: what its hooks answered, and whether the upgrade went through. */
  ghost predicate CameBy(conn: Conn, c: nat, steps: seq<Step>) {
    conn.Threaded? ==>
      match conn.stage
      case AwaitingVerdict => true
      case JoiningInline => Answer(c, Reject) in steps
      case Upgrading => Answer(c, Accept) in steps
      case Pumping => Answer(c, Accept) in steps && Upgrade(c, true) in steps
      case Joining => Answer(c, Accept) in steps || Answer(c, Lost) in steps
  }

  /** A step keeps it, with itself added to the run. */
  lemma {:induction false} StepComesBy(s: State, steps: seq<Step>, step: Step, c: nat)
    requires Enabled(s, step) && c < |s.conns| && CameBy(s.conns[c], c, steps)
    ensures |Apply(s, step).conns| == |s.conns| && CameBy(Apply(s, step).conns[c], c, steps + [step])
  {
    assert forall x :: x in steps ==> x in steps + [step];
    assert step in steps + [step];
  }

  lemma {:induction false} RunComesBy(s: State, before: seq<Step>, steps: seq<Step>, last: State, c: nat)
    requires IsRun(s, steps, last) && c < |s.conns| && CameBy(s.conns[c], c, before)
    ensures c < |last.conns| && CameBy(last.conns[c], c, before + steps)
    decreases |steps|
  {
    if steps == [] {
      assert before + steps == before;
    } else {
      StepComesBy(s, before, steps[0], c);
      RunComesBy(Apply(s, steps[0]), before + [steps[0]], steps[1..], last, c);
      assert before + [steps[0]] + steps[1..] == before + steps;
    }
  }

  /**
  Messages are only pumped for a connection the hooks accepted and whose upgrade went through,
  and only one the hooks rejected is joined before its answer.
  */
  lemma {:induction false} OnlyAcceptedIsServed(start: State, steps: seq<Step>, last: State, c: nat)
    requires IsStart(start) && IsRun(start, steps, last) && c < |start.conns|
    ensures c < |last.conns|
    ensures last.conns[c].Threaded? && last.conns[c].stage.Pumping? ==>
              Answer(c, Accept) in steps && Upgrade(c, true) in steps
    ensures last.conns[c].Threaded? && last.conns[c].stage.JoiningInline? ==> Answer(c, Reject) in steps
  {
    RunComesBy(start, [], steps, last, c);
    assert [] + steps == steps;
  }

  lemma {:induction false} ThenStep(s: State, steps: seq<Step>, mid: State, step: Step)
    requires IsRun(s, steps, mid) && Enabled(mid, step)
    ensures IsRun(s, steps + [step], Apply(mid, step))
    ensures Drops(steps + [step]) == Drops(steps) + (if step.Drop? then 1 else 0)
    decreases |steps|
  {
    if steps == [] {
      assert [step][1..] == [];
      assert IsRun(Apply(mid, step), [], Apply(mid, step));
    } else {
      assert (steps + [step])[1..] == steps[1..] + [step];
      ThenStep(Apply(s, steps[0]), steps[1..], mid, step);
    }
  }

  const WAITING := Threaded(AwaitingVerdict, true)

  /** `n` connections: `d` dropped ones whose threads still run, `k` waiting for a verdict, and new ones. */
  function Filled(max: nat, n: nat, d: nat, k: nat): State {
    State(max, k, seq(n, i => if i < d then Orphaned(true) else if i < d + k then WAITING else Fresh))
  }

  /** One more connection comes and waits. */
  lemma {:induction false} OneMore(
    start: State, steps: seq<Step>, max: nat, n: nat, d: nat, k: nat) returns (more: seq<Step>)
    requires IsRun(start, steps, Filled(max, n, d, k)) && k < max && d + k < n
    ensures IsRun(start, more, Filled(max, n, d, k + 1)) && Drops(more) == Drops(steps)
  {
    var s, c := Filled(max, n, d, k), d + k;
    ThenStep(start, steps, s, Acquire(c));
    var s1 := Apply(s, Acquire(c));
    ThenStep(start, steps + [Acquire(c)], s1, Spawn(c, true));
    more := steps + [Acquire(c)] + [Spawn(c, true)];
    assert Apply(s1, Spawn(c, true)) == Filled(max, n, d, k + 1);
  }

  lemma {:induction false} FillsUp(max: nat, n: nat, k: nat) returns (steps: seq<Step>)
    requires k <= max <= n
    ensures IsRun(Filled(max, n, 0, 0), steps, Filled(max, n, 0, k)) && Drops(steps) == 0
  {
    if k == 0 {
      steps := [];
    } else {
      steps := FillsUp(max, n, k - 1);
      steps := OneMore(Filled(max, n, 0, 0), steps, max, n, 0, k - 1);
    }
  }

  /** At the limit, `d` times over: a waiting future is dropped and another connection takes its slot. */
  lemma {:induction false} DropsAndRefills(max: nat, n: nat, d: nat) returns (steps: seq<Step>)
    requires max > 0 && max + d <= n
    ensures IsRun(Filled(max, n, 0, 0), steps, Filled(max, n, d, max)) && Drops(steps) == d
  {
    if d == 0 {
      steps := FillsUp(max, n, max);
    } else {
      var start, full := Filled(max, n, 0, 0), Filled(max, n, d - 1, max);
      steps := DropsAndRefills(max, n, d - 1);
      ThenStep(start, steps, full, Drop(d - 1));
      assert Apply(full, Drop(d - 1)) == Filled(max, n, d, max - 1);
      steps := OneMore(start, steps + [Drop(d - 1)], max, n, d, max - 1);
    }
  }

  lemma {:induction false} AllRun(conns: seq<Conn>)
    requires forall c :: 0 <= c < |conns| ==> Runs(conns[c]) == 1
    ensures SumBy(Runs, conns) == |conns|
  {
    if conns != [] {
      assert forall c :: 0 <= c < |conns[1..]| ==> conns[1..][c] == conns[c + 1];
      AllRun(conns[1..]);
    }
  }

  /**
  The allowance is met: under any limit and for any number of dropped futures there is a run
  in which that many threads more than the limit live.
  */
  lemma {:induction false} DroppedFuturesFreeSlotsEarly(max: nat, drops: nat)
    returns (start: State, steps: seq<Step>, last: State)
    requires max > 0
    ensures IsStart(start) && start.max == max && IsRun(start, steps, last)
    ensures Drops(steps) == drops && SumBy(Runs, last.conns) == max + drops
  {
    start, last := Filled(max, max + drops, 0, 0), Filled(max, max + drops, drops, max);
    steps := DropsAndRefills(max, max + drops, drops);
    AllRun(last.conns);
  }
}
