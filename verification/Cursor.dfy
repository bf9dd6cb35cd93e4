/**
The streaming Postgres cursor (`PgCursor`): one driver task sends rows through a bounded
channel, and any number of threads call `__next__` on one shared cursor. They take turns
through a mutex, a condition variable and a receiver that is checked out while a thread
waits on the channel.

Every critical section of the mutex is short and waits for nothing, so it is one atomic
step here. Sends, receives and `notify_all` are steps of their own, so any interleaving of
the driver and the threads is a run of this machine.
*/
module Cursor {
  import opened Common

  const CURSOR_CAPACITY: nat := 8

  /** A message from the driver: a row, or the error after which it stops. */
  datatype Msg = Row(row: int) | Failure(error: int)

  datatype Receiver = Here | CheckedOut | Closed

  /** What the cursor's mutex protects. */
  datatype CursorState = CursorState(rx: Receiver, buf: seq<Msg>)

  /** What a thread calling `__next__` does next. */
  datatype Turn = Deliver(msg: Option<Msg>) | Receive

  /** `claim` as a function: the new state, and this thread's turn if it has one. */
  function Claimed(st: CursorState): (CursorState, Option<Turn>) {
    if st.buf != [] then (st.(buf := st.buf[1..]), Some(Deliver(Some(st.buf[0]))))
    else match st.rx
      case Here => (st.(rx := CheckedOut), Some(Receive))
      case CheckedOut => (st, None)
      case Closed => (st, Some(Deliver(None)))
  }

  /** Giving the receiver back with `batch` (empty at end of stream), and taking the first message. */
  function GivenBack(st: CursorState, batch: seq<Msg>): (CursorState, Option<Msg>) {
    var rx := if batch == [] then Closed else Here;
    var buf := st.buf + batch;
    if buf == [] then (CursorState(rx, []), None) else (CursorState(rx, buf[1..]), Some(buf[0]))
  }

  /** The mutex's contents, updated in place as the source does. */
  class SharedCursor {
    var rx: Receiver
    var buf: seq<Msg>

    function State(): CursorState
      reads this
    {
      CursorState(rx, buf)
    }

    constructor ()
      ensures State() == CursorState(Here, [])
    {
      rx, buf := Here, [];
    }

    method Claim() returns (turn: Option<Turn>)
      modifies this
      ensures (State(), turn) == Claimed(old(State()))
    {
      if buf != [] {
        turn := Some(Deliver(Some(buf[0])));
        buf := buf[1..];
        return;
      }
      var was := rx;
      rx := CheckedOut;
      match was {
        case Here => turn := Some(Receive);
        case CheckedOut => turn := None;
        case Closed =>
          rx := Closed;
          turn := Some(Deliver(None));
      }
    }

    method GiveBack(batch: seq<Msg>) returns (next: Option<Msg>)
      modifies this
      ensures (State(), next) == GivenBack(old(State()), batch)
    {
      rx := if batch == [] then Closed else Here;
      buf := buf + batch;
      if buf == [] {
        next := None;
      } else {
        next := Some(buf[0]);
        buf := buf[1..];
      }
    }

    method GiveUp()
      modifies this
      ensures State() == old(State()).(rx := Closed)
    {
      rx := Closed;
    }
  }

  /** What the driver sent before each of the first `n` polls of a batch, in order. */
  function SentBefore(sends: nat -> seq<Msg>, n: nat): seq<Msg> {
    if n == 0 then [] else SentBefore(sends, n - 1) + sends(n - 1)
  }

  /**
  The batch loop, while the driver sends on: `sends(k)` is what it adds just before poll
  `k`. The batch is the channel's oldest messages in order, none skipped and none left
  behind by a poll that found one; it ends at `max` or at a poll that found nothing. It is
  empty only if the first receive found the channel empty, which is the end of the stream.
  */
  method RecvBatch(chan: seq<Msg>, sends: nat -> seq<Msg>, max: nat)
    returns (rest: seq<Msg>, batch: seq<Msg>, polls: nat)
    ensures batch + rest == chan + SentBefore(sends, polls)
    ensures batch == [] <==> chan == []
    ensures chan != [] && |batch| < max ==> rest == [] && polls == |batch|
    ensures |batch| <= max || |batch| == 1
    ensures polls <= |batch|
  {
    batch, rest, polls := [], chan, 0;
    if rest != [] {
      batch, rest := [rest[0]], rest[1..];
      while |batch| < max
        invariant batch + rest == chan + SentBefore(sends, polls)
        invariant |batch| == polls + 1
        invariant |batch| <= max || |batch| == 1
        decreases max - |batch|
      {
        ghost var before := batch + rest;
        rest := rest + sends(polls);
        polls := polls + 1;
        assert batch + rest == before + sends(polls - 1) == chan + SentBefore(sends, polls);
        if rest == [] { break; }
        batch, rest := batch + [rest[0]], rest[1..];
      }
    }
  }

  // ---------------------------------------------------------------------------
  // The machine
  // ---------------------------------------------------------------------------

  /** Where one thread is in `__next__`. */
  datatype Pc =
    | Idle
    | Retrying                      // it found the receiver checked out, and claims again under the lock
    | Asleep                        // waiting on the condition variable
    | Receiving(batch: seq<Msg>)    // it holds the receiver and fills its batch
    | Received(batch: seq<Msg>)     // its batch is complete; it still holds the receiver
    | Broken                        // the receive task failed and took the receiver with it
    | Notifying                     // it gave the receiver back; `notify_all` is still to come

  /** What a call returned, in the order the lock was held. */
  datatype Event = Got(thread: nat, msg: Msg) | Stop(thread: nat) | TaskError(thread: nat)

  datatype State = State(
    cell: CursorState,
    chan: seq<Msg>,
    dropped: bool,        // a failed receive task destroyed the receiver
    lost: seq<Msg>,       // messages that went with it
    script: seq<Msg>,     // everything the driver would send
    sent: nat,            // how much of it was sent
    ended: bool,          // the driver dropped its sender
    pcs: seq<Pc>,
    log: seq<Event>)

  datatype Step =
    | Send
    | Finish
    | Call(t: nat)
    | Claim(t: nat)
    | Wake(t: nat)        // a spurious wakeup
    | Take(t: nat)
    | Break(t: nat)
    | Eof(t: nat)
    | GiveBack(t: nat)
    | Fail(t: nat)
    | GiveUp(t: nat)
    | Notify(t: nat)

  predicate IsThread(s: State, t: nat) { t < |s.pcs| }

  predicate Enabled(s: State, step: Step) {
    match step
    case Send => !s.ended && !s.dropped && s.sent < |s.script| && |s.chan| < CURSOR_CAPACITY
    case Finish => !s.ended && (s.sent >= |s.script| || s.dropped)
    case Call(t) => IsThread(s, t) && s.pcs[t].Idle?
    case Claim(t) => IsThread(s, t) && s.pcs[t].Retrying?
    case Wake(t) => IsThread(s, t) && s.pcs[t].Asleep?
    case Take(t) => IsThread(s, t) && s.pcs[t].Receiving? && s.chan != [] && |s.pcs[t].batch| < CURSOR_CAPACITY
    case Break(t) =>
      IsThread(s, t) && s.pcs[t].Receiving? && s.pcs[t].batch != [] &&
      (s.chan == [] || |s.pcs[t].batch| == CURSOR_CAPACITY)
    case Eof(t) => IsThread(s, t) && s.pcs[t] == Receiving([]) && s.chan == [] && s.ended
    case GiveBack(t) => IsThread(s, t) && s.pcs[t].Received?
    case Fail(t) => IsThread(s, t) && (s.pcs[t].Receiving? || s.pcs[t].Received?)
    case GiveUp(t) => IsThread(s, t) && s.pcs[t].Broken?
    case Notify(t) => IsThread(s, t) && s.pcs[t].Notifying?
  }

  /** One critical section of `claim`; a thread with no turn goes on to `otherwise`. */
  function ClaimStep(s: State, t: nat, otherwise: Pc): State
    requires IsThread(s, t)
  {
    var (cell, turn) := Claimed(s.cell);
    match turn
    case None => s.(cell := cell, pcs := s.pcs[t := otherwise])
    case Some(Receive) => s.(cell := cell, pcs := s.pcs[t := Receiving([])])
    case Some(Deliver(Some(m))) => s.(cell := cell, pcs := s.pcs[t := Idle], log := s.log + [Got(t, m)])
    case Some(Deliver(None)) => s.(cell := cell, pcs := s.pcs[t := Idle], log := s.log + [Stop(t)])
  }

  function GiveBackStep(s: State, t: nat): State
    requires IsThread(s, t) && s.pcs[t].Received?
  {
    var (cell, next) := GivenBack(s.cell, s.pcs[t].batch);
    var event := if next.Some? then Got(t, next.value) else Stop(t);
    s.(cell := cell, pcs := s.pcs[t := Notifying], log := s.log + [event])
  }

  function Woken(pcs: seq<Pc>): (r: seq<Pc>)
    ensures |r| == |pcs|
    ensures forall i :: 0 <= i < |pcs| ==> r[i] == if pcs[i].Asleep? then Retrying else pcs[i]
  {
    seq(|pcs|, i requires 0 <= i < |pcs| => if pcs[i].Asleep? then Retrying else pcs[i])
  }

  function Apply(s: State, step: Step): State
    requires Enabled(s, step)
  {
    match step
    case Send => s.(chan := s.chan + [s.script[s.sent]], sent := s.sent + 1)
    case Finish => s.(ended := true)
    case Call(t) => ClaimStep(s, t, Retrying)
    case Claim(t) => ClaimStep(s, t, Asleep)
    case Wake(t) => s.(pcs := s.pcs[t := Retrying])
    case Take(t) => s.(chan := s.chan[1..], pcs := s.pcs[t := Receiving(s.pcs[t].batch + [s.chan[0]])])
    case Break(t) => s.(pcs := s.pcs[t := Received(s.pcs[t].batch)])
    case Eof(t) => s.(pcs := s.pcs[t := Received([])])
    case GiveBack(t) => GiveBackStep(s, t)
    case Fail(t) =>
      s.(pcs := s.pcs[t := Broken], lost := s.pcs[t].batch + s.chan, chan := [], dropped := true)
    case GiveUp(t) =>
      s.(cell := s.cell.(rx := Closed), pcs := s.pcs[t := Notifying], log := s.log + [TaskError(t)])
    case Notify(t) => s.(pcs := Woken(s.pcs[t := Idle]))
  }

  /** `steps` is a run from `s` to `last`. */
  ghost predicate IsRun(s: State, steps: seq<Step>, last: State)
    decreases |steps|
  {
    if steps == [] then s == last
    else Enabled(s, steps[0]) && IsRun(Apply(s, steps[0]), steps[1..], last)
  }

  /** A new cursor over a driver with this script, shared by `threads` threads. */
  predicate IsStart(s: State) {
    && s.cell == CursorState(Here, []) && s.chan == [] && !s.dropped && s.lost == []
    && s.sent == 0 && !s.ended && s.log == []
    && forall i :: 0 <= i < |s.pcs| ==> s.pcs[i].Idle?
  }

  // ---------------------------------------------------------------------------
  // Views
  // ---------------------------------------------------------------------------

  function Delivered(log: seq<Event>): seq<Msg> {
    if log == [] then []
    else
      var (before, e) := (log[..|log| - 1], log[|log| - 1]);
      if e.Got? then Delivered(before) + [e.msg] else Delivered(before)
  }

  lemma DeliveredSnoc(log: seq<Event>, e: Event)
    ensures Delivered(log + [e]) == if e.Got? then Delivered(log) + [e.msg] else Delivered(log)
  {
    assert (log + [e])[..|log|] == log;
  }

  predicate Holds(pc: Pc) { pc.Receiving? || pc.Received? || pc.Broken? }

  function BatchOf(pc: Pc): seq<Msg> {
    if pc.Receiving? || pc.Received? then pc.batch else []
  }

  /** The batches in the threads' hands. */
  function Batches(pcs: seq<Pc>): seq<Msg> {
    if pcs == [] then [] else BatchOf(pcs[0]) + Batches(pcs[1..])
  }

  /** The places a message passes, the last it reaches first. */
  datatype Places = Nowhere | At(msgs: seq<Msg>, next: Places)

  function Line(places: Places): seq<Msg> {
    match places
    case Nowhere => []
    case At(msgs, next) => msgs + Line(next)
  }

  function PlacesOf(s: State): Places {
    At(Delivered(s.log), At(s.cell.buf, At(Batches(s.pcs), At(s.chan, At(s.lost, Nowhere)))))
  }

  lemma {:induction false} LineIs(d: seq<Msg>, b: seq<Msg>, h: seq<Msg>, c: seq<Msg>, l: seq<Msg>)
    ensures Line(At(d, At(b, At(h, At(c, At(l, Nowhere)))))) == d + b + h + c + l
  {
    assert Line(At(l, Nowhere)) == l;
    assert Line(At(c, At(l, Nowhere))) == c + l;
    assert Line(At(h, At(c, At(l, Nowhere)))) == h + (c + l);
    assert d + (b + (h + (c + l))) == d + b + h + c + l;
  }

  lemma {:induction false} NoBatches(pcs: seq<Pc>)
    requires forall i :: 0 <= i < |pcs| ==> !Holds(pcs[i])
    ensures Batches(pcs) == []
  {
    if pcs != [] {
      assert forall i :: 0 <= i < |pcs[1..]| ==> pcs[1..][i] == pcs[i + 1];
      NoBatches(pcs[1..]);
    }
  }

  lemma {:induction false} OneBatch(pcs: seq<Pc>, t: nat)
    requires t < |pcs|
    requires forall i :: 0 <= i < |pcs| && i != t ==> !Holds(pcs[i])
    ensures Batches(pcs) == BatchOf(pcs[t])
  {
    assert forall i :: 0 <= i < |pcs[1..]| ==> pcs[1..][i] == pcs[i + 1];
    if t == 0 {
      NoBatches(pcs[1..]);
    } else {
      OneBatch(pcs[1..], t - 1);
    }
  }

  // ---------------------------------------------------------------------------
  // The invariant
  // ---------------------------------------------------------------------------

  /** The receiver is checked out exactly when one thread, and only one, holds it. */
  ghost predicate TurnTaking(s: State) {
    && (s.cell.rx.CheckedOut? <==> exists i :: 0 <= i < |s.pcs| && Holds(s.pcs[i]))
    && (forall i, j :: 0 <= i < |s.pcs| && 0 <= j < |s.pcs| && Holds(s.pcs[i]) && Holds(s.pcs[j]) ==> i == j)
  }

  ghost predicate Bounds(s: State) {
    && s.sent <= |s.script|
    && |s.chan| <= CURSOR_CAPACITY && |s.cell.buf| <= CURSOR_CAPACITY
    && (!s.cell.rx.Here? ==> s.cell.buf == [])
    && (forall i :: 0 <= i < |s.pcs| ==> |BatchOf(s.pcs[i])| <= CURSOR_CAPACITY)
  }

  /** How the end of the stream, and a failed receive, show in the shared state. */
  ghost predicate StreamEnds(s: State) {
    && (s.ended && !s.dropped ==> s.sent == |s.script|)
    && (s.dropped ==> s.chan == [] && !s.cell.rx.Here?)
    && (!s.dropped ==> s.lost == [])
    && (s.cell.rx.Closed? && !s.dropped ==> s.ended && s.chan == [])
  }

  /** How they show in a thread holding the receiver. */
  ghost predicate HolderEnds(s: State, pc: Pc) {
    && (pc.Broken? ==> s.dropped)
    && (pc.Receiving? || pc.Received? ==> !s.dropped)
    && (pc == Received([]) ==> s.ended && s.chan == [])
  }

  ghost predicate HoldersEnd(s: State) {
    forall i :: 0 <= i < |s.pcs| ==> HolderEnds(s, s.pcs[i])
  }

  /** How they show in what calls returned. */
  ghost predicate CallsEnd(s: State) {
    && (forall k :: 0 <= k < |s.log| && !s.log[k].Got? ==> s.cell.rx.Closed?)
    && (s.cell.rx.Closed? && s.dropped ==> exists k :: 0 <= k < |s.log| && s.log[k].TaskError?)
    && (forall k :: 0 <= k < |s.log| && s.log[k].TaskError? ==> s.dropped)
  }

  /** Nobody sleeps without a thread that will wake them. */
  ghost predicate WakeupsPending(s: State) {
    (exists i :: 0 <= i < |s.pcs| && s.pcs[i].Asleep?) ==>
      s.cell.rx.CheckedOut? || exists j :: 0 <= j < |s.pcs| && s.pcs[j].Notifying?
  }

  /** Everything sent is accounted for, in order. */
  ghost predicate Conserved(s: State) {
    s.sent <= |s.script| &&
    s.script[..s.sent] == Line(PlacesOf(s))
  }

  ghost predicate Inv(s: State) {
    TurnTaking(s) && Bounds(s) && StreamEnds(s) && HoldersEnd(s) && CallsEnd(s) && WakeupsPending(s) && Conserved(s)
  }

  lemma {:induction false} StartInv(s: State)
    requires IsStart(s)
    ensures Inv(s)
  {
    NoBatches(s.pcs);
    LineIs([], [], [], [], []);
  }

  /** `claim` under the lock, from either of its two call sites. */
  ghost predicate CanClaim(s: State, t: nat, otherwise: Pc) {
    && t < |s.pcs| && (s.pcs[t].Idle? || s.pcs[t].Retrying?)
    && (otherwise.Retrying? || otherwise.Asleep?)
  }

  lemma {:induction false} ClaimTakesTurn(s: State, t: nat, otherwise: Pc)
    requires TurnTaking(s) && CanClaim(s, t, otherwise)
    ensures TurnTaking(ClaimStep(s, t, otherwise))
  {
    var s' := ClaimStep(s, t, otherwise);
    assert s'.pcs == s.pcs[t := s'.pcs[t]];
    if s.cell.buf == [] && s.cell.rx.Here? {
      assert Holds(s'.pcs[t]) && s'.cell.rx.CheckedOut?;
      assert forall i :: 0 <= i < |s.pcs| ==> !Holds(s.pcs[i]);
    } else {
      assert s'.cell.rx == s.cell.rx;
      assert forall i :: 0 <= i < |s.pcs| ==> Holds(s'.pcs[i]) == Holds(s.pcs[i]);
    }
  }

  /** Giving the receiver back leaves it with nobody. */
  lemma {:induction false} ReturnTakesTurn(s: State, t: nat, s': State)
    requires TurnTaking(s) && t < |s.pcs| && Holds(s.pcs[t])
    requires s'.pcs == s.pcs[t := Notifying] && !s'.cell.rx.CheckedOut?
    ensures TurnTaking(s')
  {
    assert forall i :: 0 <= i < |s.pcs| ==> !Holds(s'.pcs[i]);
  }

  /** A step that moves no receiver keeps turn-taking. */
  lemma {:induction false} SameHolders(s: State, s': State)
    requires TurnTaking(s) && s'.cell.rx == s.cell.rx && |s'.pcs| == |s.pcs|
    requires forall i :: 0 <= i < |s.pcs| ==> Holds(s'.pcs[i]) == Holds(s.pcs[i])
    ensures TurnTaking(s')
  {
    if i :| 0 <= i < |s.pcs| && Holds(s.pcs[i]) {
      assert Holds(s'.pcs[i]);
    }
  }

  lemma {:induction false} TurnTakingKept(s: State, step: Step)
    requires TurnTaking(s) && Enabled(s, step)
    ensures TurnTaking(Apply(s, step))
  {
    var s' := Apply(s, step);
    if step.Call? {
      ClaimTakesTurn(s, step.t, Retrying);
    } else if step.Claim? {
      ClaimTakesTurn(s, step.t, Asleep);
    } else if step.GiveBack? || step.GiveUp? {
      ReturnTakesTurn(s, step.t, s');
    } else {
      SameHolders(s, s');
    }
  }

  lemma {:induction false} ClaimBounded(s: State, t: nat, otherwise: Pc)
    requires Bounds(s) && CanClaim(s, t, otherwise)
    ensures Bounds(ClaimStep(s, t, otherwise))
  {
    var s' := ClaimStep(s, t, otherwise);
    assert s'.pcs == s.pcs[t := s'.pcs[t]] && BatchOf(s'.pcs[t]) == [];
  }

  lemma {:induction false} GiveBackBounded(s: State, t: nat)
    requires Bounds(s) && TurnTaking(s) && Enabled(s, GiveBack(t))
    ensures Bounds(GiveBackStep(s, t))
  {
    assert Holds(s.pcs[t]) && |BatchOf(s.pcs[t])| <= CURSOR_CAPACITY;
    assert s.cell.buf + s.pcs[t].batch == s.pcs[t].batch;
  }

  lemma {:induction false} BoundsKept(s: State, step: Step)
    requires Bounds(s) && TurnTaking(s) && Enabled(s, step)
    ensures Bounds(Apply(s, step))
  {
    if step.Call? {
      ClaimBounded(s, step.t, Retrying);
    } else if step.Claim? {
      ClaimBounded(s, step.t, Asleep);
    } else if step.GiveBack? {
      GiveBackBounded(s, step.t);
    } else if step.Take? {
      assert |BatchOf(s.pcs[step.t])| < CURSOR_CAPACITY;
    } else if !step.Send? && !step.Finish? {
      OtherBounded(s, step);
    }
  }

  lemma {:induction false} OtherBounded(s: State, step: Step)
    requires Bounds(s) && TurnTaking(s) && Enabled(s, step)
    requires step.Wake? || step.Break? || step.Eof? || step.Fail? || step.GiveUp? || step.Notify?
    ensures Bounds(Apply(s, step))
  {
    var s' := Apply(s, step);
    assert step.GiveUp? ==> Holds(s.pcs[step.t]);
    forall i | 0 <= i < |s'.pcs| ensures |BatchOf(s'.pcs[i])| <= CURSOR_CAPACITY {
      assert |BatchOf(s'.pcs[i])| <= |BatchOf(s.pcs[i])|;
    }
  }

  lemma {:induction false} StreamEndsKept(s: State, step: Step)
    requires Inv(s) && Enabled(s, step)
    ensures StreamEnds(Apply(s, step))
  {
    if !step.Send? && !step.Finish? {
      assert HolderEnds(s, s.pcs[step.t]);
    }
  }

  lemma {:induction false} HoldersEndKept(s: State, step: Step)
    requires Inv(s) && Enabled(s, step)
    ensures HoldersEnd(Apply(s, step))
  {
    var s' := Apply(s, step);
    forall i | 0 <= i < |s'.pcs| ensures HolderEnds(s', s'.pcs[i]) {
      HolderEndsKept(s, step, i);
    }
  }

  lemma {:induction false} HolderEndsKept(s: State, step: Step, i: nat)
    requires TurnTaking(s) && StreamEnds(s) && HoldersEnd(s) && Enabled(s, step) && i < |s.pcs|
    ensures |Apply(s, step).pcs| == |s.pcs| && HolderEnds(Apply(s, step), Apply(s, step).pcs[i])
  {
    assert HolderEnds(s, s.pcs[i]);
    assert step.Fail? ==> i == step.t || !Holds(s.pcs[i]);
  }

  lemma {:induction false} ClaimCallsEnd(s: State, t: nat, otherwise: Pc)
    requires CallsEnd(s) && Bounds(s) && CanClaim(s, t, otherwise)
    ensures CallsEnd(ClaimStep(s, t, otherwise))
  {
    var s' := ClaimStep(s, t, otherwise);
    assert s.log <= s'.log;
    if s'.cell.rx.Closed? && s'.dropped {
      var k :| 0 <= k < |s.log| && s.log[k].TaskError?;
      assert s'.log[k] == s.log[k];
    }
  }

  lemma {:induction false} GiveBackCallsEnd(s: State, t: nat)
    requires CallsEnd(s) && s.cell == CursorState(CheckedOut, []) && !s.dropped && Enabled(s, GiveBack(t))
    ensures CallsEnd(Apply(s, GiveBack(t)))
  {
  }

  lemma {:induction false} CallsEndKept(s: State, step: Step)
    requires Inv(s) && Enabled(s, step)
    ensures CallsEnd(Apply(s, step))
  {
    if step.Call? {
      ClaimCallsEnd(s, step.t, Retrying);
    } else if step.Claim? {
      ClaimCallsEnd(s, step.t, Asleep);
    } else if step.GiveBack? {
      assert HolderEnds(s, s.pcs[step.t]);
      GiveBackCallsEnd(s, step.t);
    } else if step.GiveUp? {
      assert HolderEnds(s, s.pcs[step.t]);
      assert Apply(s, step).log[|s.log|].TaskError?;
    } else if step.Fail? {
      assert !s.cell.rx.Closed?;
    }
  }

  /** A step after which nobody new sleeps, and whoever was to wake the sleepers still is. */
  lemma {:induction false} SameWakeups(s: State, s': State)
    requires WakeupsPending(s) && |s'.pcs| == |s.pcs| && (s.cell.rx.CheckedOut? ==> s'.cell.rx.CheckedOut?)
    requires forall i :: 0 <= i < |s.pcs| && s'.pcs[i].Asleep? ==> s.pcs[i].Asleep?
    requires forall i :: 0 <= i < |s.pcs| && s.pcs[i].Notifying? ==> s'.pcs[i].Notifying?
    ensures WakeupsPending(s')
  {
    if i :| 0 <= i < |s.pcs| && s'.pcs[i].Asleep? {
      assert s.pcs[i].Asleep?;
      if !s.cell.rx.CheckedOut? {
        var j :| 0 <= j < |s.pcs| && s.pcs[j].Notifying?;
        assert s'.pcs[j].Notifying?;
      }
    }
  }

  /** A thread that claims sleeps only if another holds the receiver. */
  lemma {:induction false} ClaimWakeups(s: State, t: nat, otherwise: Pc)
    requires WakeupsPending(s) && CanClaim(s, t, otherwise)
    ensures WakeupsPending(ClaimStep(s, t, otherwise))
  {
    var s' := ClaimStep(s, t, otherwise);
    if !s'.cell.rx.CheckedOut? {
      SameWakeups(s, s');
    }
  }

  lemma {:induction false} WakeupsKept(s: State, step: Step)
    requires WakeupsPending(s) && Enabled(s, step)
    ensures WakeupsPending(Apply(s, step))
  {
    var s' := Apply(s, step);
    if step.Call? {
      ClaimWakeups(s, step.t, Retrying);
    } else if step.Claim? {
      ClaimWakeups(s, step.t, Asleep);
    } else if step.GiveBack? || step.GiveUp? {
      assert s'.pcs[step.t].Notifying?;
    } else if step.Notify? {
      assert forall i :: 0 <= i < |s'.pcs| ==> !s'.pcs[i].Asleep?;
    } else {
      SameWakeups(s, s');
    }
  }

  lemma {:induction false} SameBatches(pcs: seq<Pc>, pcs': seq<Pc>)
    requires |pcs| == |pcs'|
    requires forall i :: 0 <= i < |pcs| ==> BatchOf(pcs[i]) == BatchOf(pcs'[i])
    ensures Batches(pcs) == Batches(pcs')
  {
    if pcs != [] {
      assert forall i :: 0 <= i < |pcs[1..]| ==> pcs[1..][i] == pcs[i + 1] && pcs'[1..][i] == pcs'[i + 1];
      SameBatches(pcs[1..], pcs'[1..]);
    }
  }

  /** Moving the first message of a place to the end of the place before leaves the line the same. */
  lemma {:induction false} MoveAlong(to: seq<Msg>, from: seq<Msg>, rest: Places)
    requires from != []
    ensures Line(At(to + [from[0]], At(from[1..], rest))) == Line(At(to, At(from, rest)))
  {
    assert from == [from[0]] + from[1..];
    assert Line(At(from, rest)) == [from[0]] + (from[1..] + Line(rest));
  }

  /** Two neighbouring places hold what one of them could hold alone. */
  lemma {:induction false} Merge(a: seq<Msg>, b: seq<Msg>, rest: Places)
    ensures Line(At(a, At(b, rest))) == Line(At(a + b, rest))
    ensures Line(At([], rest)) == Line(rest)
  {
    assert a + (b + Line(rest)) == (a + b) + Line(rest);
    assert [] + Line(rest) == Line(rest);
  }

  /** A step that leaves the line the same, and sends nothing, conserves. */
  lemma {:induction false} SameLine(s: State, s': State)
    requires Conserved(s) && s'.script == s.script && s'.sent == s.sent
    requires Line(PlacesOf(s')) == Line(PlacesOf(s))
    ensures Conserved(s')
  {
  }

  lemma {:induction false} PopConserves(s: State, t: nat)
    requires Conserved(s) && t < |s.pcs| && BatchOf(s.pcs[t]) == [] && s.cell.buf != []
    ensures Conserved(ClaimStep(s, t, Idle))
  {
    var s' := ClaimStep(s, t, Idle);
    var m, rest := s.cell.buf[0], At(Batches(s.pcs), At(s.chan, At(s.lost, Nowhere)));
    SameBatches(s.pcs, s.pcs[t := Idle]);
    DeliveredSnoc(s.log, Got(t, m));
    MoveAlong(Delivered(s.log), s.cell.buf, rest);
    assert PlacesOf(s') == At(Delivered(s.log) + [m], At(s.cell.buf[1..], rest));
    SameLine(s, s');
  }

  lemma {:induction false} ClaimConserves(s: State, t: nat, otherwise: Pc)
    requires Conserved(s) && t < |s.pcs| && BatchOf(s.pcs[t]) == [] && BatchOf(otherwise) == []
    ensures Conserved(ClaimStep(s, t, otherwise))
  {
    if s.cell.buf != [] {
      PopConserves(s, t);
    } else {
      var s' := ClaimStep(s, t, otherwise);
      var pc := if s.cell.rx.Here? then Receiving([]) else if s.cell.rx.Closed? then Idle else otherwise;
      assert s'.pcs == s.pcs[t := pc];
      SameBatches(s.pcs, s.pcs[t := pc]);
      DeliveredSnoc(s.log, Stop(t));
      assert PlacesOf(s') == PlacesOf(s);
    }
  }

  lemma {:induction false} SendConserves(s: State)
    requires Conserved(s) && s.lost == [] && Enabled(s, Send)
    ensures Conserved(Apply(s, Send))
  {
    var m := s.script[s.sent];
    assert s.script[..s.sent + 1] == s.script[..s.sent] + [m];
    LineIs(Delivered(s.log), s.cell.buf, Batches(s.pcs), s.chan, []);
    LineIs(Delivered(s.log), s.cell.buf, Batches(s.pcs), s.chan + [m], []);
  }

  lemma {:induction false} TakeConserves(s: State, t: nat)
    requires Conserved(s) && TurnTaking(s) && Enabled(s, Take(t))
    ensures Conserved(Apply(s, Take(t)))
  {
    var s' := Apply(s, Take(t));
    OneBatch(s.pcs, t);
    OneBatch(s'.pcs, t);
    MoveAlong(s.pcs[t].batch, s.chan, At(s.lost, Nowhere));
    assert Line(PlacesOf(s').next) == Line(PlacesOf(s).next);
  }

  lemma {:induction false} GiveBackConserves(s: State, t: nat)
    requires Conserved(s) && TurnTaking(s) && s.cell.buf == [] && Enabled(s, GiveBack(t))
    ensures Conserved(Apply(s, GiveBack(t)))
  {
    var s' := GiveBackStep(s, t);
    var d, h, rest := Delivered(s.log), s.pcs[t].batch, At(s.chan, At(s.lost, Nowhere));
    OneBatch(s.pcs, t);
    OneBatch(s.pcs[t := Notifying], t);
    DeliveredSnoc(s.log, s'.log[|s.log|]);
    assert [] + h == h;
    Merge([], h, rest);
    if h == [] {
      assert PlacesOf(s') == PlacesOf(s);
    } else {
      MoveAlong(d, h, rest);
      Merge(h[1..], [], rest);
      assert h[1..] + [] == h[1..];
      assert PlacesOf(s') == At(d + [h[0]], At(h[1..], At([], rest)));
      assert Line(At(h[1..], At([], rest))) == Line(At(h[1..], rest));
    }
    SameLine(s, s');
  }

  lemma {:induction false} FailConserves(s: State, t: nat)
    requires Conserved(s) && TurnTaking(s) && s.lost == [] && Enabled(s, Fail(t))
    ensures Conserved(Apply(s, Fail(t)))
  {
    var s' := Apply(s, Fail(t));
    var h := s.pcs[t].batch;
    OneBatch(s.pcs, t);
    OneBatch(s.pcs[t := Broken], t);
    Merge(h, s.chan, At([], Nowhere));
    Merge(h + s.chan, [], Nowhere);
    Merge([], [], At(h + s.chan, Nowhere));
    assert h + s.chan + [] == h + s.chan;
    assert Line(PlacesOf(s').next.next) == Line(PlacesOf(s).next.next);
    SameLine(s, s');
  }

  /** A step that moves no message conserves. */
  lemma {:induction false} StillConserved(s: State, s': State)
    requires Conserved(s) && s'.script == s.script && s'.sent == s.sent
    requires Delivered(s'.log) == Delivered(s.log) && s'.cell.buf == s.cell.buf
    requires s'.chan == s.chan && s'.lost == s.lost && |s'.pcs| == |s.pcs|
    requires forall i :: 0 <= i < |s.pcs| ==> BatchOf(s.pcs[i]) == BatchOf(s'.pcs[i])
    ensures Conserved(s')
  {
    SameBatches(s.pcs, s'.pcs);
  }

  lemma {:induction false} ConservedKept(s: State, step: Step)
    requires Inv(s) && Enabled(s, step)
    ensures Conserved(Apply(s, step))
  {
    if step.Send? {
      SendConserves(s);
    } else if step.Call? {
      ClaimConserves(s, step.t, Retrying);
    } else if step.Claim? {
      ClaimConserves(s, step.t, Asleep);
    } else if step.Take? {
      TakeConserves(s, step.t);
    } else if step.GiveBack? {
      GiveBackConserves(s, step.t);
    } else if step.Fail? {
      assert HolderEnds(s, s.pcs[step.t]);
      FailConserves(s, step.t);
    } else {
      OtherConserves(s, step);
    }
  }

  lemma {:induction false} OtherConserves(s: State, step: Step)
    requires Conserved(s) && Enabled(s, step)
    requires step.Finish? || step.Wake? || step.Break? || step.Eof? || step.GiveUp? || step.Notify?
    ensures Conserved(Apply(s, step))
  {
    if step.GiveUp? {
      DeliveredSnoc(s.log, TaskError(step.t));
    }
    StillConserved(s, Apply(s, step));
  }

  /** Every step of every thread and of the driver keeps the invariant. */
  lemma {:induction false} StepKeepsInv(s: State, step: Step)
    requires Inv(s) && Enabled(s, step)
    ensures Inv(Apply(s, step))
  {
    TurnTakingKept(s, step);
    BoundsKept(s, step);
    StreamEndsKept(s, step);
    HoldersEndKept(s, step);
    CallsEndKept(s, step);
    WakeupsKept(s, step);
    ConservedKept(s, step);
  }

  lemma {:induction false} RunKeepsInv(s: State, steps: seq<Step>, last: State)
    requires Inv(s) && IsRun(s, steps, last)
    ensures Inv(last)
    decreases |steps|
  {
    if steps != [] {
      StepKeepsInv(s, steps[0]);
      RunKeepsInv(Apply(s, steps[0]), steps[1..], last);
    }
  }

  lemma {:induction false} RunKeepsScript(s: State, steps: seq<Step>, last: State)
    requires IsRun(s, steps, last)
    ensures last.script == s.script && |last.pcs| == |s.pcs|
    decreases |steps|
  {
    if steps != [] {
      RunKeepsScript(Apply(s, steps[0]), steps[1..], last);
    }
  }

  // ---------------------------------------------------------------------------
  // What every run keeps
  // ---------------------------------------------------------------------------

  lemma IsPrefix(all: seq<Msg>, k: nat, head: seq<Msg>, tail: seq<Msg>)
    requires k <= |all| && all[..k] == head + tail
    ensures head <= all
  {
    assert all == all[..k] + all[k..];
    assert head <= head + tail;
  }

  /**
  In every run from a new cursor: what the driver sent is what calls returned (in lock
  order), then the buffer, the holder's batch, the channel, and what a failed receive
  lost. So calls return an in-order prefix of the driver's messages, with no loss or
  duplicate before that point.
  */
  lemma {:induction false} DeliveryIsInOrder(start: State, steps: seq<Step>, last: State)
    requires IsStart(start) && IsRun(start, steps, last)
    ensures last.sent <= |start.script|
    ensures start.script[..last.sent]
         == Delivered(last.log) + last.cell.buf + Batches(last.pcs) + last.chan + last.lost
    ensures Delivered(last.log) <= start.script
    ensures !last.dropped ==> last.lost == []
  {
    StartInv(start);
    RunKeepsInv(start, steps, last);
    RunKeepsScript(start, steps, last);
    LineIs(Delivered(last.log), last.cell.buf, Batches(last.pcs), last.chan, last.lost);
    IsPrefix(start.script, last.sent, Delivered(last.log), Line(PlacesOf(last).next));
  }

  /** How many calls thread `t` has made in a run. */
  function Calls(steps: seq<Step>, t: nat): nat {
    if steps == [] then 0 else (if steps[0] == Call(t) then 1 else 0) + Calls(steps[1..], t)
  }

  /** How many answers it was given. */
  function Answers(log: seq<Event>, t: nat): nat {
    if log == [] then 0
    else Answers(log[..|log| - 1], t) + (if log[|log| - 1].thread == t then 1 else 0)
  }

  /** Whether it is inside a call that has no answer yet. */
  function Unanswered(pc: Pc): nat { if pc.Idle? || pc.Notifying? then 0 else 1 }

  lemma {:induction false} AnswersSnoc(log: seq<Event>, e: Event, t: nat)
    ensures Answers(log + [e], t) == Answers(log, t) + (if e.thread == t then 1 else 0)
  {
    assert (log + [e])[..|log|] == log;
  }

  /** A claim answers the thread that made it, or leaves it in its call. */
  lemma {:induction false} ClaimEnds(s: State, c: nat, otherwise: Pc)
    requires CanClaim(s, c, otherwise)
    ensures var s' := ClaimStep(s, c, otherwise);
      && s'.pcs == s.pcs[c := s'.pcs[c]]
      && (Unanswered(s'.pcs[c]) == 1 ==> s'.log == s.log)
      && (Unanswered(s'.pcs[c]) == 0 ==> |s'.log| == |s.log| + 1 && s'.log == s.log + [s'.log[|s.log|]]
                                         && s'.log[|s.log|].thread == c)
  {
  }

  lemma {:induction false} ClaimAnswers(s: State, c: nat, otherwise: Pc, t: nat)
    requires CanClaim(s, c, otherwise) && t < |s.pcs|
    ensures var s' := ClaimStep(s, c, otherwise);
      && |s'.pcs| == |s.pcs|
      && Answers(s'.log, t) + Unanswered(s'.pcs[t])
      == Answers(s.log, t) + (if c == t then 1 else Unanswered(s.pcs[t]))
  {
    ClaimEnds(s, c, otherwise);
    var s' := ClaimStep(s, c, otherwise);
    if Unanswered(s'.pcs[c]) == 0 {
      AnswersSnoc(s.log, s'.log[|s.log|], t);
    }
  }

  lemma {:induction false} StepAnswers(s: State, step: Step, t: nat)
    requires Enabled(s, step) && t < |s.pcs|
    ensures |Apply(s, step).pcs| == |s.pcs|
    ensures Answers(Apply(s, step).log, t) + Unanswered(Apply(s, step).pcs[t])
         == Answers(s.log, t) + Unanswered(s.pcs[t]) + (if step == Call(t) then 1 else 0)
  {
    if step.Call? {
      ClaimAnswers(s, step.t, Retrying, t);
    } else if step.Claim? {
      ClaimAnswers(s, step.t, Asleep, t);
    } else if step.GiveBack? || step.GiveUp? {
      AnswersSnoc(s.log, Apply(s, step).log[|s.log|], t);
    }
  }

  lemma {:induction false} RunAnswers(s: State, steps: seq<Step>, last: State, t: nat)
    requires IsRun(s, steps, last) && t < |s.pcs|
    ensures |last.pcs| == |s.pcs|
    ensures Answers(last.log, t) + Unanswered(last.pcs[t])
         == Answers(s.log, t) + Unanswered(s.pcs[t]) + Calls(steps, t)
    decreases |steps|
  {
    if steps != [] {
      StepAnswers(s, steps[0], t);
      RunAnswers(Apply(s, steps[0]), steps[1..], last, t);
    }
  }

  /**
  Every call has its own answer: at any point of any run each thread was given exactly one
  answer, a message, the end or an error, for each call it made, except for the call it is
  still inside; so nothing is returned to a thread that did not call.
  */
  lemma {:induction false} EveryCallHasItsAnswer(start: State, steps: seq<Step>, last: State, t: nat)
    requires IsStart(start) && IsRun(start, steps, last) && t < |start.pcs|
    ensures |last.pcs| == |start.pcs|
    ensures Calls(steps, t) == Answers(last.log, t) + (if last.pcs[t].Idle? || last.pcs[t].Notifying? then 0 else 1)
  {
    RunAnswers(start, steps, last, t);
  }

  /** If the last call reported the end, everything was delivered or some call had raised. */
  lemma {:induction false} EndMeansAllDelivered(s: State)
    requires Inv(s) && s.log != [] && s.log[|s.log| - 1].Stop?
    ensures Delivered(s.log[..|s.log| - 1]) == s.script
         || exists e :: 0 <= e < |s.log| - 1 && s.log[e].TaskError?
  {
    assert s.cell.rx.Closed?;
    if s.dropped {
      var e :| 0 <= e < |s.log| && s.log[e].TaskError?;
      assert e < |s.log| - 1;
    } else {
      NoBatches(s.pcs);
      LineIs(Delivered(s.log), [], [], [], []);
      assert s.script[..s.sent] == s.script;
    }
  }

  /** The log only grows, by one event a step at most. */
  lemma {:induction false} StepLogs(s: State, step: Step)
    requires Enabled(s, step)
    ensures s.log <= Apply(s, step).log && |Apply(s, step).log| <= |s.log| + 1
  {
  }

  lemma {:induction false} RunLogs(s: State, steps: seq<Step>, last: State)
    requires IsRun(s, steps, last)
    ensures s.log <= last.log
    decreases |steps|
  {
    if steps != [] {
      StepLogs(s, steps[0]);
      RunLogs(Apply(s, steps[0]), steps[1..], last);
    }
  }

  /** Every run passes a point with the first `n` of its events. */
  lemma {:induction false} RunPasses(s: State, steps: seq<Step>, last: State, n: nat) returns (k: nat, mid: State)
    requires IsRun(s, steps, last) && |s.log| <= n <= |last.log|
    ensures k <= |steps| && IsRun(s, steps[..k], mid) && mid.log == last.log[..n]
    decreases |steps|
  {
    if |s.log| == n {
      RunLogs(s, steps, last);
      k, mid := 0, s;
    } else {
      StepLogs(s, steps[0]);
      k, mid := RunPasses(Apply(s, steps[0]), steps[1..], last, n);
      k := k + 1;
      assert steps[..k][1..] == steps[1..][..k - 1];
    }
  }

  /**
  A call that reports the end of the stream had everything before it: either some call had
  raised by then for a failed receive task, or by then every message of the driver had been
  returned, whole and in order, to some call.
  */
  lemma {:induction false} EndOfStreamMeansAllDelivered(start: State, steps: seq<Step>, last: State, k: nat)
    requires IsStart(start) && IsRun(start, steps, last)
    requires k < |last.log| && last.log[k].Stop?
    ensures Delivered(last.log[..k]) == start.script
         || exists e :: 0 <= e < k && last.log[e].TaskError?
  {
    StartInv(start);
    var n, mid := RunPasses(start, steps, last, k + 1);
    RunKeepsInv(start, steps[..n], mid);
    RunKeepsScript(start, steps[..n], mid);
    EndMeansAllDelivered(mid);
    assert mid.log[..k] == last.log[..k];
  }

  /**
  Turn-taking: at most one thread holds the receiver, it is checked out exactly then and
  the buffer is empty, and at most twice the channel's capacity of messages is in memory.
  */
  lemma {:induction false} TurnsAreExclusiveAndBounded(start: State, steps: seq<Step>, last: State)
    requires IsStart(start) && IsRun(start, steps, last)
    ensures TurnTaking(last)
    ensures last.cell.rx.CheckedOut? ==> last.cell.buf == []
    ensures |last.cell.buf| + |Batches(last.pcs)| + |last.chan| <= 2 * CURSOR_CAPACITY
  {
    StartInv(start);
    RunKeepsInv(start, steps, last);
    if t :| 0 <= t < |last.pcs| && Holds(last.pcs[t]) {
      OneBatch(last.pcs, t);
    } else {
      NoBatches(last.pcs);
    }
  }

  // ---------------------------------------------------------------------------
  // Nothing gets stuck
  // ---------------------------------------------------------------------------

  predicate Quiet(s: State) { forall i :: 0 <= i < |s.pcs| ==> s.pcs[i].Idle? }

  /** Steps that neither start a new call nor wake a thread for nothing. */
  predicate IsProgress(step: Step) { !step.Call? && !step.Wake? }

  /** While any call is under way, some thread or the driver can take a step towards ending it. */
  lemma {:induction false} SomethingCanMove(s: State) returns (step: Step)
    requires Inv(s) && !Quiet(s)
    ensures Enabled(s, step) && IsProgress(step)
  {
    var t :| 0 <= t < |s.pcs| && !s.pcs[t].Idle?;
    if s.pcs[t].Asleep? {
      if j :| 0 <= j < |s.pcs| && s.pcs[j].Notifying? {
        return Notify(j);
      }
      t :| 0 <= t < |s.pcs| && Holds(s.pcs[t]);
    }
    match s.pcs[t] {
      case Retrying => return Claim(t);
      case Received(_) => return GiveBack(t);
      case Broken => return GiveUp(t);
      case Notifying => return Notify(t);
      case Receiving(batch) =>
        if |batch| == CURSOR_CAPACITY || (batch != [] && s.chan == []) { return Break(t); }
        if s.chan != [] { return Take(t); }
        if s.ended { return Eof(t); }
        if s.sent < |s.script| && !s.dropped { return Send; }
        return Finish;
    }
  }

  /** How far a thread is from the end of its call. */
  function Stage(pc: Pc): nat {
    match pc
    case Idle => 0
    case Notifying => 1
    case Broken => 2
    case Received(_) => 3
    case Receiving(_) => 4
    case Retrying => 5
    case Asleep => 5
  }

  function Eager(pc: Pc): nat { if pc.Retrying? then 1 else 0 }

  /** `a` times `m`, by repeated addition. */
  function Times(a: nat, m: nat): nat {
    if a == 0 then 0 else m + Times(a - 1, m)
  }

  lemma {:induction false} TimesLess(after: nat, before: nat, m: nat)
    requires after < before
    ensures Times(after, m) + m <= Times(before, m)
  {
    if after + 1 < before {
      TimesLess(after, before - 1, m);
    }
  }

  /** What the threads have left to do before every call under way has returned. */
  function ThreadWork(pcs: seq<Pc>): nat {
    Times(SumBy(Stage, pcs), |pcs| + 1) + SumBy(Eager, pcs)
  }

  function Work(s: State): nat
    requires s.sent <= |s.script|
  {
    ThreadWork(s.pcs) + 2 * (|s.script| - s.sent) + |s.chan| + (if s.ended then 0 else 1)
  }

  lemma {:induction false} WokenSums(pcs: seq<Pc>)
    ensures SumBy(Stage, Woken(pcs)) == SumBy(Stage, pcs)
    ensures SumBy(Eager, Woken(pcs)) <= |pcs|
  {
    SumByBound(Eager, Woken(pcs), 1);
    if pcs != [] {
      assert Woken(pcs)[1..] == Woken(pcs[1..]);
      WokenSums(pcs[1..]);
    }
  }

  /** A thread that moves a stage on, or falls asleep, leaves less to do. */
  lemma {:induction false} ThreadMoves(pcs: seq<Pc>, t: nat, pc: Pc)
    requires t < |pcs|
    ensures Stage(pc) < Stage(pcs[t]) ==> ThreadWork(pcs[t := pc]) < ThreadWork(pcs)
    ensures pcs[t].Retrying? && pc.Asleep? ==> ThreadWork(pcs[t := pc]) == ThreadWork(pcs) - 1
    ensures pcs[t].Asleep? && pc.Retrying? ==> ThreadWork(pcs[t := pc]) == ThreadWork(pcs) + 1
    ensures pcs[t].Receiving? && pc.Receiving? ==> ThreadWork(pcs[t := pc]) == ThreadWork(pcs)
  {
    SumByUpdate(Stage, pcs, t, pc);
    SumByUpdate(Eager, pcs, t, pc);
    if Stage(pc) < Stage(pcs[t]) {
      TimesLess(SumBy(Stage, pcs[t := pc]), SumBy(Stage, pcs), |pcs| + 1);
    }
  }

  /** Waking every sleeper costs less than the notifying thread's own step gains. */
  lemma {:induction false} NotifyMoves(pcs: seq<Pc>, t: nat)
    requires t < |pcs| && pcs[t].Notifying?
    ensures ThreadWork(Woken(pcs[t := Idle])) < ThreadWork(pcs)
  {
    SumByUpdate(Stage, pcs, t, Idle);
    TimesLess(SumBy(Stage, pcs[t := Idle]), SumBy(Stage, pcs), |pcs| + 1);
    WokenSums(pcs[t := Idle]);
  }

  /** A claim by a waiting thread: it is served, receives, or goes to sleep. */
  lemma {:induction false} ClaimDoesWork(s: State, t: nat)
    requires s.sent <= |s.script| && Enabled(s, Claim(t))
    ensures Work(Apply(s, Claim(t))) < Work(s)
  {
    var pc := Apply(s, Claim(t)).pcs[t];
    assert Apply(s, Claim(t)).pcs == s.pcs[t := pc];
    ThreadMoves(s.pcs, t, pc);
  }

  /** Every step but a new call leaves less to do; a spurious wakeup adds at most one. */
  lemma {:induction false} StepDoesWork(s: State, step: Step)
    requires s.sent <= |s.script| && Enabled(s, step) && !step.Call?
    ensures Apply(s, step).sent <= |Apply(s, step).script|
    ensures Work(Apply(s, step)) < Work(s) + (if step.Wake? then 2 else 0)
  {
    if step.Claim? {
      ClaimDoesWork(s, step.t);
    } else if step.Notify? {
      NotifyMoves(s.pcs, step.t);
    } else if !step.Send? && !step.Finish? {
      ThreadMoves(s.pcs, step.t, Apply(s, step).pcs[step.t]);
    }
  }

  function Wakes(steps: seq<Step>): nat {
    if steps == [] then 0 else (if steps[0].Wake? then 1 else 0) + Wakes(steps[1..])
  }

  /** A run without new calls is bounded, and it can stop only when every call has returned. */
  lemma {:induction false} CallsReturnFrom(s: State, steps: seq<Step>, last: State)
    requires Inv(s) && IsRun(s, steps, last)
    requires forall k :: 0 <= k < |steps| ==> !steps[k].Call?
    ensures |steps| <= Work(s) + 2 * Wakes(steps)
    ensures (forall step :: IsProgress(step) ==> !Enabled(last, step)) ==> Quiet(last)
    decreases |steps|
  {
    if steps == [] {
      if !Quiet(last) {
        var step := SomethingCanMove(last);
      }
    } else {
      StepKeepsInv(s, steps[0]);
      StepDoesWork(s, steps[0]);
      assert forall k :: 0 <= k < |steps[1..]| ==> steps[1..][k] == steps[k + 1];
      CallsReturnFrom(Apply(s, steps[0]), steps[1..], last);
    }
  }

  /**
  No deadlock and no livelock, with no fairness assumed: from any point a cursor can reach,
  once no new call starts, every run is at most `Work` steps long (two more for each
  spurious wakeup), and one that cannot be continued has returned every call.
  */
  lemma {:induction false} EveryCallReturns(
    start: State, before: seq<Step>, s: State, steps: seq<Step>, last: State)
    requires IsStart(start) && IsRun(start, before, s) && IsRun(s, steps, last)
    requires forall k :: 0 <= k < |steps| ==> !steps[k].Call?
    ensures s.sent <= |s.script| && |steps| <= Work(s) + 2 * Wakes(steps)
    ensures (forall step :: IsProgress(step) ==> !Enabled(last, step)) ==> Quiet(last)
  {
    StartInv(start);
    RunKeepsInv(start, before, s);
    CallsReturnFrom(s, steps, last);
  }

  /** From any reachable point, sleeping threads have a holder or a notify still to come. */
  lemma {:induction false} NoLostWakeup(start: State, steps: seq<Step>, last: State, t: nat)
    requires IsStart(start) && IsRun(start, steps, last)
    requires t < |last.pcs| && last.pcs[t].Asleep?
    ensures exists j :: 0 <= j < |last.pcs| && (Holds(last.pcs[j]) || last.pcs[j].Notifying?)
  {
    StartInv(start);
    RunKeepsInv(start, steps, last);
  }
}
