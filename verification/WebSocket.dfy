/**
One WebSocket connection: the pump that moves messages between the socket and the Python
handler's two queues, the byte budget each queue has, and the handler's typed receives.
The pump is one task, so while a client message waits for room nothing else moves.
*/
module WebSocket {
  import opened Common

  const U32: nat := 0x1_0000_0000
  const MESSAGE_OVERHEAD_BYTES: nat := 64
  const MAX_MESSAGE_BYTES_LIMIT: nat := U32 - 1 - MESSAGE_OVERHEAD_BYTES

  datatype WsMsg = Text(payload: seq<byte>) | Binary(payload: seq<byte>) {
    function Len(): nat { |payload| }
  }

  /** Permits a message of `len` bytes takes, on the 32 bits of the source. */
  function Cost(len: nat): nat { (len % U32 + MESSAGE_OVERHEAD_BYTES) % U32 }

  function CostOf(msg: WsMsg): nat { Cost(msg.Len()) }

  /** For a message within the limits, no bit of its cost is lost. */
  lemma CostIs(len: nat, max: nat)
    requires len <= max <= MAX_MESSAGE_BYTES_LIMIT
    ensures Cost(len) == len + MESSAGE_OVERHEAD_BYTES < U32
  {
  }

  // ---------------------------------------------------------------------------
  // The handler's receives
  // ---------------------------------------------------------------------------

  /** `recv_message`, `recv` and `recv_bytes`. */
  datatype Want = AnyKind | TextOnly | BinaryOnly

  predicate Accepts(want: Want, msg: WsMsg) {
    want.AnyKind? || (want.TextOnly? && msg.Text?) || (want.BinaryOnly? && msg.Binary?)
  }

  datatype Received = Message(msg: WsMsg) | KindMismatch(got: WsMsg) | PeerClosed

  /** Messages still to be received, the held one first. */
  function Remaining(held: Option<WsMsg>, queue: seq<WsMsg>): seq<WsMsg> {
    (if held.Some? then [held.value] else []) + queue
  }

  /** The handler's inbox: the queue's receiving end and the message a typed receive refused. */
  class Inbox {
    var queue: seq<WsMsg>
    var held: Option<WsMsg>

    constructor (arrivals: seq<WsMsg>)
      ensures queue == arrivals && held == None
    {
      queue, held := arrivals, None;
    }

    /**
    The next message, if it is of the kind asked for; otherwise it stays first. An empty
    queue here is one whose sender is gone: the source waits for anything else.
    */
    method NextAs(want: Want) returns (r: Received)
      modifies this
      ensures var before := old(Remaining(held, queue));
        && (r.PeerClosed? <==> before == [])
        && (r.Message? <==> before != [] && (want.TextOnly? ==> before[0].Text?)
                            && (want.BinaryOnly? ==> before[0].Binary?))
        && (r.Message? ==> before == [r.msg] + Remaining(held, queue))
        && (r.KindMismatch? ==> before[0] == r.got && Remaining(held, queue) == before)
      ensures (r, held, queue) == Next(want, old(held), old(queue))
    {
      var msg;
      if held.Some? {
        msg := held.value;
        held := None;
      } else if queue != [] {
        msg := queue[0];
        queue := queue[1..];
      } else {
        return PeerClosed;
      }
      if Accepts(want, msg) {
        r := Message(msg);
      } else {
        held := Some(msg);
        r := KindMismatch(msg);
      }
    }
  }

  /** The same receive as a function of the inbox: the answer, and the held message and queue after it. */
  function Next(want: Want, held: Option<WsMsg>, queue: seq<WsMsg>): (Received, Option<WsMsg>, seq<WsMsg>) {
    if held.None? && queue == [] then (PeerClosed, None, queue)
    else
      var (msg, rest) := if held.Some? then (held.value, queue) else (queue[0], queue[1..]);
      if Accepts(want, msg) then (Message(msg), None, rest) else (KindMismatch(msg), Some(msg), rest)
  }

  /**
  A receive takes the first remaining message exactly if there is one and it is of the kind
  asked for (text, binary, or either); one of the wrong kind leaves them all.
  */
  lemma {:induction false} NextTakesFirst(want: Want, held: Option<WsMsg>, queue: seq<WsMsg>)
    ensures var (r, held', queue') := Next(want, held, queue);
      var before, after := Remaining(held, queue), Remaining(held', queue');
      && (r.PeerClosed? <==> before == [])
      && (r.Message? <==> before != [] && (want.TextOnly? ==> before[0].Text?)
                          && (want.BinaryOnly? ==> before[0].Binary?))
      && (r.Message? ==> before == [r.msg] + after)
      && (r.KindMismatch? ==> before == after && before[0] == r.got)
      && (r.PeerClosed? ==> after == [])
  {
  }

  // ---------------------------------------------------------------------------
  // The connection
  // ---------------------------------------------------------------------------

  datatype Pump =
    | Selecting
    | Forwarding(msg: WsMsg)    // a client message, waiting for room in the inbox
    | Sending(msg: WsMsg)       // a handler message on its way to the wire, still holding its permits
    | Stopped(ranDry: bool)     // `ranDry` if it stopped because the handler's closed outbox was empty

  datatype State = State(
    max: nat,
    pump: Pump,
    inFree: nat, inQueue: seq<WsMsg>, held: Option<WsMsg>,
    outFree: nat, outQueue: seq<WsMsg>,
    arrived: seq<WsMsg>, returned: seq<WsMsg>,     // from the client; to the handler
    pushed: seq<WsMsg>, sent: seq<WsMsg>,          // from the handler; to the client
    closes: nat,                                   // receives answered "closed"
    outboxOpen: bool,                              // until the handler calls close()
    discarded: bool,                               // the pump's end of the out queue was dropped
    gone: bool)                                    // the handler is over, and its ends dropped

  datatype Step =
    | Arrive(msg: WsMsg)
    | Admit
    | Receive(want: Want)
    | Push(msg: WsMsg)
    | TakeOut
    | Wire
    | WireFail
    | Close         // the handler drops its outbox
    | Stop          // close frame, end of stream, read error or over-size message
    | RunDry        // the outbox is closed and all of its queue has been taken
    | Discard       // the connection has closed: what the handler sent and the pump did not take is dropped
    | HandlerExit

  predicate Enabled(s: State, step: Step) {
    match step
    case Arrive(msg) => s.pump.Selecting? && msg.Len() <= s.max
    case Admit => s.pump.Forwarding? && CostOf(s.pump.msg) <= s.inFree
    case Receive(_) => !s.gone && (s.held.Some? || s.inQueue != [] || s.pump.Stopped?)
    case Push(_) => !s.gone
    case TakeOut => s.pump.Selecting? && s.outQueue != []
    case Wire => s.pump.Sending?
    case WireFail => s.pump.Sending?
    case Close => !s.gone
    case Stop => s.pump.Selecting?
    case RunDry => s.pump.Selecting? && !s.outboxOpen && s.outQueue == []
    case Discard => s.pump.Stopped? && !s.discarded
    case HandlerExit => !s.gone
  }

  function Apply(s: State, step: Step): State
    requires Enabled(s, step)
  {
    match step
    case Arrive(msg) => s.(pump := Forwarding(msg), arrived := s.arrived + [msg])
    case Admit =>
      if s.gone then s.(pump := Stopped(false))      // the permits go back with the message
      else s.(pump := Selecting, inFree := s.inFree - CostOf(s.pump.msg), inQueue := s.inQueue + [s.pump.msg])
    case Receive(want) =>
      var (r, held, queue) := Next(want, s.held, s.inQueue);
      // A message that leaves the queue gives its permits back, held or not.
      var free := if |queue| < |s.inQueue| then s.inFree + CostOf(s.inQueue[0]) else s.inFree;
      s.(held := held, inQueue := queue, inFree := free,
         returned := if r.Message? then s.returned + [r.msg] else s.returned,
         closes := if r.PeerClosed? then s.closes + 1 else s.closes)
    case Push(msg) =>
      // Closed, too big, no room, or nobody to receive it: the call raises and queues nothing.
      if !s.outboxOpen || msg.Len() > s.max || CostOf(msg) > s.outFree || s.discarded then s
      else s.(outFree := s.outFree - CostOf(msg), outQueue := s.outQueue + [msg], pushed := s.pushed + [msg])
    case TakeOut => s.(pump := Sending(s.outQueue[0]), outQueue := s.outQueue[1..])
    case Wire => s.(pump := Selecting, outFree := s.outFree + CostOf(s.pump.msg), sent := s.sent + [s.pump.msg])
    case WireFail => s.(pump := Stopped(false), outFree := s.outFree + CostOf(s.pump.msg))
    case Close => s.(outboxOpen := false)
    case Stop => s.(pump := Stopped(false))
    case RunDry => s.(pump := Stopped(true))
    case Discard => s.(discarded := true, outQueue := [], outFree := s.outFree + SumBy(CostOf, s.outQueue))
    case HandlerExit =>
      // The queued messages and their permits go with the receiver.
      s.(gone := true, outboxOpen := false, held := None, inQueue := [], inFree := s.inFree + SumBy(CostOf, s.inQueue))
  }

  ghost predicate IsRun(s: State, steps: seq<Step>, last: State)
    decreases |steps|
  {
    if steps == [] then s == last
    else Enabled(s, steps[0]) && IsRun(Apply(s, steps[0]), steps[1..], last)
  }

  predicate IsStart(s: State) {
    && 1 <= s.max <= MAX_MESSAGE_BYTES_LIMIT && s.pump.Selecting?
    && s.inFree == s.outFree == s.max + MESSAGE_OVERHEAD_BYTES
    && s.inQueue == s.outQueue == s.arrived == s.returned == s.pushed == s.sent == []
    && s.held.None? && s.closes == 0 && s.outboxOpen && !s.discarded && !s.gone
  }

  function Budget(s: State): nat { s.max + MESSAGE_OVERHEAD_BYTES }

  function SendingPart(s: State): seq<WsMsg> { if s.pump.Sending? then [s.pump.msg] else [] }

  function WaitingPart(s: State): seq<WsMsg> { if s.pump.Forwarding? then [s.pump.msg] else [] }

  ghost predicate AllFit(msgs: seq<WsMsg>, max: nat) {
    forall i :: 0 <= i < |msgs| ==> msgs[i].Len() <= max
  }

  /** Free permits and permits held by messages make up the budget, each way. */
  ghost predicate Budgeted(s: State) {
    && s.max <= MAX_MESSAGE_BYTES_LIMIT
    && s.inFree + SumBy(CostOf, s.inQueue) == Budget(s)
    && s.outFree + SumBy(CostOf, s.outQueue) + SumBy(CostOf, SendingPart(s)) == Budget(s)
  }

  ghost predicate Sized(s: State) {
    AllFit(s.inQueue, s.max) && AllFit(s.outQueue, s.max) && AllFit(SendingPart(s), s.max)
    && AllFit(WaitingPart(s), s.max) && (s.held.Some? ==> s.held.value.Len() <= s.max)
  }

  /** Nothing is lost, repeated or reordered, each way. */
  ghost predicate Ordered(s: State) {
    && (!s.gone ==> s.arrived == s.returned + Remaining(s.held, s.inQueue) + WaitingPart(s))
    && (!s.pump.Stopped? ==> s.pushed == s.sent + SendingPart(s) + s.outQueue)
    && s.returned <= s.arrived && s.sent <= s.pushed
    && (s.closes > 0 ==> s.pump.Stopped? && s.returned == s.arrived)
    && (s.discarded ==> s.pump.Stopped?)
    && (s.pump == Stopped(true) ==> !s.outboxOpen && s.sent == s.pushed)
  }

  lemma {:induction false} SnocCost(msgs: seq<WsMsg>, msg: WsMsg)
    ensures SumBy(CostOf, msgs + [msg]) == SumBy(CostOf, msgs) + CostOf(msg)
    ensures SumBy(CostOf, [msg]) == CostOf(msg)
  {
    SumByConcat(CostOf, msgs, [msg]);
    assert [msg][1..] == [];
  }

  lemma {:induction false} InboundBudgeted(s: State, step: Step)
    requires Budgeted(s) && Enabled(s, step) && (step.Arrive? || step.Admit? || step.Receive? || step.HandlerExit?)
    ensures Budgeted(Apply(s, step))
  {
    if step.Admit? {
      SnocCost(s.inQueue, s.pump.msg);
    }
  }

  lemma {:induction false} OutboundBudgeted(s: State, step: Step)
    requires Budgeted(s) && Enabled(s, step)
    requires step.Push? || step.TakeOut? || step.Wire? || step.WireFail? || step.Discard?
    ensures Budgeted(Apply(s, step))
  {
    if step.Push? {
      SnocCost(s.outQueue, step.msg);
    } else if step.TakeOut? {
      SnocCost([], s.outQueue[0]);
    } else if !step.Discard? {
      SnocCost([], s.pump.msg);
    }
  }

  lemma {:induction false} BudgetedKept(s: State, step: Step)
    requires Budgeted(s) && Enabled(s, step)
    ensures Budgeted(Apply(s, step))
  {
    if step.Arrive? || step.Admit? || step.Receive? || step.HandlerExit? {
      InboundBudgeted(s, step);
    } else if step.Push? || step.TakeOut? || step.Wire? || step.WireFail? || step.Discard? {
      OutboundBudgeted(s, step);
    }
  }

  /** The steps that move messages in or to the handler. */
  lemma {:induction false} InboundSized(s: State, step: Step)
    requires Sized(s) && Enabled(s, step) && (step.Arrive? || step.Admit? || step.Receive?)
    ensures Sized(Apply(s, step))
  {
    if step.Admit? {
      assert WaitingPart(s)[0].Len() <= s.max;
      assert AllFit(s.inQueue + [s.pump.msg], s.max);
    } else if step.Receive? && s.inQueue != [] {
      assert s.inQueue[0].Len() <= s.max;
      TailFits(s.inQueue, s.max);
    }
  }

  /** The steps that move messages out. */
  lemma {:induction false} OutboundSized(s: State, step: Step)
    requires Sized(s) && Enabled(s, step) && (step.Push? || step.TakeOut? || step.Wire?)
    ensures Sized(Apply(s, step))
  {
    if step.TakeOut? {
      assert s.outQueue[0].Len() <= s.max;
      TailFits(s.outQueue, s.max);
    } else if step.Push? && step.msg.Len() <= s.max {
      assert AllFit(s.outQueue + [step.msg], s.max);
    }
  }

  lemma {:induction false} SizedKept(s: State, step: Step)
    requires Sized(s) && Enabled(s, step)
    ensures Sized(Apply(s, step))
  {
    if step.Arrive? || step.Admit? || step.Receive? {
      InboundSized(s, step);
    } else if step.Push? || step.TakeOut? || step.Wire? {
      OutboundSized(s, step);
    }
  }

  lemma {:induction false} TailFits(msgs: seq<WsMsg>, max: nat)
    requires AllFit(msgs, max) && msgs != []
    ensures AllFit(msgs[1..], max)
  {
    assert forall i :: 0 <= i < |msgs[1..]| ==> msgs[1..][i] == msgs[i + 1];
  }

  lemma {:induction false} HandOver(given: seq<WsMsg>, msg: WsMsg, after: seq<WsMsg>, waiting: seq<WsMsg>)
    ensures given + ([msg] + after) + waiting == given + [msg] + after + waiting
    ensures given + [msg] <= given + [msg] + after + waiting
  {
  }

  lemma {:induction false} ReceiveOrdered(s: State, want: Want)
    requires Ordered(s) && Enabled(s, Receive(want))
    ensures Ordered(Apply(s, Receive(want)))
  {
    var (r, held, queue) := Next(want, s.held, s.inQueue);
    NextTakesFirst(want, s.held, s.inQueue);
    if r.Message? {
      HandOver(s.returned, r.msg, Remaining(held, queue), WaitingPart(s));
    } else if r.PeerClosed? {
      assert s.returned + [] + [] == s.returned;
    }
  }

  /** What comes from the client, as the pump moves it. */
  lemma {:induction false} InboundOrdered(s: State, step: Step)
    requires Ordered(s) && Enabled(s, step) && (step.Arrive? || step.Admit?)
    ensures Ordered(Apply(s, step))
  {
    var s' := Apply(s, step);
    var given := s.returned + Remaining(s.held, s.inQueue);
    if step.Arrive? {
      assert given + [step.msg] == given + [] + [step.msg];
    } else if !s.gone {
      assert Remaining(s'.held, s'.inQueue) == Remaining(s.held, s.inQueue) + [s.pump.msg];
      assert s.returned + Remaining(s'.held, s'.inQueue) + [] == given + [s.pump.msg];
    }
  }

  /** What goes to the client, as the handler and the pump move it. */
  lemma {:induction false} OutboundOrdered(s: State, step: Step)
    requires Ordered(s) && Enabled(s, step) && (step.Push? || step.TakeOut? || step.Wire?)
    ensures Ordered(Apply(s, step))
  {
    if step.Push? {
      var before := s.sent + SendingPart(s);
      assert before + (s.outQueue + [step.msg]) == before + s.outQueue + [step.msg];
    } else if step.TakeOut? {
      assert s.sent + [s.outQueue[0]] + s.outQueue[1..] == s.sent + [] + s.outQueue;
    } else {
      assert s.sent + [s.pump.msg] + [] + s.outQueue == s.sent + [s.pump.msg] + s.outQueue;
    }
  }

  lemma {:induction false} OrderedKept(s: State, step: Step)
    requires Ordered(s) && Enabled(s, step)
    ensures Ordered(Apply(s, step))
  {
    if step.Receive? {
      ReceiveOrdered(s, step.want);
    } else if step.Arrive? || step.Admit? {
      InboundOrdered(s, step);
    } else if step.Push? || step.TakeOut? || step.Wire? {
      OutboundOrdered(s, step);
    }
  }

  ghost predicate Inv(s: State) { Budgeted(s) && Sized(s) && Ordered(s) }

  lemma {:induction false} StepKeepsInv(s: State, step: Step)
    requires Inv(s) && Enabled(s, step)
    ensures Inv(Apply(s, step)) && Apply(s, step).max == s.max
  {
    BudgetedKept(s, step);
    SizedKept(s, step);
    OrderedKept(s, step);
  }

  lemma {:induction false} RunKeepsInv(s: State, steps: seq<Step>, last: State)
    requires Inv(s) && IsRun(s, steps, last)
    ensures Inv(last) && last.max == s.max
    decreases |steps|
  {
    if steps != [] {
      StepKeepsInv(s, steps[0]);
      RunKeepsInv(Apply(s, steps[0]), steps[1..], last);
    }
  }

  function LenOf(msg: WsMsg): nat { msg.Len() }

  /** A queue's permits are its payload bytes and 64 more a message. */
  lemma {:induction false} CostIsPayload(msgs: seq<WsMsg>, max: nat)
    requires max <= MAX_MESSAGE_BYTES_LIMIT && AllFit(msgs, max)
    ensures SumBy(CostOf, msgs) == SumBy(LenOf, msgs) + MESSAGE_OVERHEAD_BYTES * |msgs|
  {
    if msgs != [] {
      assert msgs[0].Len() <= max;
      CostIs(msgs[0].Len(), max);
      assert forall i :: 0 <= i < |msgs[1..]| ==> msgs[1..][i] == msgs[i + 1];
      CostIsPayload(msgs[1..], max);
    }
  }

  /** What the out queue and the message being sent take. */
  lemma {:induction false} OutPermits(s: State)
    requires Budgeted(s) && Sized(s)
    ensures var out := SendingPart(s) + s.outQueue;
      s.outFree + SumBy(LenOf, out) + MESSAGE_OVERHEAD_BYTES * |out| == Budget(s)
  {
    var out := SendingPart(s) + s.outQueue;
    assert AllFit(out, s.max);
    CostIsPayload(out, s.max);
    SumByConcat(CostOf, SendingPart(s), s.outQueue);
  }

  /**
  In every run, for each direction: free permits and the permits of queued messages are
  constant, so payload bytes and 64 more a message stay within one maximum-size message and
  its overhead; and inbound memory adds at most one waiting and one held message.
  */
  lemma {:induction false} MemoryIsBounded(start: State, steps: seq<Step>, last: State)
    requires IsStart(start) && IsRun(start, steps, last)
    ensures last.inFree + SumBy(CostOf, last.inQueue) == start.max + MESSAGE_OVERHEAD_BYTES
    ensures last.outFree + SumBy(CostOf, last.outQueue) + SumBy(CostOf, SendingPart(last))
         == start.max + MESSAGE_OVERHEAD_BYTES
    ensures SumBy(LenOf, last.inQueue) + MESSAGE_OVERHEAD_BYTES * |last.inQueue| <= start.max + MESSAGE_OVERHEAD_BYTES
    ensures var out := SendingPart(last) + last.outQueue;
      SumBy(LenOf, out) + MESSAGE_OVERHEAD_BYTES * |out| <= start.max + MESSAGE_OVERHEAD_BYTES
    ensures var waiting := Remaining(last.held, last.inQueue) + WaitingPart(last);
      SumBy(LenOf, waiting) <= 3 * start.max + MESSAGE_OVERHEAD_BYTES
  {
    RunKeepsInv(start, steps, last);
    CostIsPayload(last.inQueue, last.max);
    OutPermits(last);
    InboundBytes(last);
  }

  lemma {:induction false} InboundBytes(s: State)
    requires Sized(s)
    ensures SumBy(LenOf, Remaining(s.held, s.inQueue) + WaitingPart(s)) <= 2 * s.max + SumBy(LenOf, s.inQueue)
  {
    var h := if s.held.Some? then [s.held.value] else [];
    var w := WaitingPart(s);
    SumByConcat(LenOf, h + s.inQueue, w);
    SumByConcat(LenOf, h, s.inQueue);
    assert forall m :: SumBy(LenOf, [m]) == LenOf(m) by {
      forall m ensures SumBy(LenOf, [m]) == LenOf(m) {
        assert [m][1..] == [];
      }
    }
    if s.pump.Forwarding? {
      assert w[0].Len() <= s.max;
    }
  }

  /**
  A message of any allowed size always fits once its queue is empty: a waiting client
  message is then admitted, and a handler's send is then queued.
  */
  lemma {:induction false} EmptyQueueHasRoom(start: State, steps: seq<Step>, last: State, msg: WsMsg)
    requires IsStart(start) && IsRun(start, steps, last) && msg.Len() <= start.max
    ensures last.pump.Forwarding? && last.inQueue == [] ==> Enabled(last, Admit)
    ensures last.outQueue == [] && last.outboxOpen && !last.pump.Sending? && !last.discarded && !last.gone ==>
              Apply(last, Push(msg)).pushed == last.pushed + [msg]
  {
    RunKeepsInv(start, steps, last);
    CostIs(msg.Len(), last.max);
    if last.pump.Forwarding? {
      assert WaitingPart(last)[0].Len() <= last.max;
      CostIs(last.pump.msg.Len(), last.max);
    }
  }

  /**
  In every interleaving of arrivals, closing and receives of any kind: what the handler was
  given is an in-order prefix of what arrived, what remains is the rest, and it is told
  "closed" only after everything was given and the connection had ended. The same order
  holds of what the handler sends.
  */
  lemma {:induction false} MessagesKeepTheirOrder(start: State, steps: seq<Step>, last: State)
    requires IsStart(start) && IsRun(start, steps, last)
    ensures last.returned <= last.arrived
    ensures !last.gone ==> last.arrived == last.returned + Remaining(last.held, last.inQueue) + WaitingPart(last)
    ensures last.closes > 0 ==> last.pump.Stopped? && last.returned == last.arrived
    ensures last.sent <= last.pushed
  {
    RunKeepsInv(start, steps, last);
  }

  /** Every receive among `steps` asks for `want`. */
  ghost predicate OnlyWants(steps: seq<Step>, want: Want) {
    forall i :: 0 <= i < |steps| && steps[i].Receive? ==> steps[i].want == want
  }

  /** What typed receives return is of their type, over any run. */
  lemma {:induction false} TypedReceivesKeepTheirType(s: State, steps: seq<Step>, last: State, want: Want)
    requires IsRun(s, steps, last) && OnlyWants(steps, want)
    ensures s.returned <= last.returned
    ensures want.TextOnly? ==> forall i :: |s.returned| <= i < |last.returned| ==> last.returned[i].Text?
    ensures want.BinaryOnly? ==> forall i :: |s.returned| <= i < |last.returned| ==> last.returned[i].Binary?
    decreases |steps|
  {
    if steps != [] {
      if steps[0].Receive? {
        NextTakesFirst(want, s.held, s.inQueue);
      }
      assert forall i :: 0 <= i < |steps[1..]| ==> steps[1..][i] == steps[i + 1];
      TypedReceivesKeepTheirType(Apply(s, steps[0]), steps[1..], last, want);
    }
  }

  /** `msgs` and one of `len` bytes more, with 64 bytes for each, are at most one maximum-size message and its 64. */
  ghost predicate Fits(msgs: seq<WsMsg>, len: nat, max: nat) {
    SumBy(LenOf, msgs) + len + 64 * (|msgs| + 1) <= max + 64
  }

  lemma {:induction false} SendFits(s: State, msg: WsMsg)
    requires Inv(s) && Enabled(s, Push(msg))
    ensures Apply(s, Push(msg)).pushed == s.pushed + [msg]
       <==> s.outboxOpen && !s.discarded && Fits(SendingPart(s) + s.outQueue, msg.Len(), s.max)
  {
    OutPermits(s);
    if msg.Len() <= s.max {
      CostIs(msg.Len(), s.max);
    }
  }

  lemma {:induction false} AdmitFits(s: State)
    requires Inv(s) && s.pump.Forwarding?
    ensures Enabled(s, Admit) <==> Fits(s.inQueue, s.pump.msg.Len(), s.max)
  {
    CostIsPayload(s.inQueue, s.max);
    assert WaitingPart(s)[0].Len() <= s.max;
    CostIs(s.pump.msg.Len(), s.max);
  }

  /**
  Room is exact: a handler's send is queued exactly if its outbox and the queue's other end
  are open and the message fits beside what is queued and being sent; a waiting client
  message is admitted exactly if it fits beside what is in the inbox.
  */
  lemma {:induction false} RoomIsExact(start: State, steps: seq<Step>, last: State, msg: WsMsg)
    requires IsStart(start) && IsRun(start, steps, last)
    ensures !last.gone ==>
      (Apply(last, Push(msg)).pushed == last.pushed + [msg]
       <==> last.outboxOpen && !last.discarded && Fits(SendingPart(last) + last.outQueue, msg.Len(), start.max))
    ensures last.pump.Forwarding? ==> (Enabled(last, Admit) <==> Fits(last.inQueue, last.pump.msg.Len(), start.max))
  {
    RunKeepsInv(start, steps, last);
    if !last.gone {
      SendFits(last, msg);
    }
    if last.pump.Forwarding? {
      AdmitFits(last);
    }
  }

  lemma {:induction false} ClosedIffStep(s: State, steps: seq<Step>, last: State)
    requires IsRun(s, steps, last)
    ensures !last.outboxOpen <==> !s.outboxOpen || Close in steps || HandlerExit in steps
    decreases |steps|
  {
    if steps != [] {
      ClosedIffStep(Apply(s, steps[0]), steps[1..], last);
      assert steps == [steps[0]] + steps[1..];
    }
  }

  /**
  What closing guarantees: the outbox is closed exactly once the handler has closed it or is
  over; a pump that stopped because of it has put everything the handler ever queued on the
  wire, in order; and until a pump stops for another reason, nothing queued is lost.
  */
  lemma {:induction false} ClosingSendsEverything(start: State, steps: seq<Step>, last: State)
    requires IsStart(start) && IsRun(start, steps, last)
    ensures !last.outboxOpen <==> Close in steps || HandlerExit in steps
    ensures last.pump == Stopped(true) ==> !last.outboxOpen && last.sent == last.pushed
    ensures !last.pump.Stopped? ==> last.pushed == last.sent + SendingPart(last) + last.outQueue
  {
    RunKeepsInv(start, steps, last);
    ClosedIffStep(start, steps, last);
  }

  /**
  The pump stops for good at a close frame or error, at a closed outbox run dry, at a failed
  write, and at a client message once the handler is over.
  */
  lemma {:induction false} PumpStopsForGood(s: State, steps: seq<Step>, last: State)
    requires IsRun(s, steps, last)
    ensures s.pump.Stopped? || Stop in steps || RunDry in steps || WireFail in steps ==> last.pump.Stopped?
    ensures last.gone && Enabled(last, Admit) ==> Apply(last, Admit).pump.Stopped?
    decreases |steps|
  {
    if steps != [] {
      PumpStopsForGood(Apply(s, steps[0]), steps[1..], last);
      assert steps == [steps[0]] + steps[1..];
    }
  }

  /** Once the pump has stopped a receive never waits, and with nothing left it answers "closed". */
  lemma {:induction false} StoppedPumpIsReported(s: State, want: Want)
    requires s.pump.Stopped? && !s.gone
    ensures Enabled(s, Receive(want))
    ensures Remaining(s.held, s.inQueue) == [] <==> Apply(s, Receive(want)).closes == s.closes + 1
  {
    NextTakesFirst(want, s.held, s.inQueue);
  }
}
