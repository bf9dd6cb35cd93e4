/**
Request bodies, read in two ways within one budget: buffered whole, or fed to the handler
chunk by chunk through a bounded channel. A body is the sequence of what its reader finds
when it asks for the next frame.
*/
module Body {
  import opened Common

  const USIZE_MAX: nat := 0xFFFF_FFFF_FFFF_FFFF
  const CHANNEL_CAPACITY: nat := 8

  type Bytes = seq<byte>

  type usize = n: nat | n <= USIZE_MAX

  datatype BodyEvent =
    | Data(bytes: Bytes)
    | Trailers               // carries no body bytes
    | ReadError(error: int)
    | Deadline               // the budget ran out while waiting for a frame
    | End

  datatype BodyReject = TooLarge | TimedOut | Read(error: int)

  /** How reading ended, `Pending` if the events ran out first. */
  datatype Outcome = Pending | Complete(bytes: Bytes) | Rejected(reject: BodyReject)

  function SaturatingAdd(a: nat, b: nat): (r: nat)
    ensures a <= USIZE_MAX ==> a <= r <= USIZE_MAX
  {
    if a + b > USIZE_MAX then USIZE_MAX else a + b
  }

  // ---------------------------------------------------------------------------
  // Buffered
  // ---------------------------------------------------------------------------

  /** Body bytes as they arrive; a one-frame body is kept as it came. */
  datatype BodyBuf = Empty | One(first: Bytes) | Many(joined: Bytes) {
    function Len(): nat { |Freeze()| }

    function Push(data: Bytes): (r: BodyBuf)
      ensures r.Freeze() == Freeze() + data
    {
      match this
      case Empty => One(data)
      case One(first) => Many(first + data)
      case Many(joined) => Many(joined + data)
    }

    function Freeze(): Bytes {
      match this
      case Empty => []
      case One(first) => first
      case Many(joined) => joined
    }
  }

  /** The outcome of collecting `body` on top of `buf`, and how many events it took. */
  function Buffered(body: seq<BodyEvent>, max: usize, buf: BodyBuf): (Outcome, nat) {
    if body == [] then (Pending, 0)
    else
      match body[0]
      case End => (Complete(buf.Freeze()), 1)
      case ReadError(e) => (Rejected(Read(e)), 1)
      case Deadline => (Rejected(TimedOut), 1)
      case Trailers => var (o, n) := Buffered(body[1..], max, buf); (o, n + 1)
      case Data(data) =>
        if SaturatingAdd(buf.Len(), |data|) > max then (Rejected(TooLarge), 1)
        else var (o, n) := Buffered(body[1..], max, buf.Push(data)); (o, n + 1)
  }

  /** The source's loop. */
  method Collect(body: seq<BodyEvent>, max: usize) returns (outcome: Outcome, used: nat)
    ensures (outcome, used) == Buffered(body, max, Empty)
  {
    var buf := Empty;
    used := 0;
    while used < |body|
      invariant used <= |body|
      invariant Buffered(body, max, Empty)
             == (Buffered(body[used..], max, buf).0, Buffered(body[used..], max, buf).1 + used)
    {
      var event := body[used];
      assert body[used..][1..] == body[used + 1..];
      used := used + 1;
      match event {
        case End => return Complete(buf.Freeze()), used;
        case ReadError(e) => return Rejected(Read(e)), used;
        case Deadline => return Rejected(TimedOut), used;
        case Trailers =>
        case Data(data) =>
          if SaturatingAdd(buf.Len(), |data|) > max {
            return Rejected(TooLarge), used;
          }
          buf := buf.Push(data);
      }
    }
    outcome := Pending;
  }

  /** The body bytes among `events`. */
  function BytesOf(events: seq<BodyEvent>): Bytes {
    if events == [] then []
    else (if events[0].Data? then events[0].bytes else []) + BytesOf(events[1..])
  }

  /** So many bytes are over the limit; the largest limit is none. */
  predicate IsOver(bytes: nat, max: usize) { bytes > max && max < USIZE_MAX }

  /** What the saturating comparison decides. */
  lemma {:induction false} SaturatesOver(a: nat, b: nat, max: usize)
    ensures SaturatingAdd(a, b) > max <==> IsOver(a + b, max)
  {
  }

  /** `event` is an end of the body, as its reader sees it. */
  predicate Ends(event: BodyEvent) { event.End? || event.ReadError? || event.Deadline? }

  /** Stopping at event `k` with `outcome` is what that event calls for, `before` and earlier data counted. */
  ghost predicate CalledFor(body: seq<BodyEvent>, max: usize, before: Bytes, outcome: Outcome, k: nat)
    requires k < |body|
  {
    var bytes := before + BytesOf(body[..k]);
    match body[k]
    case End => outcome == Complete(bytes)
    case ReadError(e) => outcome == Rejected(Read(e))
    case Deadline => outcome == Rejected(TimedOut)
    case Trailers => false
    case Data(data) => outcome == Rejected(TooLarge) && IsOver(|bytes| + |data|, max)
  }

  /** Event `k` is no reason to stop. */
  ghost predicate GoesOn(body: seq<BodyEvent>, max: usize, before: Bytes, k: nat)
    requires k < |body|
  {
    && !Ends(body[k])
    && (body[k].Data? ==> !IsOver(|before + BytesOf(body[..k])| + |body[k].bytes|, max))
  }

  lemma {:induction false} OneEventOn(body: seq<BodyEvent>, before: Bytes, k: nat)
    requires 0 < k < |body|
    ensures before + BytesOf(body[..k])
         == (if body[0].Data? then before + body[0].bytes else before) + BytesOf(body[1..][..k - 1])
    ensures body[1..][k - 1] == body[k]
  {
    assert body[..k][1..] == body[1..][..k - 1];
  }

  /** What holds of event `k - 1` once the first event is taken holds of event `k` before. */
  lemma {:induction false} LaterEvent(body: seq<BodyEvent>, max: usize, before: Bytes, outcome: Outcome, k: nat)
    requires 0 < k < |body|
    ensures var after := if body[0].Data? then before + body[0].bytes else before;
      && GoesOn(body, max, before, k) == GoesOn(body[1..], max, after, k - 1)
      && CalledFor(body, max, before, outcome, k) == CalledFor(body[1..], max, after, outcome, k - 1)
  {
    OneEventOn(body, before, k);
  }

  /** Reading `used` events to `outcome` stops at the first event that calls for it, for that event's reason. */
  ghost predicate StopsRightly(body: seq<BodyEvent>, max: usize, before: Bytes, outcome: Outcome, used: nat) {
    && used <= |body|
    && (outcome.Pending? ==> used == |body|)
    && (!outcome.Pending? ==> used > 0 && CalledFor(body, max, before, outcome, used - 1))
    && (forall k :: 0 <= k < (if outcome.Pending? then used else used - 1) ==> GoesOn(body, max, before, k))
  }

  lemma {:induction false} StopsRightlyLater(body: seq<BodyEvent>, max: usize, before: Bytes, outcome: Outcome, n: nat)
    requires body != [] && GoesOn(body, max, before, 0)
    requires StopsRightly(body[1..], max, if body[0].Data? then before + body[0].bytes else before, outcome, n)
    ensures StopsRightly(body, max, before, outcome, n + 1)
  {
    if !outcome.Pending? {
      LaterEvent(body, max, before, outcome, n);
    }
    forall k | 0 < k < (if outcome.Pending? then n + 1 else n) ensures GoesOn(body, max, before, k) {
      LaterEvent(body, max, before, outcome, k);
    }
  }

  /**
  Collecting stops at the first event that ends the body or takes it over the limit, for
  that reason and not before; a complete body is exactly the bytes that came before its end.
  */
  lemma {:induction false} BufferedMeans(body: seq<BodyEvent>, max: usize, buf: BodyBuf)
    ensures StopsRightly(body, max, buf.Freeze(), Buffered(body, max, buf).0, Buffered(body, max, buf).1)
  {
    if body != [] {
      FirstEvent(body, max, buf);
      if GoesOn(body, max, buf.Freeze(), 0) {
        var next := if body[0].Data? then buf.Push(body[0].bytes) else buf;
        BufferedMeans(body[1..], max, next);
        StopsRightlyLater(body, max, buf.Freeze(), Buffered(body[1..], max, next).0, Buffered(body[1..], max, next).1);
      }
    }
  }

  /** Collecting goes past the first event or stops there, as the event calls for. */
  lemma {:induction false} FirstEvent(body: seq<BodyEvent>, max: usize, buf: BodyBuf)
    requires body != []
    ensures if GoesOn(body, max, buf.Freeze(), 0) then
        var next := if body[0].Data? then buf.Push(body[0].bytes) else buf;
        && Buffered(body, max, buf).0 == Buffered(body[1..], max, next).0
        && Buffered(body, max, buf).1 == Buffered(body[1..], max, next).1 + 1
      else StopsRightly(body, max, buf.Freeze(), Buffered(body, max, buf).0, Buffered(body, max, buf).1)
  {
    assert body[..0] == [];
    assert buf.Freeze() + BytesOf([]) == buf.Freeze();
    if body[0].Data? {
      SaturatesOver(buf.Len(), |body[0].bytes|, max);
    }
  }

  lemma {:induction false} BytesOfPrefix(events: seq<BodyEvent>, k: nat)
    requires k < |events|
    ensures |BytesOf(events[..k])| + (if events[k].Data? then |events[k].bytes| else 0) <= |BytesOf(events)|
  {
    if k > 0 {
      BytesOfPrefix(events[1..], k - 1);
      assert events[..k][1..] == events[1..][..k - 1];
    }
  }

  /**
  So a body within the limit is read whole, whatever its frames: data and trailers that total
  at most `max` bytes, then the end, give exactly those bytes.
  */
  lemma {:induction false} BodyWithinLimitIsComplete(events: seq<BodyEvent>, max: usize)
    requires |BytesOf(events)| <= max
    requires forall i :: 0 <= i < |events| ==> !Ends(events[i])
    ensures Buffered(events + [End], max, Empty) == (Complete(BytesOf(events)), |events| + 1)
  {
    var body := events + [End];
    BufferedMeans(body, max, Empty);
    forall k | 0 <= k < |events| ensures GoesOn(body, max, [], k) {
      BytesOfPrefix(events, k);
      assert body[..k] == events[..k];
    }
    assert body[..|events|] == events && [] + BytesOf(events) == BytesOf(events);
    assert !GoesOn(body, max, [], |events|);
    assert !GoesOn(body, max, [], Buffered(body, max, Empty).1 - 1);
  }

  // ---------------------------------------------------------------------------
  // Streamed
  // ---------------------------------------------------------------------------

  datatype ChunkMsg = Chunk(bytes: Bytes) | Reject(reject: BodyReject) | Eof

  /** What the feeder does with one event, after `total` bytes. */
  datatype Fed = Skip | Hand(bytes: Bytes, total: nat) | Last(msg: ChunkMsg)

  function Feed(event: BodyEvent, max: usize, total: nat): Fed {
    match event
    case End => Last(Eof)
    case ReadError(e) => Last(Reject(Read(e)))
    case Deadline => Last(Reject(TimedOut))
    case Trailers => Skip
    case Data(bytes) =>
      var t := SaturatingAdd(total, |bytes|);
      if t > max then Last(Reject(TooLarge)) else Hand(bytes, t)
  }

  /** Everything the feeder hands to a handler that keeps reading, and how many events it took. */
  function Streamed(body: seq<BodyEvent>, max: usize, total: nat): (seq<ChunkMsg>, nat) {
    if body == [] then ([], 0)
    else
      match Feed(body[0], max, total)
      case Last(msg) => ([msg], 1)
      case Skip => var (msgs, n) := Streamed(body[1..], max, total); (msgs, n + 1)
      case Hand(bytes, t) => var (msgs, n) := Streamed(body[1..], max, t); ([Chunk(bytes)] + msgs, n + 1)
  }

  /** The source's loop, for a handler that keeps reading. */
  method StreamBody(body: seq<BodyEvent>, max: usize) returns (msgs: seq<ChunkMsg>, used: nat)
    ensures msgs == Streamed(body, max, 0).0 && used == Streamed(body, max, 0).1
  {
    var total: nat := 0;
    msgs, used := [], 0;
    while used < |body|
      invariant used <= |body|
      invariant Streamed(body, max, 0).0 == msgs + Streamed(body[used..], max, total).0
      invariant Streamed(body, max, 0).1 == used + Streamed(body[used..], max, total).1
    {
      var event := body[used];
      assert body[used..][1..] == body[used + 1..];
      used := used + 1;
      match event {
        case End => return msgs + [Eof], used;
        case ReadError(e) => return msgs + [Reject(Read(e))], used;
        case Deadline => return msgs + [Reject(TimedOut)], used;
        case Trailers =>
        case Data(chunk) =>
          total := SaturatingAdd(total, |chunk|);
          if total > max {
            return msgs + [Reject(TooLarge)], used;
          }
          msgs := msgs + [Chunk(chunk)];
      }
    }
    assert body[used..] == [];
  }

  function Concat(msgs: seq<ChunkMsg>): Bytes {
    if msgs == [] then []
    else (if msgs[0].Chunk? then msgs[0].bytes else []) + Concat(msgs[1..])
  }

  /** The message that closes a stream whose body ended with `outcome`. */
  function Closing(outcome: Outcome): seq<ChunkMsg> {
    match outcome
    case Pending => []
    case Complete(_) => [Eof]
    case Rejected(reject) => [Reject(reject)]
  }

  ghost predicate AllChunks(msgs: seq<ChunkMsg>) {
    forall i :: 0 <= i < |msgs| ==> msgs[i].Chunk?
  }

  /** The data frames among `events`, in order, as the handler is handed them. */
  function ChunksOf(events: seq<BodyEvent>): seq<ChunkMsg> {
    if events == [] then []
    else (if events[0].Data? then [Chunk(events[0].bytes)] else []) + ChunksOf(events[1..])
  }

  /** The events before the one that ended the body, or all of them if none did. */
  function Before(body: seq<BodyEvent>, outcome: Outcome, used: nat): seq<BodyEvent>
    requires used <= |body| && (used == 0 ==> outcome.Pending?)
  {
    if outcome.Pending? then body else body[..used - 1]
  }

  lemma {:induction false} BeforeLater(body: seq<BodyEvent>, outcome: Outcome, n: nat)
    requires body != [] && n <= |body| - 1 && (n == 0 ==> outcome.Pending?)
    ensures Before(body, outcome, n + 1) == [body[0]] + Before(body[1..], outcome, n)
  {
  }

  lemma {:induction false} ChunksOfMore(event: BodyEvent, events: seq<BodyEvent>)
    ensures ChunksOf([event] + events) == (if event.Data? then [Chunk(event.bytes)] else []) + ChunksOf(events)
    ensures AllChunks(ChunksOf(events)) ==> AllChunks(ChunksOf([event] + events))
    ensures Concat(ChunksOf([event] + events)) == (if event.Data? then event.bytes else []) + Concat(ChunksOf(events))
  {
    assert ([event] + events)[1..] == events;
    if event.Data? {
      assert ([Chunk(event.bytes)] + ChunksOf(events))[1..] == ChunksOf(events);
    } else {
      assert [] + ChunksOf(events) == ChunksOf(events) && [] + Concat(ChunksOf(events)) == Concat(ChunksOf(events));
    }
  }

  /** How the stream of a body reads, `outcome` and `used` being how buffering it ends. */
  ghost predicate Agrees(
    body: seq<BodyEvent>, before: Bytes, outcome: Outcome, used: nat, msgs: seq<ChunkMsg>, taken: nat)
  {
    && taken == used <= |body| && (used == 0 ==> outcome.Pending?)
    && var chunks := ChunksOf(Before(body, outcome, used));
    && msgs == chunks + Closing(outcome)
    && AllChunks(chunks)
    && (outcome.Complete? ==> outcome.bytes == before + Concat(chunks))
  }

  lemma {:induction false} AgreesAfterData(
    body: seq<BodyEvent>, before: Bytes, outcome: Outcome, n: nat, msgs: seq<ChunkMsg>)
    requires body != [] && body[0].Data?
    requires Agrees(body[1..], before + body[0].bytes, outcome, n, msgs, n)
    ensures Agrees(body, before, outcome, n + 1, [Chunk(body[0].bytes)] + msgs, n + 1)
  {
    BeforeLater(body, outcome, n);
    var rest := ChunksOf(Before(body[1..], outcome, n));
    var first, data := [Chunk(body[0].bytes)], body[0].bytes;
    ChunksOfMore(body[0], Before(body[1..], outcome, n));
    assert first + (rest + Closing(outcome)) == first + rest + Closing(outcome);
    assert before + data + Concat(rest) == before + (data + Concat(rest));
  }

  lemma {:induction false} AgreesAfterTrailers(
    body: seq<BodyEvent>, before: Bytes, outcome: Outcome, n: nat, msgs: seq<ChunkMsg>)
    requires body != [] && !body[0].Data?
    requires Agrees(body[1..], before, outcome, n, msgs, n)
    ensures Agrees(body, before, outcome, n + 1, msgs, n + 1)
  {
    BeforeLater(body, outcome, n);
    ChunksOfMore(body[0], Before(body[1..], outcome, n));
    assert [] + ChunksOf(Before(body[1..], outcome, n)) == ChunksOf(Before(body[1..], outcome, n));
  }

  /** An event at which both readers stop. */
  lemma {:induction false} BothStop(body: seq<BodyEvent>, max: usize, buf: BodyBuf, total: nat)
    requires total == SaturatingAdd(0, buf.Len())
    requires body != [] && !GoesOn(body, max, buf.Freeze(), 0)
    ensures Agrees(body, buf.Freeze(), Buffered(body, max, buf).0, Buffered(body, max, buf).1,
                   Streamed(body, max, total).0, Streamed(body, max, total).1)
  {
    assert body[..0] == [] && buf.Freeze() + BytesOf([]) == buf.Freeze();
    assert buf.Freeze() + Concat([]) == buf.Freeze();
    if body[0].Data? {
      SaturatesOver(buf.Len(), |body[0].bytes|, max);
      SaturatesOver(total, |body[0].bytes|, max);
    }
  }

  /**
  On every body and every limit the two readers stop at the same event for the same reason:
  the stream is the data frames before that event, in order, followed by the one message
  that says how buffering ended, and if it ended well the chunks joined are the buffered
  bytes. The running total saturates where the buffer's length does not, and the decision
  is still the same.
  */
  lemma {:induction false} ReadersAgree(body: seq<BodyEvent>, max: usize, buf: BodyBuf, total: nat)
    requires total == SaturatingAdd(0, buf.Len())
    ensures Agrees(body, buf.Freeze(), Buffered(body, max, buf).0, Buffered(body, max, buf).1,
                   Streamed(body, max, total).0, Streamed(body, max, total).1)
  {
    if body == [] {
    } else if !GoesOn(body, max, buf.Freeze(), 0) {
      BothStop(body, max, buf, total);
    } else {
      FirstEvent(body, max, buf);
      if body[0].Data? {
        var data := body[0].bytes;
        var buf', total' := buf.Push(data), SaturatingAdd(total, |data|);
        SaturatesOver(buf.Len(), |data|, max);
        assert Feed(body[0], max, total) == Hand(data, total');
        ReadersAgree(body[1..], max, buf', total');
        AgreesAfterData(body, buf.Freeze(), Buffered(body[1..], max, buf').0, Buffered(body[1..], max, buf').1,
                        Streamed(body[1..], max, total').0);
      } else {
        ReadersAgree(body[1..], max, buf, total);
        AgreesAfterTrailers(body, buf.Freeze(), Buffered(body[1..], max, buf).0, Buffered(body[1..], max, buf).1,
                            Streamed(body[1..], max, total).0);
      }
    }
  }

  // ---------------------------------------------------------------------------
  // Feeder and handler, interleaved
  // ---------------------------------------------------------------------------

  datatype Pc =
    | Polling
    | Handing(msg: ChunkMsg, last: bool)
    | Done(gaveUp: bool)

  datatype State = State(
    body: seq<BodyEvent>, max: usize, used: nat, total: nat, pc: Pc,
    chan: seq<ChunkMsg>,
    handed: seq<ChunkMsg>,     // everything put in the channel
    seen: seq<ChunkMsg>,       // everything the handler took out
    gone: bool)                // the handler dropped its stream

  datatype Step =
    | Poll
    | Send
    | GiveUp      // the handler is gone, or made no room before the deadline
    | Recv
    | Leave

  predicate Enabled(s: State, step: Step) {
    match step
    case Poll => s.pc.Polling? && s.used < |s.body|
    case Send => s.pc.Handing? && !s.gone && |s.chan| < CHANNEL_CAPACITY
    case GiveUp => s.pc.Handing? && (s.gone || |s.chan| >= CHANNEL_CAPACITY)
    case Recv => !s.gone && s.chan != []
    case Leave => !s.gone
  }

  function Apply(s: State, step: Step): State
    requires Enabled(s, step)
  {
    match step
    case Poll =>
      var s' := s.(used := s.used + 1);
      (match Feed(s.body[s.used], s.max, s.total)
       case Last(msg) => s'.(pc := Handing(msg, true))
       case Skip => s'
       case Hand(bytes, t) => s'.(total := t, pc := Handing(Chunk(bytes), false)))
    case Send =>
      s.(chan := s.chan + [s.pc.msg], handed := s.handed + [s.pc.msg],
         pc := if s.pc.last then Done(false) else Polling)
    case GiveUp => s.(pc := Done(true))
    case Recv => s.(chan := s.chan[1..], seen := s.seen + [s.chan[0]])
    case Leave => s.(gone := true)
  }

  ghost predicate IsRun(s: State, steps: seq<Step>, last: State)
    decreases |steps|
  {
    if steps == [] then s == last
    else Enabled(s, steps[0]) && IsRun(Apply(s, steps[0]), steps[1..], last)
  }

  predicate IsStart(s: State) {
    s.used == 0 && s.total == 0 && s.pc.Polling? && s.chan == [] && s.handed == [] && s.seen == [] && !s.gone
  }

  /** What is still to be handed over if the handler keeps reading. */
  function ToCome(s: State): seq<ChunkMsg>
    requires s.used <= |s.body|
  {
    match s.pc
    case Polling => Streamed(s.body[s.used..], s.max, s.total).0
    case Handing(msg, last) => [msg] + (if last then [] else Streamed(s.body[s.used..], s.max, s.total).0)
    case Done(_) => []
  }

  ghost predicate Inv(s: State) {
    && s.used <= |s.body| && |s.chan| <= CHANNEL_CAPACITY
    && s.handed == s.seen + s.chan
    && (!s.pc.Done? || !s.pc.gaveUp ==> s.handed + ToCome(s) == Streamed(s.body, s.max, 0).0)
    && (s.pc.Done? && s.pc.gaveUp ==> s.handed < Streamed(s.body, s.max, 0).0)
  }

  lemma {:induction false} PollKeepsInv(s: State)
    requires Inv(s) && Enabled(s, Poll)
    ensures Inv(Apply(s, Poll))
  {
    assert s.body[s.used..][1..] == s.body[s.used + 1..];
    assert ToCome(Apply(s, Poll)) == ToCome(s);
  }

  lemma {:induction false} SendKeepsInv(s: State)
    requires Inv(s) && Enabled(s, Send)
    ensures Inv(Apply(s, Send))
  {
    var s' := Apply(s, Send);
    assert ToCome(s) == [s.pc.msg] + ToCome(s');
    assert s.handed + ToCome(s) == s'.handed + ToCome(s');
    assert s.seen + s'.chan == s'.handed;
  }

  lemma {:induction false} StepKeepsInv(s: State, step: Step)
    requires Inv(s) && Enabled(s, step)
    ensures Inv(Apply(s, step)) && Apply(s, step).body == s.body && Apply(s, step).max == s.max
  {
    var s' := Apply(s, step);
    if step.Poll? {
      PollKeepsInv(s);
    } else if step.Send? {
      SendKeepsInv(s);
    } else if step.Recv? {
      assert s'.seen + s'.chan == s.seen + s.chan;
    } else if step.GiveUp? {
      assert s.handed + ToCome(s) == s.handed + [s.pc.msg] + ToCome(s)[1..];
    }
  }

  lemma {:induction false} RunKeepsInv(s: State, steps: seq<Step>, last: State)
    requires Inv(s) && IsRun(s, steps, last)
    ensures Inv(last) && last.body == s.body && last.max == s.max
    decreases |steps|
  {
    if steps != [] {
      StepKeepsInv(s, steps[0]);
      RunKeepsInv(Apply(s, steps[0]), steps[1..], last);
    }
  }

  /** What a stream's chunks add up to on top of `total`, read to any point. */
  ghost predicate Fits(msgs: seq<ChunkMsg>, max: usize, total: nat) {
    forall k :: 0 <= k <= |msgs| ==> total + |Concat(msgs[..k])| <= max
  }

  lemma {:induction false} OneMessageFits(msg: ChunkMsg, max: usize, total: nat)
    requires total <= max && !msg.Chunk?
    ensures Fits([msg], max, total)
  {
    assert [msg][..0] == [] && [msg][..1] == [msg] && [msg][1..] == [];
  }

  lemma {:induction false} ChunkFits(bytes: Bytes, rest: seq<ChunkMsg>, max: usize, total: nat)
    requires total + |bytes| <= max && Fits(rest, max, total + |bytes|)
    ensures Fits([Chunk(bytes)] + rest, max, total)
  {
    var msgs := [Chunk(bytes)] + rest;
    forall k | 0 <= k <= |msgs| ensures total + |Concat(msgs[..k])| <= max {
      if k > 0 {
        assert msgs[..k][1..] == rest[..k - 1];
      }
    }
  }

  /** The chunks of a stream stay within the limit. */
  lemma {:induction false} ChunksFit(body: seq<BodyEvent>, max: usize, total: nat)
    requires total <= max < USIZE_MAX
    ensures Fits(Streamed(body, max, total).0, max, total)
  {
    if body != [] {
      var fed := Feed(body[0], max, total);
      if fed.Skip? {
        ChunksFit(body[1..], max, total);
      } else if fed.Hand? {
        ChunksFit(body[1..], max, fed.total);
        ChunkFits(fed.bytes, Streamed(body[1..], max, fed.total).0, max, total);
      } else {
        OneMessageFits(fed.msg, max, total);
      }
    }
  }

  /** A prefix of chunks and a closing message is all chunks, or the whole. */
  lemma {:induction false} ClosesOnce(chunks: seq<ChunkMsg>, closing: seq<ChunkMsg>, prefix: seq<ChunkMsg>)
    requires AllChunks(chunks) && |closing| <= 1 && prefix <= chunks + closing
    ensures AllChunks(prefix) || prefix == chunks + closing
    ensures prefix != chunks + closing ==> prefix <= chunks
  {
    if |prefix| <= |chunks| {
      assert forall i :: 0 <= i < |prefix| ==> prefix[i] == chunks[i];
    }
  }

  /** What was handed over and what was taken are prefixes of the body's stream, the first a proper one if given up. */
  lemma {:induction false} SeenIsPrefix(start: State, steps: seq<Step>, last: State)
    requires IsStart(start) && IsRun(start, steps, last)
    ensures |last.chan| <= CHANNEL_CAPACITY
    ensures last.seen <= last.handed <= Streamed(start.body, start.max, 0).0
    ensures last.pc.Done? && last.pc.gaveUp ==> last.handed != Streamed(start.body, start.max, 0).0
  {
    assert start.body[0..] == start.body;
    RunKeepsInv(start, steps, last);
  }

  /**
  In every interleaving of the feeder and the handler: at most `CHANNEL_CAPACITY` messages
  are in flight; what the handler has seen is a prefix of the body's data frames, and after
  all of them at most the one message that says how the body ended, as it does for the
  buffered reader, and nothing more; `Eof` is seen only after the whole body; and a stream
  the feeder gave up on has no closing message at all.
  */
  lemma {:induction false} HandlerSeesPrefix(start: State, steps: seq<Step>, last: State)
    requires IsStart(start) && IsRun(start, steps, last)
    ensures |last.chan| <= CHANNEL_CAPACITY
    ensures var (outcome, used) := Buffered(start.body, start.max, Empty);
      && used <= |start.body| && (used == 0 ==> outcome.Pending?)
      && var frames := ChunksOf(Before(start.body, outcome, used));
      && AllChunks(frames)
      && Streamed(start.body, start.max, 0).0 == frames + Closing(outcome)
      && (last.seen <= frames || last.seen == frames + Closing(outcome))
      && (last.pc.Done? && last.pc.gaveUp ==> last.handed <= frames)
      && (Eof in last.seen ==> outcome == Complete(Concat(frames)) && last.seen == frames + [Eof])
  {
    SeenIsPrefix(start, steps, last);
    ReadersAgree(start.body, start.max, Empty, 0);
    var (outcome, used) := Buffered(start.body, start.max, Empty);
    var frames := ChunksOf(Before(start.body, outcome, used));
    assert [] + Concat(frames) == Concat(frames);
    ClosesOnce(frames, Closing(outcome), last.seen);
    ClosesOnce(frames, Closing(outcome), last.handed);
    if Eof in last.seen {
      EofCloses(frames, outcome, last.seen);
    }
  }

  /** A whole stream's `Eof` can only be its closing message. */
  lemma {:induction false} EofCloses(frames: seq<ChunkMsg>, outcome: Outcome, seen: seq<ChunkMsg>)
    requires AllChunks(frames) && (seen <= frames || seen == frames + Closing(outcome)) && Eof in seen
    ensures outcome.Complete? && seen == frames + [Eof]
  {
    var i :| 0 <= i < |seen| && seen[i] == Eof;
    assert i < |frames| ==> seen[i] == frames[i];
  }

  /**
  What the handler has taken never exceeds a limit below the largest one, whatever it does
  and whenever it stops.
  */
  lemma {:induction false} HandlerStaysWithinLimit(start: State, steps: seq<Step>, last: State)
    requires IsStart(start) && IsRun(start, steps, last)
    ensures start.max < USIZE_MAX ==> |Concat(last.seen)| <= start.max
  {
    SeenIsPrefix(start, steps, last);
    if start.max < USIZE_MAX {
      ChunksFit(start.body, start.max, 0);
      var all := Streamed(start.body, start.max, 0).0;
      assert all[..|last.seen|] == last.seen;
    }
  }

  lemma {:induction false} ThenRun(s: State, steps: seq<Step>, mid: State, more: seq<Step>, last: State)
    requires IsRun(s, steps, mid) && IsRun(mid, more, last)
    ensures IsRun(s, steps + more, last)
    decreases |steps|
  {
    if steps == [] {
      assert steps + more == more;
    } else {
      assert (steps + more)[1..] == steps[1..] + more;
      ThenRun(Apply(s, steps[0]), steps[1..], mid, more, last);
    }
  }

  lemma {:induction false} ThreeSteps(s: State, a: Step, b: Step, c: Step)
    requires Enabled(s, a) && Enabled(Apply(s, a), b) && Enabled(Apply(Apply(s, a), b), c)
    ensures IsRun(s, [a, b, c], Apply(Apply(Apply(s, a), b), c))
  {
    var end := Apply(Apply(Apply(s, a), b), c);
    assert [a, b, c][1..] == [b, c] && [b, c][1..] == [c] && [c][1..] == [];
    assert IsRun(end, [], end);
    assert IsRun(Apply(Apply(s, a), b), [c], end);
    assert IsRun(Apply(s, a), [b, c], end);
  }

  /** Between two chunks, all of them taken. */
  predicate Between(s: State) { s.pc.Polling? && s.used <= |s.body| && s.chan == [] && !s.gone }

  /** One event of a handler that keeps reading: nothing, or a message handed over and taken. */
  lemma {:induction false} TakesOne(s: State) returns (steps: seq<Step>, next: State)
    requires Between(s) && s.used < |s.body|
    ensures IsRun(s, steps, next) && next.body == s.body && next.max == s.max && next.used == s.used + 1
    ensures match Feed(s.body[s.used], s.max, s.total)
      case Skip => Between(next) && next.seen == s.seen && next.total == s.total
      case Hand(bytes, t) => Between(next) && next.seen == s.seen + [Chunk(bytes)] && next.total == t
      case Last(msg) => next.seen == s.seen + [msg]
  {
    if Feed(s.body[s.used], s.max, s.total).Skip? {
      steps, next := [Poll], Apply(s, Poll);
      assert [Poll][1..] == [] && IsRun(next, [], next);
    } else {
      steps, next := [Poll, Send, Recv], Apply(Apply(Apply(s, Poll), Send), Recv);
      ThreeSteps(s, Poll, Send, Recv);
    }
  }

  /** Whatever the body, some handler gets to see all of its stream. */
  lemma {:induction false} StreamCanBeSeen(s: State) returns (steps: seq<Step>, last: State)
    requires Between(s)
    ensures IsRun(s, steps, last) && last.seen == s.seen + Streamed(s.body[s.used..], s.max, s.total).0
    decreases |s.body| - s.used
  {
    steps, last := [], s;
    if s.used < |s.body| {
      steps, last := TakesOne(s);
      assert s.body[s.used..][1..] == s.body[s.used + 1..];
      if !Feed(s.body[s.used], s.max, s.total).Last? {
        var more, end := StreamCanBeSeen(last);
        ThenRun(s, steps, last, more, end);
        steps, last := steps + more, end;
      }
    }
  }

  /** At the largest limit no frame is ever too much. */
  lemma {:induction false} LargestLimitRefusesNothing(frames: seq<Bytes>, total: nat)
    requires total <= USIZE_MAX
    ensures |Concat(Streamed(DataFrames(frames), USIZE_MAX, total).0)| == TotalOf(frames)
  {
    if frames != [] {
      var body := DataFrames(frames);
      assert body[1..] == DataFrames(frames[1..]);
      var t := SaturatingAdd(total, |frames[0]|);
      LargestLimitRefusesNothing(frames[1..], t);
      var rest := Streamed(body[1..], USIZE_MAX, t).0;
      assert ([Chunk(frames[0])] + rest)[1..] == rest;
    }
  }

  function DataFrames(frames: seq<Bytes>): seq<BodyEvent> {
    seq(|frames|, i requires 0 <= i < |frames| => Data(frames[i]))
  }

  function TotalOf(frames: seq<Bytes>): nat {
    if frames == [] then 0 else |frames[0]| + TotalOf(frames[1..])
  }

  /**
  At the largest limit the bound fails: the total saturates there and never exceeds it, so
  any body of data frames can be taken whole, however many bytes it has.
  */
  lemma {:induction false} LargestLimitIsNone(frames: seq<Bytes>) returns (start: State, steps: seq<Step>, last: State)
    ensures IsStart(start) && start.max == USIZE_MAX && IsRun(start, steps, last)
    ensures |Concat(last.seen)| == TotalOf(frames)
  {
    start := State(DataFrames(frames), USIZE_MAX, 0, 0, Polling, [], [], [], false);
    steps, last := StreamCanBeSeen(start);
    assert start.body[0..] == start.body;
    LargestLimitRefusesNothing(frames, 0);
    assert [] + Streamed(start.body, USIZE_MAX, 0).0 == Streamed(start.body, USIZE_MAX, 0).0;
  }

  /** A handler that stayed until the feeder was done, and took everything, has the whole stream. */
  lemma {:induction false} PatientHandlerSeesAll(start: State, steps: seq<Step>, last: State)
    requires IsStart(start) && IsRun(start, steps, last)
    requires last.pc == Done(false) && last.chan == []
    ensures last.seen == Streamed(start.body, start.max, 0).0
  {
    assert start.body[0..] == start.body;
    RunKeepsInv(start, steps, last);
  }

  /** The handler stays, and the channel is never full, from `s` on along `steps`. */
  ghost predicate KeepsUp(s: State, steps: seq<Step>)
    decreases |steps|
  {
    && !s.gone && |s.chan| < 8
    && (steps != [] && Enabled(s, steps[0]) ==> KeepsUp(Apply(s, steps[0]), steps[1..]))
  }

  /** A handler that stays and leaves room is never given up on. */
  lemma {:induction false} KeptUpIsNotGivenUp(s: State, steps: seq<Step>, last: State)
    requires IsRun(s, steps, last) && KeepsUp(s, steps) && s.pc != Done(true)
    ensures last.pc != Done(true)
    decreases |steps|
  {
    if steps != [] {
      KeptUpIsNotGivenUp(Apply(s, steps[0]), steps[1..], last);
    }
  }

  /** The channel does take eight messages before the feeder waits. */
  lemma {:induction false} ChannelCanFill(k: nat) returns (start: State, steps: seq<Step>, last: State)
    requires k <= 8
    ensures IsStart(start) && IsRun(start, steps, last)
    ensures |last.chan| == k && last.seen == []
  {
    start := State(DataFrames(seq(8, _ => [])), 0, 0, 0, Polling, [], [], [], false);
    steps, last := Fills(start, k);
  }

  lemma {:induction false} Fills(start: State, k: nat) returns (steps: seq<Step>, last: State)
    requires k <= 8 && start == State(DataFrames(seq(8, _ => [])), 0, 0, 0, Polling, [], [], [], false)
    ensures IsRun(start, steps, last) && last.pc.Polling? && !last.gone && |last.chan| == k && last.seen == []
    ensures last.body == start.body && last.max == 0 && last.used == k && last.total == 0
  {
    if k == 0 {
      steps, last := [], start;
    } else {
      var before, s := Fills(start, k - 1);
      var polled := Apply(s, Poll);
      last := Apply(polled, Send);
      assert [Poll, Send][1..] == [Send] && [Send][1..] == [] && IsRun(last, [], last);
      assert IsRun(polled, [Send], last);
      steps := before + [Poll, Send];
      ThenRun(start, before, s, [Poll, Send], last);
    }
  }
}
