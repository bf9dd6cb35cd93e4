/**
The hand-written gRPC codec of the benchmark service: length-prefixed frames, the proto3
field decoder that skips unknown fields, and the reply.
*/
module Grpc {
  import opened Common
  import opened Varint

  // ---------------------------------------------------------------------------
  // Decoding SumRequest
  // ---------------------------------------------------------------------------

  const VARINT: nat := 0
  const I64: nat := 1
  const LEN: nat := 2
  const I32: nat := 5

  datatype SumRequest = SumRequest(a: int32, b: int32)

  datatype DecodeError =
    | BadVarint
    | Truncated(field: nat)
    | WireType(field: nat, wireType: nat)

  function Drop(input: seq<byte>, n: nat, field: nat): Result<seq<byte>, DecodeError> {
    if n <= |input| then Ok(input[n..]) else Err(Truncated(field))
  }

  function SkipField(field: nat, wireType: nat, input: seq<byte>): (r: Result<seq<byte>, DecodeError>)
    ensures r.Ok? ==> |r.value| <= |input| && r.value == input[|input| - |r.value|..]
  {
    if wireType == VARINT then
      var v := ReadVarint(input);
      if v.Some? then Ok(v.value.1) else Err(BadVarint)
    else if wireType == I64 then Drop(input, 8, field)
    else if wireType == I32 then Drop(input, 4, field)
    else if wireType == LEN then
      var v := ReadVarint(input);
      if v.Some? then Drop(v.value.1, v.value.0, field) else Err(BadVarint)
    else Err(WireType(field, wireType))
  }

  /** Whether the decoder stores the field rather than skip it. */
  predicate IsStored(field: nat, wireType: nat) { (field == 1 || field == 2) && wireType == VARINT }

  function Store(request: SumRequest, field: nat, value: nat): SumRequest {
    if field == 1 then request.(a := LowBits(value)) else request.(b := LowBits(value))
  }

  /** One turn of the decoder's loop: the request after the field in front, and what follows it. */
  function DecodeField(cursor: seq<byte>, request: SumRequest): (r: Result<(SumRequest, seq<byte>), DecodeError>)
    ensures r.Ok? ==> |r.value.1| < |cursor|
  {
    var tag := ReadVarint(cursor);
    if tag.None? then Err(BadVarint)
    else
      var (t, rest) := tag.value;
      var (field, wireType) := (t / 8, t % 8);
      if IsStored(field, wireType) then
        var value := ReadVarint(rest);
        if value.None? then Err(BadVarint) else Ok((Store(request, field, value.value.0), value.value.1))
      else
        match SkipField(field, wireType, rest)
        case Ok(after) => Ok((request, after))
        case Err(e) => Err(e)
  }

  function DecodeFrom(cursor: seq<byte>, request: SumRequest): Result<SumRequest, DecodeError>
    decreases |cursor|
  {
    if cursor == [] then Ok(request)
    else
      match DecodeField(cursor, request)
      case Ok(next) => DecodeFrom(next.1, next.0)
      case Err(e) => Err(e)
  }

  function Decode(message: seq<byte>): Result<SumRequest, DecodeError> {
    DecodeFrom(message, SumRequest(0, 0))
  }

  /** The source's loop; it ends on every byte string. */
  method DecodeSumRequest(message: seq<byte>) returns (r: Result<SumRequest, DecodeError>)
    ensures r == Decode(message)
  {
    var cursor, request := message, SumRequest(0, 0);
    while cursor != []
      invariant DecodeFrom(cursor, request) == Decode(message)
      decreases |cursor|
    {
      var tag := ReadVarintLoop(cursor);
      if tag.None? {
        return Err(BadVarint);
      }
      var field, wireType, rest := tag.value.0 / 8, tag.value.0 % 8, tag.value.1;
      if IsStored(field, wireType) {
        var value := ReadVarintLoop(rest);
        if value.None? {
          return Err(BadVarint);
        }
        request := Store(request, field, value.value.0);
        cursor := value.value.1;
      } else {
        var after := SkipField(field, wireType, rest);
        if after.Err? {
          return Err(after.error);
        }
        cursor := after.value;
      }
    }
    return Ok(request);
  }

  // ---------------------------------------------------------------------------
  // What a message is
  // ---------------------------------------------------------------------------

  function Value(varint: seq<byte>): nat { Base128(varint) % U64 }

  /**
  `payload` is one value of this wire type, and nothing more, as "Message Structure" in the
  Protocol Buffers encoding guide numbers them: 0 a varint, 1 eight bytes, 2 a length and
  that many bytes, 5 four bytes.
  */
  predicate IsPayload(wireType: nat, payload: seq<byte>) {
    if wireType == 0 then IsVarint(payload)
    else if wireType == 1 then |payload| == 8
    else if wireType == 5 then |payload| == 4
    else if wireType == 2 then
      ReadVarint(payload).Some? && |ReadVarint(payload).value.1| == ReadVarint(payload).value.0
    else false
  }

  /** A field as it stands on the wire: its tag, in any varint spelling, and its payload. */
  datatype Field = Field(tag: seq<byte>, payload: seq<byte>) {
    function Number(): nat { Value(tag) / 8 }

    function Wire(): nat { Value(tag) % 8 }

    predicate WellFormed() { IsVarint(tag) && IsPayload(Wire(), payload) }

    /** It is a varint with this number. */
    predicate Is(number: nat) { Number() == number && Wire() == 0 }
  }

  predicate AllWellFormed(fields: seq<Field>) {
    forall i :: 0 <= i < |fields| ==> fields[i].WellFormed()
  }

  function Encoded(fields: seq<Field>): seq<byte> {
    if fields == [] then [] else fields[0].tag + fields[0].payload + Encoded(fields[1..])
  }

  /** The value of the last varint field with this number, or `otherwise` if there is none. */
  function LastValue(fields: seq<Field>, number: nat, otherwise: int32): int32 {
    if fields == [] then otherwise
    else
      var last := fields[|fields| - 1];
      if last.Is(number) then LowBits(Value(last.payload))
      else LastValue(fields[..|fields| - 1], number, otherwise)
  }

  /** Reading the varint in front of anything. */
  lemma {:induction false} ReadsPrefix(varint: seq<byte>, tail: seq<byte>)
    requires IsVarint(varint)
    ensures ReadVarint(varint + tail) == Some((Value(varint), tail))
  {
    assert (varint + tail)[..|varint|] == varint && (varint + tail)[|varint|..] == tail;
    ReadsExactlyVarints(varint + tail, |varint|);
  }

  /** A value read splits the input into a varint and the rest. */
  lemma {:induction false} SplitsPrefix(input: seq<byte>) returns (varint: seq<byte>)
    requires ReadVarint(input).Some?
    ensures IsVarint(varint) && input == varint + ReadVarint(input).value.1
    ensures Value(varint) == ReadVarint(input).value.0
  {
    var n := |input| - |ReadVarint(input).value.1|;
    varint := input[..n];
    ReadsExactlyVarints(input, n);
    assert input == varint + input[n..];
  }

  /** Skipping a payload leaves exactly what follows it. */
  lemma {:induction false} SkipsPayload(field: nat, wireType: nat, payload: seq<byte>, tail: seq<byte>)
    requires IsPayload(wireType, payload)
    ensures SkipField(field, wireType, payload + tail) == Ok(tail)
  {
    if wireType == VARINT {
      ReadsPrefix(payload, tail);
    } else if wireType == LEN {
      SkipsLen(payload, tail);
    } else {
      assert (payload + tail)[|payload|..] == tail;
    }
  }

  /** A length in front, and that many bytes after it. */
  lemma {:induction false} SkipsLen(payload: seq<byte>, tail: seq<byte>)
    requires ReadVarint(payload).Some? && |ReadVarint(payload).value.1| == ReadVarint(payload).value.0
    ensures var (n, body) := ReadVarint(payload).value;
      ReadVarint(payload + tail) == Some((n, body + tail)) && (body + tail)[n..] == tail
  {
    var len := SplitsPrefix(payload);
    var body := ReadVarint(payload).value.1;
    assert payload + tail == len + (body + tail);
    ReadsPrefix(len, body + tail);
  }

  /** What is skipped is a payload. */
  lemma {:induction false} SkipsOnlyPayloads(field: nat, wireType: nat, input: seq<byte>) returns (payload: seq<byte>)
    requires SkipField(field, wireType, input).Ok?
    ensures IsPayload(wireType, payload) && input == payload + SkipField(field, wireType, input).value
  {
    var after := SkipField(field, wireType, input).value;
    if wireType == VARINT {
      payload := SplitsPrefix(input);
    } else {
      payload := input[..|input| - |after|];
      assert input == payload + after;
      if wireType == LEN {
        LenPayload(input, payload, after);
      }
    }
  }

  /** A well-formed field in front is taken whole, whatever follows. */
  lemma {:induction false} DecodesField(f: Field, tail: seq<byte>, request: SumRequest)
    requires f.WellFormed()
    ensures DecodeField(f.tag + f.payload + tail, request)
         == Ok((SumRequest(if f.Is(1) then LowBits(Value(f.payload)) else request.a,
                           if f.Is(2) then LowBits(Value(f.payload)) else request.b), tail))
  {
    var rest := f.payload + tail;
    assert f.tag + f.payload + tail == f.tag + rest;
    ReadsPrefix(f.tag, rest);
    if IsStored(f.Number(), f.Wire()) {
      ReadsPrefix(f.payload, tail);
    } else {
      SkipsPayload(f.Number(), f.Wire(), f.payload, tail);
    }
  }

  /** A field the decoder takes is a well-formed field. */
  lemma {:induction false} TakesField(cursor: seq<byte>, request: SumRequest) returns (f: Field)
    requires DecodeField(cursor, request).Ok?
    ensures f.WellFormed() && cursor == f.tag + f.payload + DecodeField(cursor, request).value.1
  {
    var tag := SplitsPrefix(cursor);
    var (t, rest) := ReadVarint(cursor).value;
    var after := DecodeField(cursor, request).value.1;
    var payload := PayloadInFront(t, rest, after, cursor, request);
    f := Field(tag, payload);
    Reassociate(tag, payload, after);
  }

  lemma Reassociate(x: seq<byte>, y: seq<byte>, z: seq<byte>)
    ensures x + (y + z) == x + y + z
  {
  }

  lemma {:induction false} PayloadInFront(
    t: nat, rest: seq<byte>, after: seq<byte>, cursor: seq<byte>, request: SumRequest)
    returns (payload: seq<byte>)
    requires ReadVarint(cursor) == Some((t, rest))
    requires DecodeField(cursor, request).Ok? && after == DecodeField(cursor, request).value.1
    ensures IsPayload(t % 8, payload) && rest == payload + after
  {
    if IsStored(t / 8, t % 8) {
      payload := SplitsPrefix(rest);
    } else {
      payload := SkipsOnlyPayloads(t / 8, t % 8, rest);
    }
  }

  lemma {:induction false} LenPayload(rest: seq<byte>, payload: seq<byte>, after: seq<byte>)
    requires ReadVarint(rest).Some? && ReadVarint(rest).value.0 <= |ReadVarint(rest).value.1|
    requires after == ReadVarint(rest).value.1[ReadVarint(rest).value.0..] && rest == payload + after
    ensures ReadVarint(payload).Some? && |ReadVarint(payload).value.1| == ReadVarint(payload).value.0
  {
    var (n, inner) := ReadVarint(rest).value;
    var len := SplitsPrefix(rest);
    assert inner == inner[..n] + after;
    assert payload == (len + inner)[..|len| + n] == len + inner[..n];
    ReadsPrefix(len, inner[..n]);
  }

  lemma {:induction false} LastValueCons(f: Field, rest: seq<Field>, number: nat, otherwise: int32)
    ensures LastValue([f] + rest, number, otherwise)
         == LastValue(rest, number,
                      if f.Is(number) then LowBits(Value(f.payload)) else otherwise)
  {
    if rest == [] {
      assert [f] + rest == [f] && [f][..0] == [];
    } else {
      assert ([f] + rest)[..|rest|] == [f] + rest[..|rest| - 1];
      LastValueCons(f, rest[..|rest| - 1], number, otherwise);
    }
  }

  lemma {:induction false} DecodesFieldsFrom(fields: seq<Field>, request: SumRequest)
    requires AllWellFormed(fields)
    ensures DecodeFrom(Encoded(fields), request)
         == Ok(SumRequest(LastValue(fields, 1, request.a), LastValue(fields, 2, request.b)))
  {
    if fields != [] {
      var f, rest := fields[0], fields[1..];
      assert f.WellFormed();
      DecodesField(f, Encoded(rest), request);
      var next := SumRequest(if f.Is(1) then LowBits(Value(f.payload)) else request.a,
                             if f.Is(2) then LowBits(Value(f.payload)) else request.b);
      assert forall i :: 0 <= i < |rest| ==> rest[i] == fields[i + 1];
      DecodesFieldsFrom(rest, next);
      assert [f] + rest == fields;
      LastValueCons(f, rest, 1, request.a);
      LastValueCons(f, rest, 2, request.b);
    }
  }

  lemma {:induction false} DecodesOnlyFieldsFrom(cursor: seq<byte>, request: SumRequest) returns (fields: seq<Field>)
    requires DecodeFrom(cursor, request).Ok?
    ensures AllWellFormed(fields) && Encoded(fields) == cursor
    decreases |cursor|
  {
    if cursor == [] {
      fields := [];
    } else {
      var f := TakesField(cursor, request);
      var (next, rest) := DecodeField(cursor, request).value;
      var more := DecodesOnlyFieldsFrom(rest, next);
      fields := [f] + more;
      assert fields[1..] == more;
    }
  }

  /**
  Every concatenation of well-formed fields decodes, to the low 32 bits of the last varint
  value of fields 1 and 2, or zero.
  */
  lemma {:induction false} DecodesFields(fields: seq<Field>)
    requires AllWellFormed(fields)
    ensures Decode(Encoded(fields)) == Ok(SumRequest(LastValue(fields, 1, 0), LastValue(fields, 2, 0)))
  {
    DecodesFieldsFrom(fields, SumRequest(0, 0));
  }

  /** And nothing else does: what decodes is a concatenation of well-formed fields. */
  lemma {:induction false} DecodesOnlyFields(message: seq<byte>) returns (fields: seq<Field>)
    requires Decode(message).Ok?
    ensures AllWellFormed(fields) && Encoded(fields) == message
  {
    fields := DecodesOnlyFieldsFrom(message, SumRequest(0, 0));
  }

  /** What is wrong with a payload of this wire type, in front of `input`. */
  ghost predicate IsWrong(field: nat, wireType: nat, input: seq<byte>, e: DecodeError) {
    match e
    case BadVarint => (wireType == 0 || wireType == 2) && ReadVarint(input).None?
    case Truncated(f) => f == field &&
      (|| (wireType == 1 && |input| < 8)
       || (wireType == 5 && |input| < 4)
       || (wireType == 2 && ReadVarint(input).Some? && |ReadVarint(input).value.1| < ReadVarint(input).value.0))
    case WireType(f, w) => f == field && w == wireType && w != 0 && w != 1 && w != 2 && w != 5
  }

  /** What is wrong with the field in front of `rest`. */
  ghost predicate FailsAt(rest: seq<byte>, e: DecodeError) {
    var tag := ReadVarint(rest);
    rest != [] && if tag.None? then e == BadVarint else IsWrong(tag.value.0 / 8, tag.value.0 % 8, tag.value.1, e)
  }

  lemma {:induction false} FieldFails(cursor: seq<byte>, request: SumRequest)
    requires cursor != [] && DecodeField(cursor, request).Err?
    ensures FailsAt(cursor, DecodeField(cursor, request).error)
  {
  }

  lemma {:induction false} MoreFields(f: Field, more: seq<Field>, rest: seq<byte>)
    requires f.WellFormed() && AllWellFormed(more)
    ensures AllWellFormed([f] + more)
    ensures f.tag + f.payload + (Encoded(more) + rest) == Encoded([f] + more) + rest
  {
    assert ([f] + more)[1..] == more;
    Reassociate(f.tag + f.payload, Encoded(more), rest);
  }

  lemma {:induction false} FailsFrom(cursor: seq<byte>, request: SumRequest)
    returns (fields: seq<Field>, rest: seq<byte>)
    requires DecodeFrom(cursor, request).Err?
    ensures AllWellFormed(fields) && cursor == Encoded(fields) + rest
    ensures FailsAt(rest, DecodeFrom(cursor, request).error)
    decreases |cursor|
  {
    if DecodeField(cursor, request).Err? {
      FieldFails(cursor, request);
      fields, rest := [], cursor;
    } else {
      var f := TakesField(cursor, request);
      var next := DecodeField(cursor, request).value;
      var more, end := FailsFrom(next.1, next.0);
      MoreFields(f, more, end);
      fields, rest := [f] + more, end;
    }
  }

  /**
  And a message that does not decode fails at its first bad field, for what is wrong there: no
  varint for a tag, a value or a length, too few bytes, or a wire type that is none of the four.
  */
  lemma {:induction false} FailsAtFirstBadField(message: seq<byte>) returns (fields: seq<Field>, rest: seq<byte>)
    requires Decode(message).Err?
    ensures AllWellFormed(fields) && message == Encoded(fields) + rest
    ensures FailsAt(rest, Decode(message).error)
  {
    fields, rest := FailsFrom(message, SumRequest(0, 0));
  }

  lemma {:induction false} LastValueAppend(before: seq<Field>, after: seq<Field>, number: nat, otherwise: int32)
    ensures LastValue(before + after, number, otherwise)
         == LastValue(after, number, LastValue(before, number, otherwise))
  {
    if after == [] {
      assert before + after == before;
    } else {
      assert (before + after)[..|before + after| - 1] == before + after[..|after| - 1];
      LastValueAppend(before, after[..|after| - 1], number, otherwise);
    }
  }

  lemma {:induction false} NoLastValue(unknown: seq<Field>, number: nat, otherwise: int32)
    requires number == 1 || number == 2
    requires forall i :: 0 <= i < |unknown| ==> !unknown[i].Is(1) && !unknown[i].Is(2)
    ensures LastValue(unknown, number, otherwise) == otherwise
  {
    if unknown != [] {
      NoLastValue(unknown[..|unknown| - 1], number, otherwise);
    }
  }

  /** Unknown fields, of any allowed wire type and at any field boundary, never change the result. */
  lemma {:induction false} UnknownFieldsDoNotMatter(before: seq<Field>, unknown: seq<Field>, after: seq<Field>)
    requires AllWellFormed(before) && AllWellFormed(unknown) && AllWellFormed(after)
    requires forall i :: 0 <= i < |unknown| ==> !unknown[i].Is(1) && !unknown[i].Is(2)
    ensures Decode(Encoded(before + unknown + after)) == Decode(Encoded(before + after))
  {
    DecodesFields(before + unknown + after);
    DecodesFields(before + after);
    SameLast(before, unknown, after, 1);
    SameLast(before, unknown, after, 2);
  }

  lemma {:induction false} SameLast(before: seq<Field>, unknown: seq<Field>, after: seq<Field>, number: nat)
    requires number == 1 || number == 2
    requires forall i :: 0 <= i < |unknown| ==> !unknown[i].Is(1) && !unknown[i].Is(2)
    ensures LastValue(before + unknown + after, number, 0) == LastValue(before + after, number, 0)
  {
    LastValueAppend(before + unknown, after, number, 0);
    LastValueAppend(before, unknown, number, 0);
    LastValueAppend(before, after, number, 0);
    NoLastValue(unknown, number, LastValue(before, number, 0));
  }

  // ---------------------------------------------------------------------------
  // Frames
  // ---------------------------------------------------------------------------

  const HEADER_LEN: nat := 5

  datatype GrpcError =
    | ShortFrame(len: nat)
    | Compressed(flag: byte)
    | TruncatedFrame(declared: nat, actual: nat)
    | TrailingBytes(declared: nat, actual: nat)
    | Malformed(error: DecodeError)

  /** `n as u32`, in big-endian bytes. */
  function BigEndian32(n: nat): (r: seq<byte>)
    ensures |r| == 4
  {
    [n / 256 / 256 / 256 % 256, n / 256 / 256 % 256, n / 256 % 256, n % 256]
  }

  function FromBigEndian32(b: seq<byte>): nat
    requires |b| == 4
  {
    var b0: nat := b[0]; var b1: nat := b[1]; var b2: nat := b[2]; var b3: nat := b[3];
    ((b0 * 256 + b1) * 256 + b2) * 256 + b3
  }

  lemma {:induction false} Digits(q: nat, r: nat)
    requires r < 256
    ensures (q * 256 + r) / 256 == q && (q * 256 + r) % 256 == r
  {
  }

  lemma {:induction false} Wraps32(x: nat, q: nat)
    requires x < U32
    ensures (x + q * U32) % U32 == x
  {
  }

  /** Four bytes hold the length modulo 2^32. */
  lemma {:induction false} BigEndianRoundTrip(n: nat)
    ensures FromBigEndian32(BigEndian32(n)) == n % U32
  {
    var n1 := n / 256;
    var n2 := n1 / 256;
    var n3 := n2 / 256;
    var x := ((n3 % 256 * 256 + n2 % 256) * 256 + n1 % 256) * 256 + n % 256;
    assert n == x + (n3 / 256) * U32;
    Wraps32(x, n3 / 256);
  }

  /** And they are the only four bytes that do. */
  lemma {:induction false} FromBigEndianRoundTrip(b: seq<byte>)
    requires |b| == 4
    ensures BigEndian32(FromBigEndian32(b)) == b
  {
    var b0: nat := b[0]; var b1: nat := b[1]; var b2: nat := b[2]; var b3: nat := b[3];
    Digits((b0 * 256 + b1) * 256 + b2, b3);
    Digits(b0 * 256 + b1, b2);
    Digits(b0, b1);
  }

  function Frame(message: seq<byte>): seq<byte> { [0] + BigEndian32(|message|) + message }

  function Unframe(framed: seq<byte>): Result<seq<byte>, GrpcError> {
    if |framed| < HEADER_LEN then Err(ShortFrame(|framed|))
    else if framed[0] != 0 then Err(Compressed(framed[0]))
    else
      var declared := FromBigEndian32(framed[1..5]);
      var actual := |framed| - HEADER_LEN;
      if actual < declared then Err(TruncatedFrame(declared, actual))
      else if actual > declared then Err(TrailingBytes(declared, actual))
      else Ok(framed[HEADER_LEN..])
  }

  /** A frame is a zero byte, the length in four bytes, the high ones first, and the message. */
  lemma {:induction false} FrameLayout(message: seq<byte>)
    requires |message| < U32
    ensures var f := Frame(message);
      && |f| == 5 + |message| && f[0] == 0 && f[5..] == message
      && f[1] as int * 0x100_0000 + f[2] as int * 0x1_0000 + f[3] as int * 0x100 + f[4] as int == |message|
  {
    BigEndianRoundTrip(|message|);
    assert |message| % U32 == |message| by { Wraps32(|message|, 0); }
    assert Frame(message)[1..5] == BigEndian32(|message|);
  }

  /** A framed message unframes to itself exactly if its length fits the 32-bit header. */
  lemma {:induction false} FrameRoundTrip(message: seq<byte>)
    ensures Unframe(Frame(message)) == Ok(message) <==> |message| < U32
  {
    var framed := Frame(message);
    assert framed[1..5] == BigEndian32(|message|);
    assert framed[5..] == message;
    BigEndianRoundTrip(|message|);
  }

  /** Whatever unframes is the frame of the message it gives. */
  lemma {:induction false} UnframeInverts(framed: seq<byte>)
    requires Unframe(framed).Ok?
    ensures Frame(Unframe(framed).value) == framed
  {
    var header := framed[1..5];
    var n := FromBigEndian32(header);
    FromBigEndianRoundTrip(header);
    assert framed == [framed[0]] + header + framed[5..];
  }

  /** A refusal says what is wrong with the frame, and with what numbers. */
  lemma {:induction false} UnframeRefusal(framed: seq<byte>)
    requires Unframe(framed).Err?
    ensures match Unframe(framed).error
      case ShortFrame(len) => len == |framed| < 5
      case Compressed(flag) => |framed| >= 5 && flag == framed[0] != 0
      case TruncatedFrame(declared, actual) =>
        |framed| == 5 + actual && framed[0] == 0 && framed[1..5] == BigEndian32(declared) && actual < declared
      case TrailingBytes(declared, actual) =>
        |framed| == 5 + actual && framed[0] == 0 && framed[1..5] == BigEndian32(declared) && actual > declared
      case Malformed(_) => false
  {
    if |framed| >= 5 {
      FromBigEndianRoundTrip(framed[1..5]);
    }
  }

  // ---------------------------------------------------------------------------
  // The call
  // ---------------------------------------------------------------------------

  /** `a.wrapping_add(b)`. */
  function WrappingAdd(a: int32, b: int32): int32 {
    var sum := a + b;
    if sum >= 0x8000_0000 then sum - U32 else if sum < -0x8000_0000 then sum + U32 else sum
  }

  predicate CongruentU32(x: int, y: int) { (x - y) % U32 == 0 }

  /** It is the `i32` congruent to the sum. */
  lemma {:induction false} WrapsToSum(a: int32, b: int32)
    ensures CongruentU32(WrappingAdd(a, b), a + b)
  {
    var zero, up: int := 0, U32;
    assert zero % U32 == 0 && up % U32 == 0 && (zero - up) % U32 == 0;
  }

  function GetSum(message: seq<byte>): Result<seq<byte>, GrpcError> {
    match Decode(message)
    case Err(e) => Err(Malformed(e))
    case Ok(request) => Ok([0x08] + WriteVarint(SignExtended(WrappingAdd(request.a, request.b))))
  }

  function Handle(framed: seq<byte>): Result<seq<byte>, GrpcError> {
    match Unframe(framed)
    case Err(e) => Err(e)
    case Ok(message) =>
      match GetSum(message)
      case Err(e) => Err(e)
      case Ok(reply) => Ok(Frame(reply))
  }

  /** An int32 field as an encoder writes it. */
  function IntField(number: nat, value: int32): Field
    requires number == 1 || number == 2
  {
    Field([8 * number], WriteVarint(SignExtended(value)))
  }

  lemma {:induction false} SmallTag(tag: byte)
    requires tag < 128
    ensures IsVarint([tag]) && Value([tag]) == tag
  {
    assert [tag][1..] == [] && Base128([]) == 0;
    assert Base128([tag]) == tag;
    Wraps(tag, 0);
  }

  lemma {:induction false} TagParts(number: nat)
    ensures (8 * number) / 8 == number && (8 * number) % 8 == 0
  {
  }

  lemma {:induction false} IntFieldIs(number: nat, value: int32)
    requires number == 1 || number == 2
    ensures var f := IntField(number, value);
      f.WellFormed() && f.Is(number) && LowBits(Value(f.payload)) == value
  {
    var f, v := IntField(number, value), SignExtended(value);
    SmallTag(8 * number);
    TagParts(number);
    WrittenReadsBack(v, []);
    assert Value(f.payload) == v by { Wraps(v, 0); }
    LowBitsUndoExtension(value);
  }

  /** What a call sees: the decoded message of the framed reply. */
  function Answer(framed: seq<byte>): Option<SumRequest> {
    match Handle(framed)
    case Err(_) => None
    case Ok(reply) =>
      match Unframe(reply)
      case Err(_) => None
      case Ok(message) =>
        match Decode(message)
        case Err(_) => None
        case Ok(answer) => Some(answer)
  }

  /** A call is answered by a framed reply that holds one `i32`, congruent to `sum` modulo 2^32. */
  ghost predicate AnsweredBy(answer: Option<SumRequest>, sum: int) {
    answer.Some? && answer.value.b == 0 && CongruentU32(answer.value.a, sum)
  }

  lemma {:induction false} HandleReplies(fields: seq<Field>, a: int32, b: int32)
    requires AllWellFormed(fields) && |Encoded(fields)| < U32
    requires LastValue(fields, 1, 0) == a && LastValue(fields, 2, 0) == b
    ensures Handle(Frame(Encoded(fields))) == Ok(Frame(Encoded([IntField(1, WrappingAdd(a, b))])))
  {
    FrameRoundTrip(Encoded(fields));
    DecodesFields(fields);
    var f := IntField(1, WrappingAdd(a, b));
    assert Encoded([f][1..]) == [];
    assert Encoded([f]) == f.tag + f.payload;
  }

  lemma {:induction false} ReplyDecodes(sum: int32)
    ensures Unframe(Frame(Encoded([IntField(1, sum)]))) == Ok(Encoded([IntField(1, sum)]))
    ensures Decode(Encoded([IntField(1, sum)])) == Ok(SumRequest(sum, 0))
  {
    var f := IntField(1, sum);
    IntFieldIs(1, sum);
    assert Encoded([f][1..]) == [];
    assert Encoded([f]) == f.tag + f.payload;
    DecodesFields([f]);
    assert [f][..0] == [];
    Int32Length(sum);
    FrameRoundTrip(Encoded([f]));
  }

  /**
  End to end: for every message under 2^32 bytes made of well-formed fields, in any order,
  with repeats and unknown fields, the framed reply unframes and decodes to the `i32` that is
  the two last values' sum modulo 2^32.
  */
  lemma {:induction false} FramedCallSums(fields: seq<Field>)
    requires AllWellFormed(fields) && |Encoded(fields)| < U32
    ensures AnsweredBy(Answer(Frame(Encoded(fields))), LastValue(fields, 1, 0) + LastValue(fields, 2, 0))
  {
    var a, b := LastValue(fields, 1, 0), LastValue(fields, 2, 0);
    HandleReplies(fields, a, b);
    ReplyDecodes(WrappingAdd(a, b));
    WrapsToSum(a, b);
  }

  /** And nothing else is answered: such a request is the frame of well-formed fields. */
  lemma {:induction false} AnswersOnlyMessages(framed: seq<byte>) returns (fields: seq<Field>)
    requires Handle(framed).Ok?
    ensures AllWellFormed(fields) && |Encoded(fields)| < U32 && framed == Frame(Encoded(fields))
  {
    var message := Unframe(framed).value;
    UnframeInverts(framed);
    FrameRoundTrip(message);
    fields := DecodesOnlyFields(message);
  }

  /** A request as an encoder writes it: field 1, then field 2. */
  function PlainRequest(a: int32, b: int32): seq<byte> {
    [0x08] + WriteVarint(SignExtended(a)) + [0x10] + WriteVarint(SignExtended(b))
  }

  lemma {:induction false} PlainFields(a: int32, b: int32)
    ensures Encoded([IntField(1, a), IntField(2, b)]) == PlainRequest(a, b)
    ensures |PlainRequest(a, b)| < U32
  {
    var fa, fb := IntField(1, a), IntField(2, b);
    Int32Length(a);
    Int32Length(b);
    assert [fa, fb][1..] == [fb] && [fb][1..] == [];
    assert Encoded([fb]) == fb.tag + fb.payload;
  }

  lemma {:induction false} PlainValues(a: int32, b: int32)
    ensures var fields := [IntField(1, a), IntField(2, b)];
      AllWellFormed(fields) && LastValue(fields, 1, 0) == a && LastValue(fields, 2, 0) == b
  {
    IntFieldIs(1, a);
    IntFieldIs(2, b);
    assert [IntField(1, a), IntField(2, b)][..1] == [IntField(1, a)] && [IntField(1, a)][..0] == [];
  }

  /** In particular a plain encoded request (a, b) is answered with a + b modulo 2^32. */
  lemma {:induction false} PlainCallSums(a: int32, b: int32)
    ensures AnsweredBy(Answer(Frame(PlainRequest(a, b))), a + b)
  {
    PlainFields(a, b);
    PlainValues(a, b);
    HandleReplies([IntField(1, a), IntField(2, b)], a, b);
    ReplyDecodes(WrappingAdd(a, b));
    WrapsToSum(a, b);
  }
}
