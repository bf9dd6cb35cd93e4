/**
From a request path to a candidate file path: percent-decode, split at `/`, and push only
plain names under the root. A path is the sequence of its components.
*/
module CandidatePath {
  import opened Common
  import opened Splitting

  const NUL: byte := 0
  const PERCENT: byte := '%' as int
  const DOT: byte := '.' as int
  const SLASH: byte := '/' as int

  datatype StaticError = NulByte | Traversal

  // ---------------------------------------------------------------------------
  // Percent-decoding
  // ---------------------------------------------------------------------------

  predicate IsHex(b: byte) { 48 <= b <= 57 || 65 <= b <= 70 || 97 <= b <= 102 }

  function HexValue(b: byte): (v: nat)
    requires IsHex(b)
    ensures v < 16
  {
    if b <= 57 then b - 48 else if b <= 70 then b - 55 else b - 87
  }

  /** A `%` without two hex digits after it stands for itself. */
  function PercentDecode(s: seq<byte>): seq<byte> {
    if s == [] then []
    else if s[0] == PERCENT && |s| >= 3 && IsHex(s[1]) && IsHex(s[2]) then
      [16 * HexValue(s[1]) + HexValue(s[2])] + PercentDecode(s[3..])
    else [s[0]] + PercentDecode(s[1..])
  }

  /** The hex digit of `v`, as it is written in either case. */
  function Digit(v: nat, upper: bool): byte
    requires v < 16
  {
    if v < 10 then '0' as int + v else if upper then 'A' as int + (v - 10) else 'a' as int + (v - 10)
  }

  ghost predicate IsDigit(b: byte) {
    exists v: nat, upper: bool :: v < 16 && Digit(v, upper) == b
  }

  lemma {:induction false} DigitsRead(v: nat, upper: bool)
    requires v < 16
    ensures IsHex(Digit(v, upper)) && HexValue(Digit(v, upper)) == v
  {
  }

  lemma {:induction false} HexIsDigit(b: byte)
    ensures IsHex(b) <==> IsDigit(b)
    ensures IsHex(b) ==> Digit(HexValue(b), 65 <= b <= 70) == b
  {
    if IsHex(b) {
      assert Digit(HexValue(b), 65 <= b <= 70) == b;
    }
    if IsDigit(b) {
      var v: nat, upper: bool :| v < 16 && Digit(v, upper) == b;
      DigitsRead(v, upper);
    }
  }

  /** One byte as it can be spelled: itself, or `%` and its two hex digits, each in either case. */
  datatype Spelled = Literal(b: byte) | Escaped(b: byte, upperHigh: bool, upperLow: bool) {
    function Text(): seq<byte> {
      match this
      case Literal(b) => [b]
      case Escaped(b, upperHigh, upperLow) => [PERCENT, Digit(b / 16, upperHigh), Digit(b % 16, upperLow)]
    }
  }

  function TextOf(spelling: seq<Spelled>): seq<byte> {
    if spelling == [] then [] else spelling[0].Text() + TextOf(spelling[1..])
  }

  /** The bytes spelled. */
  function MeaningOf(spelling: seq<Spelled>): seq<byte> {
    if spelling == [] then [] else [spelling[0].b] + MeaningOf(spelling[1..])
  }

  /** Two hex digits are in front. */
  ghost predicate DigitsInFront(text: seq<byte>) { |text| >= 2 && IsDigit(text[0]) && IsDigit(text[1]) }

  /** A `%` may stand for itself where no two hex digits follow it. */
  ghost predicate IsSpelling(spelling: seq<Spelled>) {
    spelling != [] ==>
      && IsSpelling(spelling[1..])
      && (spelling[0] == Literal(PERCENT) ==> !DigitsInFront(TextOf(spelling[1..])))
  }

  lemma {:induction false} DecodesEscaped(b: byte, upperHigh: bool, upperLow: bool, rest: seq<byte>)
    ensures PercentDecode([PERCENT, Digit(b / 16, upperHigh), Digit(b % 16, upperLow)] + rest)
         == [b] + PercentDecode(rest)
  {
    var first := [PERCENT, Digit(b / 16, upperHigh), Digit(b % 16, upperLow)];
    DigitsRead(b / 16, upperHigh);
    DigitsRead(b % 16, upperLow);
    assert (first + rest)[3..] == rest;
  }

  lemma {:induction false} DecodesLiteral(b: byte, rest: seq<byte>)
    requires b == PERCENT ==> !DigitsInFront(rest)
    ensures PercentDecode([b] + rest) == [b] + PercentDecode(rest)
  {
    assert ([b] + rest)[1..] == rest;
    if |rest| >= 2 {
      HexIsDigit(rest[0]);
      HexIsDigit(rest[1]);
    }
  }

  /**
  Decoding undoes any mix of literal and escaped spelling, digits in either case, a `%` that
  no two hex digits follow included.
  */
  lemma {:induction false} DecodesSpelling(spelling: seq<Spelled>)
    requires IsSpelling(spelling)
    ensures PercentDecode(TextOf(spelling)) == MeaningOf(spelling)
  {
    if spelling != [] {
      DecodesSpelling(spelling[1..]);
      match spelling[0]
      case Literal(b) => DecodesLiteral(b, TextOf(spelling[1..]));
      case Escaped(b, upperHigh, upperLow) => DecodesEscaped(b, upperHigh, upperLow, TextOf(spelling[1..]));
    }
  }

  /** And every text is such a spelling, so this is all there is to decoding. */
  lemma {:induction false} EveryTextIsSpelled(text: seq<byte>) returns (spelling: seq<Spelled>)
    ensures IsSpelling(spelling) && TextOf(spelling) == text
    decreases |text|
  {
    if text == [] {
      spelling := [];
    } else {
      var first, rest := FirstSpelled(text);
      var more := EveryTextIsSpelled(rest);
      spelling := [first] + more;
      assert spelling[1..] == more;
    }
  }

  lemma {:induction false} FirstSpelled(text: seq<byte>) returns (first: Spelled, rest: seq<byte>)
    requires text != []
    ensures text == first.Text() + rest && |rest| < |text|
    ensures first == Literal(PERCENT) ==> !DigitsInFront(rest)
  {
    first, rest := Literal(text[0]), text[1..];
    if |text| >= 3 {
      HexIsDigit(text[1]);
      HexIsDigit(text[2]);
      if text[0] == PERCENT && IsHex(text[1]) && IsHex(text[2]) {
        var high, low := HexValue(text[1]), HexValue(text[2]);
        var b: byte := 16 * high + low;
        assert b / 16 == high && b % 16 == low;
        first, rest := Escaped(b, 65 <= text[1] <= 70, 65 <= text[2] <= 70), text[3..];
      }
    }
  }

  // ---------------------------------------------------------------------------
  // The candidate
  // ---------------------------------------------------------------------------

  predicate IsSkipped(segment: seq<byte>) { segment == [] || segment == [DOT] }

  /** The segments that name something, in order. */
  function Names(segments: seq<seq<byte>>): seq<seq<byte>> {
    if segments == [] then []
    else (if IsSkipped(segments[0]) then [] else [segments[0]]) + Names(segments[1..])
  }

  lemma {:induction false} NamesSnoc(segments: seq<seq<byte>>, segment: seq<byte>)
    ensures Names(segments + [segment]) == Names(segments) + (if IsSkipped(segment) then [] else [segment])
  {
    if segments != [] {
      assert (segments + [segment])[1..] == segments[1..] + [segment];
      NamesSnoc(segments[1..], segment);
    }
  }

  lemma {:induction false} NamesFrom(segments: seq<seq<byte>>)
    ensures forall n :: n in Names(segments) ==> n in segments && !IsSkipped(n)
  {
    if segments != [] {
      NamesFrom(segments[1..]);
    }
  }

  /** Not a climb, not the directory itself, one component, no NUL: it moves one level down. */
  predicate IsPlainName(name: seq<byte>) {
    name != [] && name != [DOT] && name != [DOT, DOT] && SLASH !in name && NUL !in name
  }

  /**
  Refused exactly for a NUL or a `..` segment after decoding; otherwise the root and the
  decoded names, in order, each of which is plain, so the result is inside the root.
  */
  method CandidatePath(root: seq<seq<byte>>, rel: seq<byte>) returns (r: Result<seq<seq<byte>>, StaticError>)
    ensures r == Err(NulByte) <==> NUL in PercentDecode(rel)
    ensures r == Err(Traversal) <==>
              NUL !in PercentDecode(rel) && [DOT, DOT] in Split(PercentDecode(rel), SLASH)
    ensures r.Ok? ==> r.value == root + Names(Split(PercentDecode(rel), SLASH))
    ensures r.Ok? ==> forall i :: |root| <= i < |r.value| ==> IsPlainName(r.value[i])
  {
    var decoded := PercentDecode(rel);
    if NUL in decoded {
      return Err(NulByte);
    }
    var segments := Split(decoded, SLASH);
    var path := root;
    for i := 0 to |segments|
      invariant path == root + Names(segments[..i])
      invariant [DOT, DOT] !in segments[..i]
    {
      assert segments[..i + 1] == segments[..i] + [segments[i]];
      NamesSnoc(segments[..i], segments[i]);
      if segments[i] == [DOT, DOT] {
        return Err(Traversal);
      }
      if !IsSkipped(segments[i]) {
        path := path + [segments[i]];
      }
    }
    assert segments[..|segments|] == segments;
    PlainNames(decoded);
    return Ok(path);
  }

  lemma {:induction false} PlainNames(decoded: seq<byte>)
    requires NUL !in decoded && [DOT, DOT] !in Split(decoded, SLASH)
    ensures forall n :: n in Names(Split(decoded, SLASH)) ==> IsPlainName(n)
  {
    var segments := Split(decoded, SLASH);
    JoinSplit(decoded, SLASH);
    PiecesHoldNoSeparator(decoded, SLASH);
    NamesFrom(segments);
    forall n | n in Names(segments) ensures IsPlainName(n) {
      var i :| 0 <= i < |segments| && segments[i] == n;
      InJoined(segments, i);
    }
  }

  lemma {:induction false} InJoined(segments: seq<seq<byte>>, i: nat)
    requires i < |segments|
    ensures forall b :: b in segments[i] ==> b in Join(segments, SLASH)
  {
    if i > 0 {
      InJoined(segments[1..], i - 1);
    }
  }

  lemma {:induction false} NamesOfPlain(names: seq<seq<byte>>)
    requires forall i :: 0 <= i < |names| ==> IsPlainName(names[i])
    ensures Names(names) == names
  {
    if names != [] {
      assert forall i :: 0 <= i < |names[1..]| ==> names[1..][i] == names[i + 1];
      NamesOfPlain(names[1..]);
      assert !IsSkipped(names[0]) && names == [names[0]] + names[1..];
    }
  }

  /**
  Every spelling of a list of plain names joined by slashes, with any byte (a slash too)
  literal or escaped, leads to the root and exactly those names.
  */
  lemma {:induction false} AnySpellingFindsTheNames(names: seq<seq<byte>>, spelling: seq<Spelled>)
    requires forall i :: 0 <= i < |names| ==> IsPlainName(names[i])
    requires IsSpelling(spelling) && MeaningOf(spelling) == Join(names, SLASH)
    ensures NUL !in PercentDecode(TextOf(spelling))
    ensures [DOT, DOT] !in Split(PercentDecode(TextOf(spelling)), SLASH)
    ensures Names(Split(PercentDecode(TextOf(spelling)), SLASH)) == names
  {
    DecodesSpelling(spelling);
    NoNul(names);
    if names != [] {
      SplitJoin(names, SLASH);
      NamesOfPlain(names);
    }
  }

  lemma {:induction false} NoNul(names: seq<seq<byte>>)
    requires forall i :: 0 <= i < |names| ==> NUL !in names[i]
    ensures NUL !in Join(names, SLASH)
  {
    if |names| > 1 {
      assert forall i :: 0 <= i < |names[1..]| ==> names[1..][i] == names[i + 1];
      NoNul(names[1..]);
    }
  }
}
