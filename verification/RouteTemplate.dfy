/** Route path templates: their parameter names, and the `:name` mistake they refuse. */
module RouteTemplate {
  import opened Common
  import opened Splitting

  datatype TemplateError = ColonParam(name: string)

  predicate StartsIdentifier(c: char) { 'a' <= c <= 'z' || 'A' <= c <= 'Z' || c == '_' }

  /** `name` for a segment `:name`, an identifier after the colon. */
  function ColonParamOf(segment: string): Option<string> {
    if |segment| > 1 && segment[0] == ':' && StartsIdentifier(segment[1]) then Some(segment[1..]) else None
  }

  /** Index of the first `c`, or the length. */
  function Find(s: string, c: char): (i: nat)
    ensures i <= |s| && (i < |s| ==> s[i] == c) && forall j :: 0 <= j < i ==> s[j] != c
  {
    if s == [] || s[0] == c then 0 else 1 + Find(s[1..], c)
  }

  function Starless(name: string): string { if name != [] && name[0] == '*' then name[1..] else name }

  /** The names the brace scan finds. */
  function NamesIn(rest: string): seq<string>
    decreases |rest|
  {
    var open := Find(rest, '{');
    if open == |rest| then [] else NamesAfter(rest[open + 1..])
  }

  /** The names found after an opening brace. */
  function NamesAfter(after: string): seq<string>
    decreases |after|
  {
    if after != [] && after[0] == '{' then NamesIn(after[1..])
    else
      var close := Find(after, '}');
      if close == |after| then [] else [Starless(after[..close])] + NamesIn(after[close + 1..])
  }

  /** The first `:name` segment, if any. */
  function FirstColonParam(segments: seq<string>): Option<string> {
    if segments == [] then None
    else if ColonParamOf(segments[0]).Some? then ColonParamOf(segments[0])
    else FirstColonParam(segments[1..])
  }

  /** The source's loop over `rest` and `names`. */
  method TemplateParams(path: string) returns (r: Result<seq<string>, TemplateError>)
    ensures r == Params(path)
  {
    var colon := FirstColonParam(Split(path, '/'));
    if colon.Some? {
      return Err(ColonParam(colon.value));
    }
    var names := ScanNames(path);
    return Ok(names);
  }

  /** Its scan for braces. */
  method ScanNames(path: string) returns (names: seq<string>)
    ensures names == NamesIn(path)
  {
    names := [];
    var rest := path;
    while true
      invariant names + NamesIn(rest) == NamesIn(path)
      decreases |rest|
    {
      var open := Find(rest, '{');
      if open == |rest| { return; }
      var after := rest[open + 1..];
      assert NamesIn(rest) == NamesAfter(after);
      if after != [] && after[0] == '{' {
        rest := after[1..];
        continue;
      }
      var close := Find(after, '}');
      if close == |after| { return; }
      var name := Starless(after[..close]);
      rest := after[close + 1..];
      assert names + ([name] + NamesIn(rest)) == names + [name] + NamesIn(rest);
      names := names + [name];
    }
  }

  /** What `template_params` answers. */
  function Params(path: string): Result<seq<string>, TemplateError> {
    match FirstColonParam(Split(path, '/'))
    case Some(name) => Err(ColonParam(name))
    case None => Ok(NamesIn(path))
  }

  /** A segment is a `:name` exactly if it is a colon and a name that starts with a letter or `_`. */
  lemma {:induction false} ColonParamIs(segment: string, name: string)
    ensures ColonParamOf(segment) == Some(name) <==>
      && segment == [':'] + name && name != []
      && (name[0] == '_' || 'a' <= name[0] <= 'z' || 'A' <= name[0] <= 'Z')
  {
    if |segment| > 1 {
      assert segment == [segment[0]] + segment[1..];
    }
    if name != [] {
      assert ([':'] + name)[1..] == name && ([':'] + name)[1] == name[0];
    }
  }

  /** A path is refused exactly if some segment is a `:name`, and for the first such segment. */
  lemma {:induction false} RefusesFirstColonParam(segments: seq<string>)
    ensures FirstColonParam(segments).Some? <==> exists i :: 0 <= i < |segments| && ColonParamOf(segments[i]).Some?
    ensures FirstColonParam(segments).Some? ==>
              exists i :: 0 <= i < |segments| && ColonParamOf(segments[i]) == FirstColonParam(segments)
                       && forall j :: 0 <= j < i ==> ColonParamOf(segments[j]).None?
  {
    if segments != [] {
      RefusesFirstColonParam(segments[1..]);
      assert forall i :: 0 <= i < |segments[1..]| ==> segments[1..][i] == segments[i + 1];
      if ColonParamOf(segments[0]).None? && FirstColonParam(segments[1..]).Some? {
        var i :| 0 <= i < |segments[1..]| && ColonParamOf(segments[1..][i]) == FirstColonParam(segments[1..])
               && forall j :: 0 <= j < i ==> ColonParamOf(segments[1..][j]).None?;
        assert ColonParamOf(segments[i + 1]) == FirstColonParam(segments);
        forall j | 0 <= j < i + 1 ensures ColonParamOf(segments[j]).None? {
          if j > 0 { assert segments[j] == segments[1..][j - 1]; }
        }
      }
    }
  }

  // ---------------------------------------------------------------------------
  // Printing a template
  // ---------------------------------------------------------------------------

  datatype Piece = Literal(text: string) | Param(name: string) | CatchAll(name: string) {
    predicate Valid() {
      match this
      case Literal(_) => true
      case Param(name) => '}' !in name && (name != [] ==> name[0] != '{' && name[0] != '*')
      case CatchAll(name) => '}' !in name
    }

    function Print(): string {
      match this
      case Literal(text) => Doubled(text)
      case Param(name) => Braced(name)
      case CatchAll(name) => Braced(['*'] + name)
    }
  }

  function Braced(inner: string): string { ['{'] + inner + ['}'] }

  /** Literal text, its braces doubled. */
  function Doubled(text: string): string {
    if text == [] then []
    else (if text[0] == '{' || text[0] == '}' then [text[0], text[0]] else [text[0]]) + Doubled(text[1..])
  }

  function Printed(pieces: seq<Piece>): string {
    if pieces == [] then [] else pieces[0].Print() + Printed(pieces[1..])
  }

  function NamesOf(pieces: seq<Piece>): seq<string> {
    if pieces == [] then []
    else if pieces[0].Literal? then NamesOf(pieces[1..])
    else [pieces[0].name] + NamesOf(pieces[1..])
  }

  lemma {:induction false} FindAt(s: string, i: nat, c: char)
    requires i < |s| && s[i] == c && forall j :: 0 <= j < i ==> s[j] != c
    ensures Find(s, c) == i
  {
  }

  lemma {:induction false} FindLater(x: char, rest: string, c: char)
    requires x != c
    ensures Find([x] + rest, c) == 1 + Find(rest, c)
  {
    assert ([x] + rest)[1..] == rest;
  }

  lemma {:induction false} DropLater(x: char, rest: string, k: nat)
    requires k <= |rest|
    ensures ([x] + rest)[1 + k..] == rest[k..]
  {
  }

  lemma {:induction false} SkipsChar(c: char, rest: string)
    requires c != '{'
    ensures NamesIn([c] + rest) == NamesIn(rest)
  {
    FindLater(c, rest, '{');
    if Find(rest, '{') < |rest| {
      DropLater(c, rest, Find(rest, '{') + 1);
    }
  }

  lemma {:induction false} Opens(after: string)
    ensures NamesIn(['{'] + after) == NamesAfter(after)
  {
    FindAt(['{'] + after, 0, '{');
    assert (['{'] + after)[1..] == after;
  }

  /** A doubled brace of either kind is skipped. */
  lemma {:induction false} SkipsDoubled(c: char, rest: string)
    requires c == '{' || c == '}'
    ensures NamesIn([c, c] + rest) == NamesIn(rest)
  {
    if c == '{' {
      assert ['{', '{'] + rest == ['{'] + (['{'] + rest);
      Opens(['{'] + rest);
      assert (['{'] + rest)[1..] == rest;
    } else {
      SkipsChar('}', rest);
      SkipsChar('}', ['}'] + rest);
      assert ['}', '}'] + rest == ['}'] + (['}'] + rest);
    }
  }

  lemma {:induction false} DoubledFirst(text: string, rest: string)
    requires text != []
    ensures var c, tail := text[0], Doubled(text[1..]) + rest;
      Doubled(text) + rest == if c == '{' || c == '}' then [c, c] + tail else [c] + tail
  {
  }

  lemma {:induction false} SkipsLiteral(text: string, rest: string)
    ensures NamesIn(Doubled(text) + rest) == NamesIn(rest)
  {
    if text == [] {
      assert Doubled(text) + rest == rest;
    } else {
      var c, tail := text[0], Doubled(text[1..]) + rest;
      SkipsLiteral(text[1..], rest);
      DoubledFirst(text, rest);
      if c == '{' || c == '}' {
        SkipsDoubled(c, tail);
      } else {
        SkipsChar(c, tail);
      }
    }
  }

  lemma {:induction false} Closes(inner: string, rest: string)
    requires '}' !in inner && (inner != [] ==> inner[0] != '{')
    ensures NamesAfter(inner + (['}'] + rest)) == [Starless(inner)] + NamesIn(rest)
  {
    var after := inner + (['}'] + rest);
    FindAt(after, |inner|, '}');
    assert after[..|inner|] == inner && after[|inner| + 1..] == rest;
    assert after[0] != '{';
  }

  lemma {:induction false} TakesBraced(inner: string, rest: string)
    requires '}' !in inner && (inner != [] ==> inner[0] != '{')
    ensures NamesIn(Braced(inner) + rest) == [Starless(inner)] + NamesIn(rest)
  {
    assert Braced(inner) + rest == ['{'] + (inner + (['}'] + rest));
    Opens(inner + (['}'] + rest));
    Closes(inner, rest);
  }

  lemma {:induction false} ScansPiece(piece: Piece, rest: string)
    requires piece.Valid()
    ensures NamesIn(piece.Print() + rest)
         == if piece.Literal? then NamesIn(rest) else [piece.name] + NamesIn(rest)
  {
    if piece.Literal? {
      SkipsLiteral(piece.text, rest);
    } else if piece.Param? {
      TakesBraced(piece.name, rest);
    } else {
      TakesBraced(['*'] + piece.name, rest);
      assert Starless(['*'] + piece.name) == piece.name;
    }
  }

  lemma {:induction false} ScansPrinted(pieces: seq<Piece>)
    requires forall i :: 0 <= i < |pieces| ==> pieces[i].Valid()
    ensures NamesIn(Printed(pieces)) == NamesOf(pieces)
  {
    if pieces != [] {
      assert forall i :: 0 <= i < |pieces[1..]| ==> pieces[1..][i] == pieces[i + 1];
      ScansPrinted(pieces[1..]);
      ScansPiece(pieces[0], Printed(pieces[1..]));
    }
  }

  predicate HasColonParam(path: string) {
    exists i :: 0 <= i < |Split(path, '/')| && ColonParamOf(Split(path, '/')[i]).Some?
  }

  /**
  Printing any list of literals, parameters and catch-alls and scanning the template gives
  exactly the names, in order, if and only if the printed path has no `:name` segment.
  */
  lemma {:induction false} PrintedTemplateRoundTrip(pieces: seq<Piece>)
    requires forall i :: 0 <= i < |pieces| ==> pieces[i].Valid()
    ensures Params(Printed(pieces)) == Ok(NamesOf(pieces)) <==> !HasColonParam(Printed(pieces))
  {
    ScansPrinted(pieces);
    RefusesFirstColonParam(Split(Printed(pieces), '/'));
  }
}
