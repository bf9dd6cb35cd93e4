/**
The headers of a compressed response. A header map takes a name to the values of its lines,
in order; a value's characters stand for its bytes.
*/
module VaryHeader {
  import opened Splitting
  import opened Compression

  datatype HeaderName = ContentEncoding | ContentLength | Vary | OtherHeader(name: string)

  type Headers = map<HeaderName, seq<string>>

  const ACCEPT_ENCODING := "Accept-Encoding"

  function LinesOf(headers: Headers, name: HeaderName): seq<string> {
    if name in headers then headers[name] else []
  }

  /** Whether a value is readable as text: visible ASCII, spaces and tabs. */
  predicate IsText(value: string) {
    forall i :: 0 <= i < |value| ==> ' ' <= value[i] <= '~' || value[i] == '\t'
  }

  /** Whether some list element of a text value is `token`, in any case. */
  predicate Names(value: string, token: string) {
    IsText(value) && exists p :: p in Split(value, ',') && Lower(Trim(p)) == Lower(token)
  }

  predicate SomeLineNames(lines: seq<string>, token: string) {
    exists line :: line in lines && Names(line, token)
  }

  /** `only` without trailing blanks and commas, and the new token. */
  function Merged(only: string, token: string): string {
    TrimEnd(TrimCommas(TrimEnd(only))) + [','] + ([' '] + token)
  }

  /** The `Vary` lines after marking: as they were, merged into a lone text line, or with one more. */
  function VaryAfter(lines: seq<string>, token: string): seq<string> {
    if SomeLineNames(lines, token) then lines
    else if |lines| == 1 && IsText(lines[0]) then [Merged(lines[0], token)]
    else lines + [token]
  }

  function Marked(headers: Headers, encoding: string, token: string): Headers {
    var h := headers[ContentEncoding := [encoding]] - {ContentLength};
    h[Vary := VaryAfter(LinesOf(h, Vary), token)]
  }

  /** The response's headers, edited in place as the source does. */
  class HeaderMap {
    var headers: Headers

    constructor (headers: Headers)
      ensures this.headers == headers
    {
      this.headers := headers;
    }

    method SetCompressionHeaders(encoding: string)
      modifies this
      ensures headers == Marked(old(headers), encoding, ACCEPT_ENCODING)
    {
      MarkWith(encoding, ACCEPT_ENCODING);
    }

    method MarkWith(encoding: string, token: string)
      modifies this
      ensures headers == Marked(old(headers), encoding, token)
    {
      headers := headers[ContentEncoding := [encoding]];
      headers := headers - {ContentLength};
      var lines := LinesOf(headers, Vary);
      if SomeLineNames(lines, token) {
        assert headers[Vary := lines] == headers;
        return;
      }
      if |lines| == 1 && IsText(lines[0]) {
        headers := headers[Vary := [Merged(lines[0], token)]];
      } else {
        headers := headers[Vary := lines + [token]];
      }
    }
  }

  // ---------------------------------------------------------------------------
  // Tokens
  // ---------------------------------------------------------------------------

  /** The tokens of list pieces, lower-cased; empty pieces are no tokens. */
  function TokensOf(pieces: seq<string>): set<string> {
    set p | p in pieces && Trim(p) != [] :: Lower(Trim(p))
  }

  function Tokens(value: string): set<string> { TokensOf(Split(value, ',')) }

  /** The tokens of all `Vary` lines. */
  function VaryTokens(lines: seq<string>): set<string> {
    set line, p | line in lines && p in Split(line, ',') && Trim(p) != [] :: Lower(Trim(p))
  }

  lemma {:induction false} TokensAppend(a: string, b: string)
    ensures Tokens(a + [','] + b) == Tokens(a) + Tokens(b)
  {
    SplitAppend(a, ',', b);
    var pa, pb := Split(a, ','), Split(b, ',');
    assert forall p :: p in pa + pb <==> p in pa || p in pb;
  }

  lemma {:induction false} VaryTokensOne(line: string)
    ensures VaryTokens([line]) == Tokens(line)
  {
    assert line in [line];
  }

  lemma {:induction false} VaryTokensAppend(lines: seq<string>, line: string)
    ensures VaryTokens(lines + [line]) == VaryTokens(lines) + Tokens(line)
  {
    var all := lines + [line];
    assert forall l :: l in all <==> l in lines || l == line;
  }

  /** A blank at the end changes only the last piece, by that blank. */
  lemma {:induction false} SplitBlank(s: string, c: char)
    requires c != ','
    ensures Split(s + [c], ',') == WithLast(Split(s, ','), c)
  {
    if s == [] {
      SplitOne([c], ',');
      assert s + [c] == [c];
      assert WithLast(Split(s, ','), c) == [[c]];
    } else {
      assert (s + [c])[1..] == s[1..] + [c];
      SplitBlank(s[1..], c);
      WithLastFirst(s[0], Split(s[1..], ','), c);
    }
  }

  /** `pieces` with `c` added to the last. */
  function WithLast(pieces: seq<string>, c: char): (r: seq<string>)
    requires pieces != []
    ensures |r| == |pieces|
  {
    pieces[|pieces| - 1 := pieces[|pieces| - 1] + [c]]
  }

  lemma {:induction false} WithLastFirst(x: char, rest: seq<string>, c: char)
    requires rest != []
    ensures [[]] + WithLast(rest, c) == WithLast([[]] + rest, c)
    ensures [[x] + WithLast(rest, c)[0]] + WithLast(rest, c)[1..] == WithLast([[x] + rest[0]] + rest[1..], c)
  {
    var n := |rest| - 1;
    if n == 0 {
      assert [x] + (rest[0] + [c]) == [x] + rest[0] + [c];
    }
  }

  /** Pieces that differ in the last, and there only by blanks, have the same tokens. */
  lemma {:induction false} TokensOfLast(init: seq<string>, last: string, last': string)
    requires Trim(last) == Trim(last')
    ensures TokensOf(init + [last]) == TokensOf(init + [last'])
  {
    assert forall p :: p in init + [last] <==> p in init || p == last;
    assert forall p :: p in init + [last'] <==> p in init || p == last';
  }

  lemma {:induction false} TokensBlank(s: string, c: char)
    requires IsSpace(c)
    ensures Tokens(s + [c]) == Tokens(s)
  {
    SplitBlank(s, c);
    var pieces := Split(s, ',');
    var n := |pieces| - 1;
    var init, last := pieces[..n], pieces[n];
    assert Trim(last + [c]) == Trim(last) by {
      assert (last + [c])[..|last|] == last;
    }
    assert pieces == init + [last] && WithLast(pieces, c) == init + [last + [c]];
    TokensOfLast(init, last, last + [c]);
  }

  lemma {:induction false} TokensOfNothing()
    ensures Tokens([]) == {}
  {
    assert Trim([]) == [];
  }

  lemma {:induction false} TokensTrimEnd(s: string)
    ensures Tokens(TrimEnd(s)) == Tokens(s)
  {
    if s != [] && IsSpace(s[|s| - 1]) {
      TokensTrimEnd(s[..|s| - 1]);
      TokensBlank(s[..|s| - 1], s[|s| - 1]);
      assert s == s[..|s| - 1] + [s[|s| - 1]];
    }
  }

  lemma {:induction false} TokensTrimCommas(s: string)
    ensures Tokens(TrimCommas(s)) == Tokens(s)
  {
    if s != [] && s[|s| - 1] == ',' {
      var before := s[..|s| - 1];
      TokensTrimCommas(before);
      TokensAppend(before, []);
      TokensOfNothing();
      assert s == before + [','] + [];
    }
  }

  /** One element of a list, as it is usually written: no blank and no comma in it. */
  predicate IsToken(token: string) {
    token != [] && ',' !in token && forall i :: 0 <= i < |token| ==> ' ' < token[i] <= '~'
  }

  lemma {:induction false} AcceptEncodingIsToken()
    ensures IsToken(ACCEPT_ENCODING)
  {
  }

  /** A token is its own only element, with or without a blank before it. */
  lemma {:induction false} TokenAlone(token: string)
    requires IsToken(token)
    ensures Trim(token) == token && Trim([' '] + token) == token
    ensures Split(token, ',') == [token] && Split([' '] + token, ',') == [[' '] + token]
    ensures Tokens(token) == {Lower(token)} && Tokens([' '] + token) == {Lower(token)}
  {
    var spaced := [' '] + token;
    assert spaced[|spaced| - 1] == token[|token| - 1];
    assert TrimEnd(spaced) == spaced && spaced[1..] == token;
    SplitOne(token, ',');
    SplitOne(spaced, ',');
    assert token in [token] && spaced in [spaced];
  }

  lemma {:induction false} MergedTokens(only: string, token: string)
    requires IsToken(token)
    ensures Tokens(Merged(only, token)) == Tokens(only) + {Lower(token)}
  {
    TokensTrimEnd(only);
    TokensTrimCommas(TrimEnd(only));
    TokensTrimEnd(TrimCommas(TrimEnd(only)));
    TokensAppend(TrimEnd(TrimCommas(TrimEnd(only))), [' '] + token);
    TokenAlone(token);
  }

  lemma {:induction false} NamedIsToken(lines: seq<string>, token: string)
    requires token != [] && SomeLineNames(lines, token)
    ensures Lower(token) in VaryTokens(lines)
  {
    var line :| line in lines && Names(line, token);
    var p :| p in Split(line, ',') && Lower(Trim(p)) == Lower(token);
    LowerAt(token);
    LowerAt(Trim(p));
  }

  /**
  However many `Vary` lines there are and however they are written: after marking, their
  tokens are exactly the old ones and the new one.
  */
  lemma {:induction false} VaryGainsToken(lines: seq<string>, token: string)
    requires IsToken(token)
    ensures VaryTokens(VaryAfter(lines, token)) == VaryTokens(lines) + {Lower(token)}
  {
    if SomeLineNames(lines, token) {
      NamedIsToken(lines, token);
    } else if |lines| == 1 && IsText(lines[0]) {
      MergedTokens(lines[0], token);
      VaryTokensOne(Merged(lines[0], token));
      VaryTokensOne(lines[0]);
      assert lines == [lines[0]];
    } else {
      VaryTokensAppend(lines, token);
      TokenAlone(token);
    }
  }

  lemma {:induction false} TrimsAreText(s: string)
    requires IsText(s)
    ensures IsText(TrimEnd(s)) && IsText(TrimCommas(s))
  {
    if s != [] {
      if IsSpace(s[|s| - 1]) { TrimsAreText(s[..|s| - 1]); }
      if s[|s| - 1] == ',' { TrimsAreText(s[..|s| - 1]); }
    }
  }

  lemma {:induction false} MergedIsText(only: string, token: string)
    requires IsText(only) && IsText(token)
    ensures IsText(Merged(only, token))
  {
    TrimsAreText(only);
    TrimsAreText(TrimEnd(only));
    TrimsAreText(TrimCommas(TrimEnd(only)));
  }

  lemma {:induction false} MergedNames(only: string, token: string)
    requires IsText(only) && IsToken(token)
    ensures Names(Merged(only, token), token)
  {
    MergedIsText(only, token);
    var kept, spaced := TrimEnd(TrimCommas(TrimEnd(only))), [' '] + token;
    SplitAppend(kept, ',', spaced);
    TokenAlone(token);
    assert spaced in Split(kept, ',') + [spaced];
  }

  /** Once marked, some text line names the token, so marking again finds it. */
  lemma {:induction false} MarkedLinesName(lines: seq<string>, token: string)
    requires IsToken(token)
    ensures SomeLineNames(VaryAfter(lines, token), token)
  {
    if SomeLineNames(lines, token) {
    } else if |lines| == 1 && IsText(lines[0]) {
      MergedNames(lines[0], token);
      assert Merged(lines[0], token) in VaryAfter(lines, token);
    } else {
      TokenAlone(token);
      assert token in [token];
      assert Names(token, token);
      assert VaryAfter(lines, token)[|lines|] == token;
    }
  }

  /** Marking sets the encoding, drops the length, adds the token to `Vary`, keeps the rest, and is idempotent. */
  lemma {:induction false} MarkingWith(headers: Headers, encoding: string, token: string)
    requires IsToken(token)
    ensures var after := Marked(headers, encoding, token);
      && LinesOf(after, ContentEncoding) == [encoding] && ContentLength !in after
      && VaryTokens(LinesOf(after, Vary)) == VaryTokens(LinesOf(headers, Vary)) + {Lower(token)}
      && (forall name :: LinesOf(after, OtherHeader(name)) == LinesOf(headers, OtherHeader(name)))
      && Marked(after, encoding, token) == after
  {
    var lines := LinesOf(headers, Vary);
    var after := Marked(headers, encoding, token);
    VaryGainsToken(lines, token);
    MarkedLinesName(lines, token);
    assert after[ContentEncoding := [encoding]] - {ContentLength} == after;
    assert after[Vary := LinesOf(after, Vary)] == after;
  }

  /**
  A compressed response's headers: the encoding is set, the length is gone, every other
  header is as it was, the `Vary` tokens are exactly the old ones and `Accept-Encoding`,
  and marking a second time changes nothing.
  */
  lemma {:induction false} MarkingIsExact(headers: Headers, encoding: string)
    ensures var after := Marked(headers, encoding, ACCEPT_ENCODING);
      && LinesOf(after, ContentEncoding) == [encoding] && ContentLength !in after
      && VaryTokens(LinesOf(after, Vary)) == VaryTokens(LinesOf(headers, Vary)) + {Lower(ACCEPT_ENCODING)}
      && (forall name :: LinesOf(after, OtherHeader(name)) == LinesOf(headers, OtherHeader(name)))
      && Marked(after, encoding, ACCEPT_ENCODING) == after
  {
    AcceptEncodingIsToken();
    MarkingWith(headers, encoding, ACCEPT_ENCODING);
  }

  predicate AllCommas(s: string) { forall i :: 0 <= i < |s| ==> s[i] == ',' }

  lemma {:induction false} TrimCommasOf(s: string, commas: string)
    requires AllCommas(commas) && (s != [] ==> s[|s| - 1] != ',')
    ensures TrimCommas(s + commas) == s
  {
    if commas == [] {
      assert s + commas == s;
    } else {
      var n := |commas| - 1;
      assert (s + commas)[..|s| + n] == s + commas[..n];
      TrimCommasOf(s, commas[..n]);
    }
  }

  /** Merging writes the line without the blanks and commas it ends in, then a comma, a space and the token. */
  lemma {:induction false} MergedReads(kept: string, mid: string, commas: string, after: string, token: string)
    requires kept != [] && kept[|kept| - 1] > ' ' && kept[|kept| - 1] != ','
    requires AllBlank(mid) && AllCommas(commas) && AllBlank(after) && (commas == [] ==> mid == [])
    ensures Merged(kept + mid + commas + after, token) == kept + [',', ' '] + token
  {
    var line := kept + mid + commas;
    TrimEndBlank(line, after);
    assert mid != [] ==> (kept + mid)[|kept + mid| - 1] == mid[|mid| - 1];
    TrimCommasOf(kept + mid, commas);
    TrimEndBlank(kept, mid);
  }

  /** A byte no text has: a control character but tab, or one past `~`. */
  predicate HasOpaqueByte(line: string) {
    exists i :: 0 <= i < |line| && (line[i] > '~' || (line[i] < ' ' && line[i] != '\t'))
  }

  /**
  Which lines change: none exactly if a line of text already has the token, in any case; a lone
  line of text is rewritten; and a line with bytes that are no text is never touched.
  */
  lemma {:induction false} LinesChange(lines: seq<string>, token: string)
    requires IsToken(token)
    ensures VaryAfter(lines, token) == lines
       <==> exists line :: line in lines && !HasOpaqueByte(line) && Lower(token) in Tokens(line)
    ensures VaryAfter(lines, token) != lines ==>
      if |lines| == 1 && !HasOpaqueByte(lines[0]) then |VaryAfter(lines, token)| == 1
      else VaryAfter(lines, token) == lines + [token]
  {
    LowerAt(token);
    forall line ensures Names(line, token) <==> !HasOpaqueByte(line) && Lower(token) in Tokens(line) {
      NamesIffToken(line, token);
    }
    if |lines| == 1 && IsText(lines[0]) && !SomeLineNames(lines, token) {
      MergedNames(lines[0], token);
      assert lines[0] in lines;
    }
  }

  lemma {:induction false} NamesIffToken(line: string, token: string)
    requires token != []
    ensures Names(line, token) <==> !HasOpaqueByte(line) && Lower(token) in Tokens(line)
  {
    LowerAt(token);
    if p :| p in Split(line, ',') && Lower(Trim(p)) == Lower(token) {
      LowerAt(Trim(p));
    }
  }
}
