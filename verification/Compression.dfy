/**
Response compression: which coding an `Accept-Encoding` header and the app's settings share
(sections 12.4.2 and 12.5.3 of RFC 9110), and the headers of a compressed response (section
12.5.5 for `Vary`).
*/
module Compression {
  import opened Common
  import opened Splitting

  // ---------------------------------------------------------------------------
  // Text
  // ---------------------------------------------------------------------------

  predicate IsSpace(c: char) { c == ' ' || '\t' <= c <= '\r' }

  function TrimStart(s: string): string {
    if s != [] && IsSpace(s[0]) then TrimStart(s[1..]) else s
  }

  function TrimEnd(s: string): string {
    if s != [] && IsSpace(s[|s| - 1]) then TrimEnd(s[..|s| - 1]) else s
  }

  function Trim(s: string): string { TrimStart(TrimEnd(s)) }

  function TrimCommas(s: string): string {
    if s != [] && s[|s| - 1] == ',' then TrimCommas(s[..|s| - 1]) else s
  }

  function LowerChar(c: char): char { if 'A' <= c <= 'Z' then c + 32 as char else c }

  function Lower(s: string): string {
    if s == [] then [] else [LowerChar(s[0])] + Lower(s[1..])
  }

  /** The capitals become the small letters, the `k`-th the `k`-th, and nothing else changes. */
  lemma LowerIs(c: char, k: nat)
    ensures k < 26 && c as int == 'A' as int + k ==> LowerChar(c) as int == 'a' as int + k
    ensures c < 'A' || c > 'Z' ==> LowerChar(c) == c
  {
  }

  lemma {:induction false} LowerAt(s: string)
    ensures |Lower(s)| == |s| && forall i :: 0 <= i < |s| ==> Lower(s)[i] == LowerChar(s[i])
  {
    if s != [] {
      LowerAt(s[1..]);
    }
  }

  // ---------------------------------------------------------------------------
  // Accept-Encoding
  // ---------------------------------------------------------------------------

  /** A parsed weight; a float parser also reads `NaN` and negative numbers. */
  datatype Weight = NaN | Num(value: real)

  type WeightParser = string -> Option<Weight>

  datatype Element = Element(name: string, q: Weight)

  datatype Coding = Gzip | Brotli

  /** `value` of a parameter `q=value`, the `q` in either case. */
  function QValue(param: string): Option<string> {
    if |param| >= 2 && Lower(param[..2]) == "q=" then Some(param[2..]) else None
  }

  /** The first `q` parameter decides; a malformed one is 0, none at all is 1. */
  function WeightOf(parse: WeightParser, params: seq<string>): Weight {
    if params == [] then Num(1.0)
    else
      match QValue(Trim(params[0]))
      case None => WeightOf(parse, params[1..])
      case Some(value) =>
        match parse(Trim(value))
        case Some(q) => q
        case None => Num(0.0)
  }

  /** One list element; `None` for an empty one. */
  function ElementOf(parse: WeightParser, raw: string): Option<Element> {
    var part := Trim(raw);
    if part == [] then None
    else
      var pieces := Split(part, ';');
      if |pieces| == 1 then Some(Element(part, Num(1.0)))
      else Some(Element(Trim(pieces[0]), WeightOf(parse, pieces[1..])))
  }

  function Elements(parse: WeightParser, raws: seq<string>): seq<Element> {
    if raws == [] then []
    else
      var before := Elements(parse, raws[..|raws| - 1]);
      match ElementOf(parse, raws[|raws| - 1])
      case None => before
      case Some(e) => before + [e]
  }

  /** What a list element can name. */
  datatype Named = ABrotli | AGzip | AnyCoding | Other

  function NameOf(e: Element): Named {
    if Lower(e.name) == "br" then ABrotli
    else if Lower(e.name) == "gzip" || Lower(e.name) == "x-gzip" then AGzip
    else if e.name == "*" then AnyCoding
    else Other
  }

  /** `name` is the word, each of its letters in either case. */
  predicate Spells(name: string, small: string, capital: string)
    requires |small| == |capital|
  {
    |name| == |small| && forall i :: 0 <= i < |name| ==> name[i] == small[i] || name[i] == capital[i]
  }

  lemma {:induction false} SpellsIff(name: string, small: string, capital: string)
    requires |small| == |capital|
    requires forall i :: 0 <= i < |small| ==>
      || ('a' <= small[i] <= 'z' && small[i] as int == capital[i] as int + 32)
      || (small[i] == capital[i] && !('a' <= small[i] <= 'z') && !('A' <= small[i] <= 'Z'))
    ensures Lower(name) == small <==> Spells(name, small, capital)
  {
    LowerAt(name);
    if Spells(name, small, capital) {
      assert forall i :: 0 <= i < |name| ==> Lower(name)[i] == small[i];
    }
    if Lower(name) == small {
      assert forall i :: 0 <= i < |name| ==> Lower(name)[i] == LowerChar(name[i]);
    }
  }

  /** What an element names: `br`, or `gzip` or its old spelling `x-gzip`, in any case, or `*`. */
  lemma {:induction false} NameOfIs(e: Element)
    ensures NameOf(e).ABrotli? <==> Spells(e.name, "br", "BR")
    ensures NameOf(e).AGzip? <==> Spells(e.name, "gzip", "GZIP") || Spells(e.name, "x-gzip", "X-GZIP")
    ensures NameOf(e).AnyCoding? <==> e.name == "*"
  {
    SpellsIff(e.name, "br", "BR");
    SpellsIff(e.name, "gzip", "GZIP");
    SpellsIff(e.name, "x-gzip", "X-GZIP");
    assert e.name == "*" ==> |Lower(e.name)| == 1 by { LowerAt(e.name); }
  }

  /** `f32::max`: a NaN loses to anything. */
  function Max(a: real, q: Weight): real {
    if q.Num? && q.value > a then q.value else a
  }

  /** The highest weight a name was listed with, or -1. */
  function Best(elements: seq<Element>, named: Named): real {
    if elements == [] then -1.0
    else
      var e := elements[|elements| - 1];
      var before := Best(elements[..|elements| - 1], named);
      if NameOf(e) == named then Max(before, e.q) else before
  }

  function OrStar(own: real, star: real): real { if own < 0.0 then star else own }

  /** What `negotiate` answers for these elements: brotli, else gzip. */
  function Negotiated(elements: seq<Element>, brotli: bool, gzip: bool): Option<Coding> {
    var star := Best(elements, AnyCoding);
    if brotli && OrStar(Best(elements, ABrotli), star) > 0.0 then Some(Brotli)
    else if gzip && OrStar(Best(elements, AGzip), star) > 0.0 then Some(Gzip)
    else None
  }

  /** The source's loop over the header, keeping three running maxima. */
  method Negotiate(parse: WeightParser, header: string, brotli: bool, gzip: bool) returns (r: Option<Coding>)
    ensures r == Negotiated(Elements(parse, Split(header, ',')), brotli, gzip)
  {
    var br, gz, star := -1.0, -1.0, -1.0;
    var raws := Split(header, ',');
    for i := 0 to |raws|
      invariant br == Best(Elements(parse, raws[..i]), ABrotli)
      invariant gz == Best(Elements(parse, raws[..i]), AGzip)
      invariant star == Best(Elements(parse, raws[..i]), AnyCoding)
    {
      assert raws[..i + 1][..i] == raws[..i];
      var element := ElementOf(parse, raws[i]);
      if element.None? { continue; }
      var e := element.value;
      ghost var before := Elements(parse, raws[..i]);
      assert (before + [e])[..|before|] == before;
      if NameOf(e).ABrotli? {
        br := Max(br, e.q);
      } else if NameOf(e).AGzip? {
        gz := Max(gz, e.q);
      } else if NameOf(e).AnyCoding? {
        star := Max(star, e.q);
      }
    }
    assert raws[..|raws|] == raws;
    br := if br < 0.0 then star else br;
    gz := if gz < 0.0 then star else gz;
    if brotli && br > 0.0 { return Some(Brotli); }
    if gzip && gz > 0.0 { return Some(Gzip); }
    return None;
  }

  // ---------------------------------------------------------------------------
  // The rule of the standard
  // ---------------------------------------------------------------------------

  predicate Positive(q: Weight) { q.Num? && q.value > 0.0 }

  ghost predicate Listed(elements: seq<Element>, named: Named) {
    exists e :: e in elements && NameOf(e) == named
  }

  ghost predicate ListedPositive(elements: seq<Element>, named: Named) {
    exists e :: e in elements && NameOf(e) == named && Positive(e.q)
  }

  /** A coding is acceptable if its own weight is above 0, or, unlisted, if that of `*` is. */
  ghost predicate Acceptable(elements: seq<Element>, named: Named) {
    if Listed(elements, named) then ListedPositive(elements, named) else ListedPositive(elements, AnyCoding)
  }

  /** Brotli if allowed and acceptable, else gzip, else none. */
  ghost function Rule(elements: seq<Element>, brotli: bool, gzip: bool): Option<Coding> {
    if brotli && Acceptable(elements, ABrotli) then Some(Brotli)
    else if gzip && Acceptable(elements, AGzip) then Some(Gzip)
    else None
  }

  /** A weight that is no weight: negative, or not a number. */
  predicate Invalid(q: Weight) { q.NaN? || q.value < 0.0 }

  lemma {:induction false} BestIs(elements: seq<Element>, named: Named)
    ensures Best(elements, named) > 0.0 <==> ListedPositive(elements, named)
    ensures Best(elements, named) < 0.0 <==> forall e :: e in elements && NameOf(e) == named ==> Invalid(e.q)
  {
    if elements != [] {
      var before, e := elements[..|elements| - 1], elements[|elements| - 1];
      BestIs(before, named);
      assert elements == before + [e];
      assert forall x :: x in elements <==> x in before || x == e;
      if ListedPositive(before, named) {
        var x :| x in before && NameOf(x) == named && Positive(x.q);
        assert x in elements;
      }
    }
  }

  /** The one way a coding is listed and the code reads it as unlisted: every weight it has is invalid. */
  ghost predicate ListedInvalid(elements: seq<Element>, named: Named) {
    Listed(elements, named) && forall e :: e in elements && NameOf(e) == named ==> Invalid(e.q)
  }

  /** The code takes `named` for acceptable through `*`, although it is listed, with invalid weights only. */
  ghost predicate Misread(elements: seq<Element>, named: Named) {
    ListedInvalid(elements, named) && ListedPositive(elements, AnyCoding)
  }

  /** The code accepts what the standard accepts, except that `*` reaches a coding listed only with invalid weights. */
  lemma {:induction false} AcceptsAsRule(elements: seq<Element>, named: Named)
    requires named.ABrotli? || named.AGzip?
    ensures (OrStar(Best(elements, named), Best(elements, AnyCoding)) > 0.0 <==> Acceptable(elements, named))
       <==> !Misread(elements, named)
  {
    BestIs(elements, named);
    BestIs(elements, AnyCoding);
    if ListedPositive(elements, named) {
      var e :| e in elements && NameOf(e) == named && Positive(e.q);
    }
  }

  /**
  With valid weights the code is the standard's rule, whatever the header, the spelling and
  the settings; so no coding excluded with q=0 is ever picked.
  */
  lemma {:induction false} NegotiationIsTheRule(elements: seq<Element>, brotli: bool, gzip: bool)
    requires forall e :: e in elements ==> !Invalid(e.q)
    ensures Negotiated(elements, brotli, gzip) == Rule(elements, brotli, gzip)
  {
    AcceptsAsRule(elements, ABrotli);
    AcceptsAsRule(elements, AGzip);
  }

  /**
  Whatever the weights and the settings, code and standard part on exactly these headers:
  brotli is enabled and misread; or gzip is enabled and misread, and brotli does not come
  before it.
  */
  lemma {:induction false} NegotiationIsTheRuleIff(elements: seq<Element>, brotli: bool, gzip: bool)
    ensures Negotiated(elements, brotli, gzip) == Rule(elements, brotli, gzip)
       <==> !(|| (brotli && Misread(elements, ABrotli))
              || (gzip && Misread(elements, AGzip) && !(brotli && Acceptable(elements, ABrotli))))
  {
    AcceptsAsRule(elements, ABrotli);
    AcceptsAsRule(elements, AGzip);
  }

  /** The order of the list does not matter. */
  lemma {:induction false} OrderDoesNotMatter(a: seq<Element>, b: seq<Element>, brotli: bool, gzip: bool)
    requires multiset(a) == multiset(b)
    ensures Negotiated(a, brotli, gzip) == Negotiated(b, brotli, gzip)
  {
    assert forall e :: e in a <==> e in b by {
      assert forall e :: e in a <==> e in multiset(a);
      assert forall e :: e in b <==> e in multiset(b);
    }
    SameSigns(a, b, ABrotli);
    SameSigns(a, b, AGzip);
    SameSigns(a, b, AnyCoding);
  }

  lemma {:induction false} SameSigns(a: seq<Element>, b: seq<Element>, named: Named)
    requires forall e :: e in a <==> e in b
    ensures Best(a, named) > 0.0 <==> Best(b, named) > 0.0
    ensures Best(a, named) < 0.0 <==> Best(b, named) < 0.0
  {
    BestIs(a, named);
    BestIs(b, named);
  }

  // ---------------------------------------------------------------------------
  // From text to elements
  // ---------------------------------------------------------------------------

  /** Optional whitespace, as section 5.6.3 of RFC 9110 has it: spaces and tabs. */
  predicate AllBlank(s: string) { forall i :: 0 <= i < |s| ==> s[i] == ' ' || s[i] == '\t' }

  /** Text without blanks or control characters, and that no separator splits. */
  predicate IsWord(s: string) {
    s != [] && ',' !in s && ';' !in s && forall i :: 0 <= i < |s| ==> s[i] > ' '
  }

  /** A parameter of an element, with blanks around it: a weight, or any other word. */
  datatype Param =
    | Q(before: string, q: char, mid: string, text: string, after: string)
    | OtherParam(before: string, word: string, after: string)
  {
    predicate Valid() {
      && AllBlank(before) && AllBlank(after)
      && match this
         case Q(_, q, mid, text, _) => (q == 'q' || q == 'Q') && AllBlank(mid) && IsWord(text)
         case OtherParam(_, word, _) =>
           IsWord(word) && !(|word| >= 2 && (word[0] == 'q' || word[0] == 'Q') && word[1] == '=')
    }

    function Core(): string {
      match this
      case Q(_, q, mid, text, _) => [q, '='] + (mid + text)
      case OtherParam(_, word, _) => word
    }

    function Text(): string { before + Core() + after }
  }

  function Texts(params: seq<Param>): seq<string> {
    if params == [] then [] else [params[0].Text()] + Texts(params[1..])
  }

  ghost predicate AllParams(params: seq<Param>) {
    forall i :: 0 <= i < |params| ==> params[i].Valid()
  }

  /** The first weight counts, one the parser refuses as 0; with none it is 1. */
  function FirstWeight(parse: WeightParser, params: seq<Param>): Weight {
    if params == [] then Num(1.0)
    else if params[0].OtherParam? then FirstWeight(parse, params[1..])
    else if parse(params[0].text).Some? then parse(params[0].text).value
    else Num(0.0)
  }

  /** One element as a client writes it: nothing, a name, or a name and parameters, with blanks around each. */
  datatype Written =
    | Nothing(space: string)
    | Plain(before: string, name: string, after: string)
    | Weighted(before: string, name: string, mid: string, params: seq<Param>, after: string)
  {
    ghost predicate Valid() {
      match this
      case Nothing(space) => AllBlank(space)
      case Plain(before, name, after) => AllBlank(before) && IsWord(name) && AllBlank(after)
      case Weighted(before, name, mid, params, after) =>
        && AllBlank(before) && IsWord(name) && AllBlank(mid) && AllBlank(after)
        && params != [] && AllParams(params) && params[|params| - 1].after == []
    }

    function Raw(): string {
      match this
      case Nothing(space) => space
      case Plain(before, name, after) => before + name + after
      case Weighted(before, name, mid, params, after) =>
        before + (name + mid + [';'] + Join(Texts(params), ';')) + after
    }

    function Says(parse: WeightParser): seq<Element> {
      match this
      case Nothing(_) => []
      case Plain(_, name, _) => [Element(name, Num(1.0))]
      case Weighted(_, name, _, params, _) => [Element(name, FirstWeight(parse, params))]
    }
  }

  lemma {:induction false} TrimStartBlank(blank: string, s: string)
    requires AllBlank(blank) && s != [] && !IsSpace(s[0])
    ensures TrimStart(blank + s) == s
  {
    if blank == [] {
      assert blank + s == s;
    } else {
      assert (blank + s)[1..] == blank[1..] + s;
      TrimStartBlank(blank[1..], s);
    }
  }

  lemma {:induction false} TrimEndBlank(s: string, blank: string)
    requires AllBlank(blank) && s != [] && !IsSpace(s[|s| - 1])
    ensures TrimEnd(s + blank) == s
  {
    if blank == [] {
      assert s + blank == s;
    } else {
      var n := |blank| - 1;
      assert (s + blank)[..|s| + n] == s + blank[..n];
      TrimEndBlank(s, blank[..n]);
    }
  }

  /** Blanks around text that neither starts nor ends with one are all that trimming removes. */
  lemma {:induction false} TrimPads(before: string, s: string, after: string)
    requires AllBlank(before) && AllBlank(after) && s != [] && !IsSpace(s[0]) && !IsSpace(s[|s| - 1])
    ensures Trim(before + s + after) == s
  {
    TrimEndBlank(before + s, after);
    TrimStartBlank(before, s);
  }

  lemma {:induction false} TrimAllBlank(blank: string)
    requires AllBlank(blank)
    ensures Trim(blank) == []
  {
    if blank != [] {
      TrimAllBlank(blank[..|blank| - 1]);
    }
  }

  lemma {:induction false} TextsAre(params: seq<Param>)
    ensures |Texts(params)| == |params|
    ensures forall i :: 0 <= i < |params| ==> Texts(params)[i] == params[i].Text()
  {
    if params != [] {
      TextsAre(params[1..]);
    }
  }

  /** A parameter's text holds no separator and its core no blank at either end. */
  lemma {:induction false} ParamText(param: Param)
    requires param.Valid()
    ensures ',' !in param.Text() && ';' !in param.Text()
    ensures param.Core() != [] && param.Core()[0] > ' ' && param.Core()[|param.Core()| - 1] > ' '
  {
  }

  lemma {:induction false} JoinLast(pieces: seq<string>, sep: char)
    requires pieces != [] && pieces[|pieces| - 1] != []
    ensures var s, last := Join(pieces, sep), pieces[|pieces| - 1];
      s != [] && s[|s| - 1] == last[|last| - 1]
  {
    if |pieces| > 1 {
      JoinLast(pieces[1..], sep);
    }
  }

  lemma {:induction false} JoinHoldsNo(pieces: seq<string>, sep: char, c: char)
    requires c != sep && forall i :: 0 <= i < |pieces| ==> c !in pieces[i]
    ensures c !in Join(pieces, sep)
  {
    if |pieces| > 1 {
      assert forall i :: 0 <= i < |pieces[1..]| ==> pieces[1..][i] == pieces[i + 1];
      JoinHoldsNo(pieces[1..], sep, c);
    }
  }

  lemma {:induction false} WeightedPieces(w: Written)
    requires w.Weighted? && w.Valid()
    ensures Split(w.name + w.mid + [';'] + Join(Texts(w.params), ';'), ';') == [w.name + w.mid] + Texts(w.params)
  {
    TextsAre(w.params);
    forall i | 0 <= i < |w.params| ensures ';' !in Texts(w.params)[i] {
      ParamText(w.params[i]);
    }
    SplitAppend(w.name + w.mid, ';', Join(Texts(w.params), ';'));
    SplitOne(w.name + w.mid, ';');
    SplitJoin(Texts(w.params), ';');
  }

  lemma {:induction false} QValueOf(q: char, text: string)
    requires q == 'q' || q == 'Q'
    ensures QValue([q, '='] + text) == Some(text)
  {
    var s := [q, '='] + text;
    assert s[..2] == [q, '='] && s[2..] == text;
    assert [q, '='][1..] == ['='] && ['='][1..] == [];
    assert Lower(['=']) == ['='];
    assert Lower([q, '=']) == ['q', '='];
  }

  lemma {:induction false} NoQValue(word: string)
    requires !(|word| >= 2 && (word[0] == 'q' || word[0] == 'Q') && word[1] == '=')
    ensures QValue(word).None?
  {
    if |word| >= 2 {
      LowerAt(word[..2]);
      assert word[..2][0] == word[0] && word[..2][1] == word[1];
    }
  }

  /** What one parameter is read as. */
  lemma {:induction false} ParamRead(param: Param)
    requires param.Valid()
    ensures Trim(param.Text()) == param.Core()
    ensures param.OtherParam? ==> QValue(param.Core()).None?
    ensures param.Q? ==>
              QValue(param.Core()) == Some(param.mid + param.text) && Trim(param.mid + param.text) == param.text
  {
    ParamText(param);
    TrimPads(param.before, param.Core(), param.after);
    match param
    case OtherParam(_, word, _) => NoQValue(word);
    case Q(_, q, mid, text, _) =>
      QValueOf(q, mid + text);
      TrimPads(mid, text, []);
      assert mid + text + [] == mid + text;
  }

  lemma {:induction false} WeightRead(parse: WeightParser, params: seq<Param>)
    requires AllParams(params)
    ensures WeightOf(parse, Texts(params)) == FirstWeight(parse, params)
  {
    if params != [] {
      ParamRead(params[0]);
      assert Texts(params)[1..] == Texts(params[1..]);
      assert forall i :: 0 <= i < |params[1..]| ==> params[1..][i] == params[i + 1];
      WeightRead(parse, params[1..]);
    }
  }

  lemma {:induction false} PlainParses(parse: WeightParser, w: Written)
    requires w.Plain? && w.Valid()
    ensures ElementOf(parse, w.Raw()) == Some(Element(w.name, Num(1.0)))
  {
    TrimPads(w.before, w.name, w.after);
    SplitOne(w.name, ';');
  }

  lemma {:induction false} ParamsEnd(params: seq<Param>)
    requires AllParams(params) && params != [] && params[|params| - 1].after == []
    ensures var tail := Join(Texts(params), ';'); tail != [] && tail[|tail| - 1] > ' '
  {
    var last := params[|params| - 1];
    TextsAre(params);
    ParamText(last);
    assert last.Text()[|last.Text()| - 1] == last.Core()[|last.Core()| - 1];
    JoinLast(Texts(params), ';');
  }

  lemma {:induction false} TrimsTo(before: string, name: string, mid: string, tail: string, after: string)
    requires AllBlank(before) && AllBlank(after) && IsWord(name) && tail != [] && tail[|tail| - 1] > ' '
    ensures Trim(before + (name + mid + [';'] + tail) + after) == name + mid + [';'] + tail
  {
    var core := name + mid + [';'] + tail;
    assert core[0] == name[0] && core[|core| - 1] == tail[|tail| - 1];
    TrimPads(before, core, after);
  }

  lemma {:induction false} ElementOfPieces(
    parse: WeightParser, raw: string, part: string, first: string, name: string, texts: seq<string>)
    requires Trim(raw) == part != [] && Trim(first) == name
    requires Split(part, ';') == [first] + texts && texts != []
    ensures ElementOf(parse, raw) == Some(Element(name, WeightOf(parse, texts)))
  {
    assert ([first] + texts)[1..] == texts;
  }

  lemma {:induction false} WeightedParses(parse: WeightParser, w: Written)
    requires w.Weighted? && w.Valid()
    ensures ElementOf(parse, w.Raw()) == Some(Element(w.name, FirstWeight(parse, w.params)))
  {
    var tail, texts := Join(Texts(w.params), ';'), Texts(w.params);
    var first := w.name + w.mid;
    var part := first + [';'] + tail;
    assert Trim(w.Raw()) == part by {
      ParamsEnd(w.params);
      TrimsTo(w.before, w.name, w.mid, tail, w.after);
    }
    assert Trim(first) == w.name by {
      TrimPads([], w.name, w.mid);
      assert [] + w.name + w.mid == first;
    }
    assert Split(part, ';') == [first] + texts by { WeightedPieces(w); }
    assert texts != [] by { TextsAre(w.params); }
    ElementOfPieces(parse, w.Raw(), part, first, w.name, texts);
    WeightRead(parse, w.params);
  }

  /** A written element parses to what it says. */
  lemma {:induction false} WrittenParses(parse: WeightParser, w: Written)
    requires w.Valid()
    ensures w.Says(parse) == match ElementOf(parse, w.Raw()) case None => [] case Some(e) => [e]
  {
    match w
    case Nothing(space) => TrimAllBlank(space);
    case Plain(_, _, _) => PlainParses(parse, w);
    case Weighted(_, _, _, _, _) => WeightedParses(parse, w);
  }

  function Raws(written: seq<Written>): seq<string> {
    if written == [] then [] else Raws(written[..|written| - 1]) + [written[|written| - 1].Raw()]
  }

  function SaysAll(parse: WeightParser, written: seq<Written>): seq<Element> {
    if written == [] then [] else SaysAll(parse, written[..|written| - 1]) + written[|written| - 1].Says(parse)
  }

  ghost predicate AllWritten(written: seq<Written>) {
    forall i :: 0 <= i < |written| ==> written[i].Valid()
  }

  lemma {:induction false} RawHasNoComma(w: Written)
    requires w.Valid()
    ensures ',' !in w.Raw()
  {
    if w.Weighted? {
      TextsAre(w.params);
      forall i | 0 <= i < |w.params| ensures ',' !in Texts(w.params)[i] {
        ParamText(w.params[i]);
      }
      JoinHoldsNo(Texts(w.params), ';', ',');
      HoldsNoComma(w.before, w.name, w.mid, Join(Texts(w.params), ';'), w.after);
    }
  }

  lemma {:induction false} HoldsNoComma(before: string, name: string, mid: string, tail: string, after: string)
    requires AllBlank(before) && ',' !in name && AllBlank(mid) && ',' !in tail && AllBlank(after)
    ensures ',' !in before + (name + mid + [';'] + tail) + after
  {
  }

  lemma {:induction false} RawsParse(parse: WeightParser, written: seq<Written>)
    requires AllWritten(written)
    ensures Elements(parse, Raws(written)) == SaysAll(parse, written)
    ensures |Raws(written)| == |written|
    ensures forall i :: 0 <= i < |written| ==> ',' !in Raws(written)[i]
  {
    if written != [] {
      var before, w := written[..|written| - 1], written[|written| - 1];
      RawsParse(parse, before);
      assert w.Valid();
      WrittenParses(parse, w);
      RawHasNoComma(w);
      assert Raws(written)[..|written| - 1] == Raws(before);
    }
  }

  /**
  Any written list of names and parameters, with empty elements, blanks anywhere between, `q`
  in either case and repeated or among others, joined by commas, is read as exactly what it
  says, so `Negotiate` decides on that.
  */
  lemma {:induction false} HeaderIsRead(parse: WeightParser, written: seq<Written>)
    requires written != [] && AllWritten(written)
    ensures Elements(parse, Split(Join(Raws(written), ','), ',')) == SaysAll(parse, written)
  {
    RawsParse(parse, written);
    SplitJoin(Raws(written), ',');
  }

  lemma {:induction false} NamesOf(br: string, star: string)
    requires br == ['b', 'r'] && star == ['*']
    ensures forall q :: NameOf(Element(br, q)) == ABrotli && NameOf(Element(star, q)) == AnyCoding
  {
    assert br[1..] == ['r'] && ['r'][1..] == [] && star[1..] == [];
    assert Lower(['r']) == ['r'] && Lower(br) == br && Lower(star) == star;
  }

  /** Two elements, brotli with an invalid weight and `*`: the code picks brotli where the rule does not. */
  lemma {:induction false} MisreadElements(br: Element, star: Element, gzip: bool)
    requires NameOf(br) == ABrotli && Invalid(br.q) && NameOf(star) == AnyCoding && star.q == Num(1.0)
    ensures Negotiated([br, star], true, gzip) == Some(Brotli)
    ensures Rule([br, star], true, gzip) == if gzip then Some(Gzip) else None
  {
    var elements := [br, star];
    assert br in elements && star in elements;
    BestIs(elements, ABrotli);
    BestIs(elements, AnyCoding);
  }

  /** The header `br;q=` followed by `text`, then `, *`. */
  function BrotliThenStar(text: string): string {
    ['b', 'r'] + [';', 'q', '='] + text + [',', ' ', '*']
  }

  /**
  Such headers: in `br;q=text, *`, whatever text the parser reads as a negative number or
  NaN, brotli is read as unlisted and picked through `*`, with and without gzip enabled.
  */
  lemma {:induction false} InvalidWeightIsReadAsUnlisted(parse: WeightParser, text: string, gzip: bool)
    requires IsWord(text) && parse(text).Some? && Invalid(parse(text).value)
    ensures var elements := Elements(parse, Split(BrotliThenStar(text), ','));
      && Negotiated(elements, true, gzip) == Some(Brotli)
      && Rule(elements, true, gzip) == if gzip then Some(Gzip) else None
  {
    BrotliThenStarRead(parse, text);
    NamesOf(['b', 'r'], ['*']);
    MisreadElements(Element(['b', 'r'], parse(text).value), Element(['*'], Num(1.0)), gzip);
  }

  lemma {:induction false} BrotliThenStarRead(parse: WeightParser, text: string)
    requires IsWord(text) && parse(text).Some?
    ensures Elements(parse, Split(BrotliThenStar(text), ','))
         == [Element(['b', 'r'], parse(text).value), Element(['*'], Num(1.0))]
  {
    var br, star := Weighted([], ['b', 'r'], [], [Q([], 'q', [], text, [])], []), Plain([' '], ['*'], []);
    assert AllWritten([br, star]);
    HeaderIsRead(parse, [br, star]);
    TwoWritten(parse, br, star);
    BrotliThenStarWritten(text);
    assert br.Says(parse) == [Element(['b', 'r'], parse(text).value)];
  }

  lemma {:induction false} BrotliThenStarWritten(text: string)
    ensures var br, star := Weighted([], ['b', 'r'], [], [Q([], 'q', [], text, [])], []), Plain([' '], ['*'], []);
      Join([br.Raw(), star.Raw()], ',') == BrotliThenStar(text)
  {
    var weight := Q([], 'q', [], text, []);
    var br, star := Weighted([], ['b', 'r'], [], [weight], []), Plain([' '], ['*'], []);
    assert weight.Text() == ['q', '='] + text;
    assert [weight][1..] == [] && Texts([weight]) == [weight.Text()];
    assert br.Raw() == ['b', 'r'] + [';', 'q', '='] + text;
    assert star.Raw() == [' ', '*'];
    assert [br.Raw(), star.Raw()][1..] == [star.Raw()];
  }

  lemma {:induction false} TwoWritten(parse: WeightParser, a: Written, b: Written)
    ensures Raws([a, b]) == [a.Raw(), b.Raw()]
    ensures SaysAll(parse, [a, b]) == a.Says(parse) + b.Says(parse)
  {
    assert [a, b][..1] == [a] && [a][..0] == [];
    assert Raws([a]) == [a.Raw()] && SaysAll(parse, [a]) == a.Says(parse);
  }

  /** The header `br;q=-0.5, *` gets brotli, for every parser that reads `-0.5` as that number. */
  lemma {:induction false} NegativeWeightIsReadAsUnlisted(parse: WeightParser, header: string, text: string)
    requires header == "br;q=-0.5, *" && text == "-0.5" && parse(text) == Some(Num(-0.5))
    ensures var elements := Elements(parse, Split(header, ','));
      Negotiated(elements, true, false) == Some(Brotli) && Rule(elements, true, false) == None
  {
    assert BrotliThenStar(text) == header;
    InvalidWeightIsReadAsUnlisted(parse, text, false);
  }
}
