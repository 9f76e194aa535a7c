/**
 What the segment splitter makes of Kotlin parameter and argument lists: it returns the parameters, unless
 an arrow inside type arguments, or a default value, keeps it from seeing that a comma is inside `<...>`.
 */
module ParameterLists {
  import opened Wrappers
  import opened Segments
  import B = BraceBlocks

  // ----- the grammar

  datatype Part =
    | Char(c: char)
    | Comma
    | Arrow
    | Quotation(body: seq<B.QuotedChar>)
    | Group(open: char, parts: seq<Part>)
    | TypeArguments(parts: seq<Part>)

  /** Directly in the list, directly inside type arguments, or somewhere inside brackets. */
  datatype Place = InList | InTypes | InGroup

  const BRACKETS: set<char> := {'(', ')', '[', ']', '{', '}'}

  /** In the header of a parameter the type arguments count; in values `<`, `>` and `=` are free. */
  predicate IsPart(part: Part, place: Place, counts: bool)
    decreases part, 1
  {
    match part
    case Char(c) => c != '"' && c != ',' && c !in BRACKETS && (counts ==> c != '<' && c != '>' && (c == '=' ==> place == InGroup))
    case Comma => place != InList
    case Arrow => true
    case Quotation(body) => B.IsBody(body, '"')
    case Group(open, parts) => open in {'(', '[', '{'} && AreParts(parts, InGroup, counts)
    case TypeArguments(parts) => AreParts(parts, if place == InGroup then InGroup else InTypes, counts)
  }

  predicate AreParts(parts: seq<Part>, place: Place, counts: bool)
    decreases parts, 0
  {
    parts == [] || (IsPart(parts[0], place, counts) && AreParts(parts[1..], place, counts))
  }

  function Closer(open: char): char {
    if open == '(' then ')' else if open == '[' then ']' else '}'
  }

  function PartText(part: Part): string
    decreases part, 1
  {
    match part
    case Char(c) => [c]
    case Comma => [',']
    case Arrow => ['-', '>']
    case Quotation(body) => ['"'] + (B.BodyText(body) + ['"'])
    case Group(open, parts) => [open] + (PartsText(parts) + [Closer(open)])
    case TypeArguments(parts) => ['<'] + (PartsText(parts) + ['>'])
  }

  function PartsText(parts: seq<Part>): string
    decreases parts, 0
  {
    if parts == [] then "" else PartText(parts[0]) + PartsText(parts[1..])
  }

  /** A name and a type, and perhaps a default value. */
  datatype Parameter = Parameter(header: seq<Part>, default: Option<seq<Part>>)

  predicate IsParameter(p: Parameter) {
    AreParts(p.header, InList, true) && (p.default.Some? ==> AreParts(p.default.value, InList, false))
  }

  function ParameterText(p: Parameter): string {
    PartsText(p.header) + if p.default.Some? then ['='] + PartsText(p.default.value) else ""
  }

  // ----- when the splitter loses count

  /** The splitter's count of open type arguments after a part: an arrow uses one up. */
  function Drain(part: Part, open: nat, counts: bool): (r: nat)
    requires !counts ==> open == 0
    ensures r <= open
    decreases part, 1
  {
    match part
    case Arrow => if open > 0 then open - 1 else 0
    case Group(_, parts) => DrainAll(parts, open, counts)
    case TypeArguments(parts) =>
      var inside := DrainAll(parts, if counts then open + 1 else open, counts);
      if inside > 0 then inside - 1 else 0
    case _ => open
  }

  function DrainAll(parts: seq<Part>, open: nat, counts: bool): (r: nat)
    requires !counts ==> open == 0
    ensures r <= open
    decreases parts, 0
  {
    if parts == [] then open else DrainAll(parts[1..], Drain(parts[0], open, counts), counts)
  }

  /** Some comma outside brackets is reached with no open type arguments counted. */
  predicate Leaks(part: Part, open: nat, counts: bool)
    requires !counts ==> open == 0
    decreases part, 1
  {
    match part
    case Comma => open == 0
    case TypeArguments(parts) => AnyLeaks(parts, if counts then open + 1 else open, counts)
    case _ => false
  }

  predicate AnyLeaks(parts: seq<Part>, open: nat, counts: bool)
    requires !counts ==> open == 0
    decreases parts, 0
  {
    parts != [] && (Leaks(parts[0], open, counts) || AnyLeaks(parts[1..], Drain(parts[0], open, counts), counts))
  }

  predicate ParameterLeaks(p: Parameter) {
    AnyLeaks(p.header, 0, true) || (p.default.Some? && AnyLeaks(p.default.value, 0, false))
  }

  // ----- the splitter's state over a part

  lemma {:induction false} RunOverConcat(n: Nesting, a: string, b: string, track: bool)
    ensures RunOver(n, a + b, track) == RunOver(RunOver(n, a, track), b, track)
    ensures HasNoCut(n, a + b, track) <==> HasNoCut(n, a, track) && HasNoCut(RunOver(n, a, track), b, track)
    decreases |a|
  {
    if a == "" {
      assert a + b == b;
    } else {
      RunOverConcat(Next(n, a[0], track), a[1..], b, track);
      assert (a + b)[1..] == a[1..] + b;
    }
  }

  lemma RunOverOne(n: Nesting, c: char, track: bool)
    ensures RunOver(n, [c], track) == Next(n, c, track)
    ensures HasNoCut(n, [c], track) <==> !IsCut(n, c)
  {
    assert [c][1..] == "";
  }

  predicate InCode(n: Nesting) {
    !n.quoted && !n.escaped && n.parens >= 0 && n.brackets >= 0 && n.braces >= 0
  }

  predicate InBrackets(n: Nesting) {
    n.parens > 0 || n.brackets > 0 || n.braces > 0
  }

  /** The state the splitter is in at a place of a list. */
  predicate Fits(n: Nesting, place: Place, counts: bool, track: bool) {
    && InCode(n) && counts == (track && !n.inDefaultValue) && (!counts ==> n.typeArguments == 0)
    && (place == InGroup <==> InBrackets(n))
  }

  function Drained(n: Nesting, open: nat): Nesting {
    n.(typeArguments := open)
  }

  lemma {:induction false} BodyRuns(n: Nesting, body: seq<B.QuotedChar>, track: bool)
    requires B.IsBody(body, '"') && n.quoted && !n.escaped
    ensures HasNoCut(n, B.BodyText(body), track) && RunOver(n, B.BodyText(body), track) == n
  {
    if body != [] {
      BodyRuns(n, body[1..], track);
      QuotedCharRuns(n, body[0], track);
      RunOverConcat(n, B.QuotedText(body[0]), B.BodyText(body[1..]), track);
    }
  }

  lemma QuotedCharRuns(n: Nesting, c: B.QuotedChar, track: bool)
    requires n.quoted && !n.escaped && (c.Raw? ==> c.c != '"' && c.c != '\\')
    ensures HasNoCut(n, B.QuotedText(c), track) && RunOver(n, B.QuotedText(c), track) == n
  {
    if c.Raw? {
      RunOverOne(n, c.c, track);
    } else {
      RunOverOne(n, '\\', track);
      RunOverOne(Next(n, '\\', track), c.c, track);
      RunOverConcat(n, ['\\'], [c.c], track);
      assert ['\\'] + [c.c] == ['\\', c.c];
    }
  }

  /** A text between two single characters. */
  lemma EnclosedRuns(n: Nesting, first: char, inner: string, last: char, track: bool)
    ensures
      var inside := Next(n, first, track);
      var end := RunOver(inside, inner, track);
      && RunOver(n, [first] + (inner + [last]), track) == Next(end, last, track)
      && (HasNoCut(n, [first] + (inner + [last]), track)
          <==> !IsCut(n, first) && HasNoCut(inside, inner, track) && !IsCut(end, last))
  {
    RunOverOne(n, first, track);
    RunOverConcat(n, [first], inner + [last], track);
    RunOverConcat(Next(n, first, track), inner, [last], track);
    RunOverOne(RunOver(Next(n, first, track), inner, track), last, track);
  }

  lemma QuotationRuns(n: Nesting, body: seq<B.QuotedChar>, track: bool)
    requires B.IsBody(body, '"') && InCode(n)
    ensures
      var text := PartText(Quotation(body));
      HasNoCut(n, text, track) && RunOver(n, text, track) == n
  {
    EnclosedRuns(n, '"', B.BodyText(body), '"', track);
    BodyRuns(Next(n, '"', track), body, track);
  }

  /** Whether the splitter cuts inside a part, and if not, the state it is left in. */
  predicate RunsAs(n: Nesting, text: string, leaks: bool, open: nat, track: bool) {
    && (HasNoCut(n, text, track) <==> !leaks)
    && (!leaks ==> RunOver(n, text, track) == Drained(n, open))
  }

  lemma CharRuns(n: Nesting, c: char, place: Place, counts: bool, track: bool)
    requires IsPart(Char(c), place, counts) && Fits(n, place, counts, track)
    ensures RunsAs(n, [c], false, n.typeArguments, track)
  {
    RunOverOne(n, c, track);
  }

  lemma ArrowRuns(n: Nesting, place: Place, counts: bool, track: bool)
    requires Fits(n, place, counts, track)
    ensures RunsAs(n, ['-', '>'], false, Drain(Arrow, n.typeArguments, counts), track)
  {
    RunOverOne(n, '-', track);
    RunOverOne(n, '>', track);
    RunOverConcat(n, ['-'], ['>'], track);
    assert ['-'] + ['>'] == ['-', '>'];
  }

  lemma OpensGroup(n: Nesting, open: char, place: Place, counts: bool, track: bool)
    requires open in {'(', '[', '{'} && Fits(n, place, counts, track)
    ensures
      var inside := Next(n, open, track);
      && Fits(inside, InGroup, counts, track) && inside.typeArguments == n.typeArguments && !IsCut(n, open)
      && forall t: nat :: !IsCut(Drained(inside, t), Closer(open)) && Next(Drained(inside, t), Closer(open), track) == Drained(n, t)
  {
  }

  lemma OpensTypes(n: Nesting, place: Place, counts: bool, track: bool)
    requires Fits(n, place, counts, track)
    ensures
      var inside := Next(n, '<', track);
      && inside == Drained(n, if counts then n.typeArguments + 1 else n.typeArguments) && !IsCut(n, '<')
      && forall t: nat :: (!counts ==> t == 0) ==>
           && !IsCut(Drained(inside, t), '>')
           && Next(Drained(inside, t), '>', track) == Drained(n, if t > 0 then t - 1 else 0)
  {
  }

  /** Inside brackets nothing leaks. */
  function LeaksAt(leaks: bool, place: Place): bool {
    leaks && place != InGroup
  }

  lemma {:induction false} PartRuns(n: Nesting, part: Part, place: Place, counts: bool, track: bool)
    requires IsPart(part, place, counts) && Fits(n, place, counts, track)
    ensures RunsAs(n, PartText(part), LeaksAt(Leaks(part, n.typeArguments, counts), place),
                   Drain(part, n.typeArguments, counts), track)
    decreases part, 1
  {
    match part
    case Char(c) => CharRuns(n, c, place, counts, track);
    case Comma => RunOverOne(n, ',', track);
    case Arrow => ArrowRuns(n, place, counts, track);
    case Quotation(body) => QuotationRuns(n, body, track);
    case Group(open, parts) =>
      OpensGroup(n, open, place, counts, track);
      EnclosedRuns(n, open, PartsText(parts), Closer(open), track);
      PartsRun(Next(n, open, track), parts, InGroup, counts, track);
    case TypeArguments(parts) =>
      OpensTypes(n, place, counts, track);
      EnclosedRuns(n, '<', PartsText(parts), '>', track);
      PartsRun(Next(n, '<', track), parts, if place == InGroup then InGroup else InTypes, counts, track);
  }

  lemma {:induction false} PartsRun(n: Nesting, parts: seq<Part>, place: Place, counts: bool, track: bool)
    requires AreParts(parts, place, counts) && Fits(n, place, counts, track)
    ensures RunsAs(n, PartsText(parts), LeaksAt(AnyLeaks(parts, n.typeArguments, counts), place),
                   DrainAll(parts, n.typeArguments, counts), track)
    decreases parts, 0
  {
    if parts != [] {
      var after := Drained(n, Drain(parts[0], n.typeArguments, counts));
      PartRuns(n, parts[0], place, counts, track);
      PartsRun(after, parts[1..], place, counts, track);
      RunOverConcat(n, PartText(parts[0]), PartsText(parts[1..]), track);
    }
  }

  // ----- parameters

  /** A parameter is closed, and free of top-level commas, exactly when it does not leak. */
  lemma ParameterIsClosed(p: Parameter)
    requires IsParameter(p)
    ensures HasNoCut(START, ParameterText(p), true) <==> !ParameterLeaks(p)
    ensures IsClosed(ParameterText(p), true) <==> !ParameterLeaks(p)
  {
    PartsRun(START, p.header, InList, true, true);
    if p.default.Some? {
      var value := PartsText(p.default.value);
      RunOverConcat(START, PartsText(p.header), ['='] + value, true);
      RunOverOne(START, '=', true);
      RunOverConcat(START, ['='], value, true);
      PartsRun(Next(START, '=', true), p.default.value, InList, false, true);
    } else {
      assert ParameterText(p) == PartsText(p.header);
    }
  }

  /** Between two cuts the splitter meets no comma that it would cut at. */
  lemma {:induction false} SegmentsHaveNoCut(s: string, from: nat, k: nat, end: nat, n: Nesting, track: bool)
    requires from <= k <= end <= |s| && n == RunOver(START, s[from..k], track) && HasNoCut(START, s[from..k], track)
    ensures forall segment <- SplitFrom(s, from, k, end, n, track) :: HasNoCut(START, segment.value, track)
    decreases end - k
  {
    if k < end {
      if IsCut(n, s[k]) {
        assert Next(n, s[k], track) == START;
        assert s[k + 1..k + 1] == "";
        SegmentsHaveNoCut(s, k + 1, k + 1, end, START, track);
      } else {
        RunOverOne(n, s[k], track);
        RunOverConcat(START, s[from..k], [s[k]], track);
        assert s[from..k + 1] == s[from..k] + [s[k]];
        SegmentsHaveNoCut(s, from, k + 1, end, Next(n, s[k], track), track);
      }
    }
  }

  /** Whatever splits into given texts, they have no comma to cut at. */
  lemma SplitHasNoCut(s: string, from: nat, end: nat, texts: seq<string>, track: bool)
    requires from <= end <= |s| && Values(Split(s, from, end, track)) == texts
    ensures forall i :: 0 <= i < |texts| ==> HasNoCut(START, texts[i], track)
  {
    var segments := Split(s, from, end, track);
    assert s[from..from] == "";
    SegmentsHaveNoCut(s, from, from, end, START, track);
    forall i | 0 <= i < |texts|
      ensures HasNoCut(START, texts[i], track)
    {
      assert texts[i] == segments[i].value && segments[i] in segments;
    }
  }

  function ParameterTexts(params: seq<Parameter>): seq<string> {
    seq(|params|, i requires 0 <= i < |params| => ParameterText(params[i]))
  }

  /** A list of parameters is split into the parameters exactly when none of them leaks. */
  lemma ParametersAreSplit(s: string, from: nat, end: nat, params: seq<Parameter>)
    requires from <= end <= |s| && params != [] && s[from..end] == Join(ParameterTexts(params))
    requires forall i :: 0 <= i < |params| ==> IsParameter(params[i])
    ensures Values(Split(s, from, end, true)) == ParameterTexts(params)
            <==> forall i :: 0 <= i < |params| ==> !ParameterLeaks(params[i])
  {
    var texts := ParameterTexts(params);
    forall i | 0 <= i < |params|
      ensures HasNoCut(START, texts[i], true) <==> !ParameterLeaks(params[i])
      ensures IsClosed(texts[i], true) <==> !ParameterLeaks(params[i])
    {
      ParameterIsClosed(params[i]);
    }
    if forall i :: 0 <= i < |params| ==> !ParameterLeaks(params[i]) {
      SplitUndoesJoin(s, from, end, texts, true);
    }
    if Values(Split(s, from, end, true)) == texts {
      SplitHasNoCut(s, from, end, texts, true);
    }
  }

  // ----- arguments, whose type arguments are not tracked

  function ArgumentTexts(arguments: seq<seq<Part>>): seq<string> {
    seq(|arguments|, i requires 0 <= i < |arguments| => PartsText(arguments[i]))
  }

  /** A list of arguments is split into the arguments exactly when no type arguments in them hold a comma. */
  lemma ArgumentsAreSplit(s: string, from: nat, end: nat, arguments: seq<seq<Part>>)
    requires from <= end <= |s| && arguments != [] && s[from..end] == Join(ArgumentTexts(arguments))
    requires forall i :: 0 <= i < |arguments| ==> AreParts(arguments[i], InList, false)
    ensures Values(Split(s, from, end, false)) == ArgumentTexts(arguments)
            <==> forall i :: 0 <= i < |arguments| ==> !AnyLeaks(arguments[i], 0, false)
  {
    var texts := ArgumentTexts(arguments);
    forall i | 0 <= i < |arguments|
      ensures HasNoCut(START, texts[i], false) <==> !AnyLeaks(arguments[i], 0, false)
      ensures IsClosed(texts[i], false) <==> !AnyLeaks(arguments[i], 0, false)
    {
      PartsRun(START, arguments[i], InList, false, false);
    }
    if forall i :: 0 <= i < |arguments| ==> !AnyLeaks(arguments[i], 0, false) {
      SplitUndoesJoin(s, from, end, texts, false);
    }
    if Values(Split(s, from, end, false)) == texts {
      SplitHasNoCut(s, from, end, texts, false);
    }
  }

  // ----- what a caller can see: arrows

  predicate HasArrow(part: Part)
    decreases part, 1
  {
    match part
    case Arrow => true
    case Group(_, parts) => HaveArrow(parts)
    case TypeArguments(parts) => HaveArrow(parts)
    case _ => false
  }

  predicate HaveArrow(parts: seq<Part>)
    decreases parts, 0
  {
    parts != [] && (HasArrow(parts[0]) || HaveArrow(parts[1..]))
  }

  lemma {:induction false} WithoutArrowNothingDrains(parts: seq<Part>, open: nat)
    requires !HaveArrow(parts)
    ensures DrainAll(parts, open, true) == open && (open > 0 ==> !AnyLeaks(parts, open, true))
    decreases parts, 0
  {
    if parts != [] {
      PartWithoutArrow(parts[0], open);
      WithoutArrowNothingDrains(parts[1..], open);
    }
  }

  lemma {:induction false} PartWithoutArrow(part: Part, open: nat)
    requires !HasArrow(part)
    ensures Drain(part, open, true) == open && (open > 0 || part.TypeArguments? ==> !Leaks(part, open, true))
    decreases part, 1
  {
    match part
    case Group(_, parts) => WithoutArrowNothingDrains(parts, open);
    case TypeArguments(parts) => WithoutArrowNothingDrains(parts, open + 1);
    case _ =>
  }

  /** Arrows between the parts of a header, or in brackets there, do no harm: only those in type arguments do. */
  lemma {:induction false} ArrowsOutsideTypesAreHarmless(header: seq<Part>)
    requires AreParts(header, InList, true)
    requires forall i :: 0 <= i < |header| && header[i].TypeArguments? ==> !HasArrow(header[i])
    ensures !AnyLeaks(header, 0, true)
  {
    if header != [] {
      if header[0].TypeArguments? {
        PartWithoutArrow(header[0], 0);
      }
      assert Drain(header[0], 0, true) == 0;
      ArrowsOutsideTypesAreHarmless(header[1..]);
    }
  }

  predicate HasTypes(part: Part)
    decreases part, 1
  {
    part.TypeArguments? || (part.Group? && HaveTypes(part.parts))
  }

  predicate HaveTypes(parts: seq<Part>)
    decreases parts, 0
  {
    parts != [] && (HasTypes(parts[0]) || HaveTypes(parts[1..]))
  }

  lemma {:induction false} FlatPartDrains(part: Part)
    requires !HasTypes(part)
    ensures Drain(part, 1, true) == if HasArrow(part) then 0 else 1
    decreases part, 1
  {
    if part.Group? {
      FlatPartsDrain(part.parts);
    }
  }

  lemma {:induction false} FlatPartsDrain(parts: seq<Part>)
    requires !HaveTypes(parts)
    ensures DrainAll(parts, 1, true) == if HaveArrow(parts) then 0 else 1
    decreases parts, 0
  {
    if parts != [] {
      FlatPartDrains(parts[0]);
      FlatPartsDrain(parts[1..]);
    }
  }

  lemma {:induction false} DrainedTypesLeak(parts: seq<Part>)
    requires !HaveTypes(parts)
    ensures AnyLeaks(parts, 0, true) <==> Comma in parts
    decreases parts, 0
  {
    if parts != [] {
      DrainedTypesLeak(parts[1..]);
      assert parts == [parts[0]] + parts[1..];
    }
  }

  /** Some part with an arrow stands before a comma. */
  predicate ArrowBeforeComma(parts: seq<Part>) {
    parts != [] && ((HasArrow(parts[0]) && Comma in parts[1..]) || ArrowBeforeComma(parts[1..]))
  }

  /** Type arguments without further ones inside leak exactly when an arrow in them comes before a comma of theirs. */
  lemma {:induction false} FlatTypesLeak(parts: seq<Part>)
    requires !HaveTypes(parts)
    ensures AnyLeaks(parts, 1, true) <==> ArrowBeforeComma(parts)
    decreases parts, 0
  {
    if parts != [] {
      FlatPartDrains(parts[0]);
      DrainedTypesLeak(parts[1..]);
      FlatTypesLeak(parts[1..]);
      if AnyLeaks(parts[1..], 1, true) && HasArrow(parts[0]) {
        CommaLater(parts[1..]);
      }
      if ArrowBeforeComma(parts[1..]) {
        CommaLater(parts[1..]);
      }
    }
  }

  lemma {:induction false} CommaLater(parts: seq<Part>)
    ensures ArrowBeforeComma(parts) ==> Comma in parts
  {
    if parts != [] {
      CommaLater(parts[1..]);
      assert parts == [parts[0]] + parts[1..];
    }
  }

  lemma FirstPart(first: Part, rest: seq<Part>, place: Place, counts: bool, open: nat)
    requires !counts ==> open == 0
    ensures AreParts([first] + rest, place, counts) <==> IsPart(first, place, counts) && AreParts(rest, place, counts)
    ensures AnyLeaks([first] + rest, open, counts)
            <==> Leaks(first, open, counts) || AnyLeaks(rest, Drain(first, open, counts), counts)
  {
    assert ([first] + rest)[1..] == rest;
  }

  /** `()->U,S` */
  const ARROW_AND_COMMA: seq<Part> := [Group('(', [])] + ([Arrow] + ([Char('U')] + ([Comma] + ([Char('S')] + []))))

  /** `m:M<()->U,S>` is one parameter, and is cut in two. */
  const FUNCTION_IN_TYPES: Parameter :=
    Parameter([Char('m')] + ([Char(':')] + ([Char('M')] + ([TypeArguments(ARROW_AND_COMMA)] + []))), None)

  lemma ArrowAndCommaLeak()
    ensures AreParts(ARROW_AND_COMMA, InTypes, true) && AnyLeaks(ARROW_AND_COMMA, 1, true)
  {
    FirstPart(Char('S'), [], InTypes, true, 0);
    FirstPart(Comma, [Char('S')] + [], InTypes, true, 0);
    FirstPart(Char('U'), [Comma] + ([Char('S')] + []), InTypes, true, 0);
    FirstPart(Arrow, [Char('U')] + ([Comma] + ([Char('S')] + [])), InTypes, true, 1);
    FirstPart(Group('(', []), [Arrow] + ([Char('U')] + ([Comma] + ([Char('S')] + []))), InTypes, true, 1);
  }

  lemma ArrowSplitsParameter()
    ensures IsParameter(FUNCTION_IN_TYPES) && ParameterLeaks(FUNCTION_IN_TYPES)
    ensures
      var text := ParameterText(FUNCTION_IN_TYPES);
      Values(Split(text, 0, |text|, true)) != [text]
  {
    var types, text := TypeArguments(ARROW_AND_COMMA), ParameterText(FUNCTION_IN_TYPES);
    ArrowAndCommaLeak();
    FirstPart(types, [], InList, true, 0);
    FirstPart(Char('M'), [types] + [], InList, true, 0);
    FirstPart(Char(':'), [Char('M')] + ([types] + []), InList, true, 0);
    FirstPart(Char('m'), [Char(':')] + ([Char('M')] + ([types] + [])), InList, true, 0);
    assert text[0..|text|] == text == Join([text]);
    assert ParameterTexts([FUNCTION_IN_TYPES]) == [text];
    ParametersAreSplit(text, 0, |text|, [FUNCTION_IN_TYPES]);
  }
}
