/** Cutting the JSON envelope off the front of an agent's output, checked against the grammar of RFC 8259. */
module AgentEnvelope {
  import opened Wrappers
  import opened Text
  import opened BraceBlocks

  // ----- the scanner

  datatype EnvelopeError = NoEnvelope | NotAnObject | Incomplete | NotJson

  const QUOTES: set<char> := {'"'}

  /** The text handed to `JSON.parse`, and what is left after it, trimmed. */
  function Cut(stdout: string): Result<(string, string), EnvelopeError> {
    var value := TrimStart(stdout);
    if value == "" then Err(NoEnvelope)
    else if value[0] != '{' then Err(NotAnObject)
    else
      match Closing(value, Outside(0), QUOTES)
      case None => Err(Incomplete)
      case Some(n) => Ok((value[..n], Trim(value[n..])))
  }

  function Parsed<T>(cut: (string, string), parse: string -> Option<T>): Result<(T, string), EnvelopeError> {
    match parse(cut.0)
    case None => Err(NotJson)
    case Some(envelope) => Ok((envelope, cut.1))
  }

  /** `parse` stands for `JSON.parse`, which throws on what it cannot read. */
  function Envelope<T>(stdout: string, parse: string -> Option<T>): Result<(T, string), EnvelopeError> {
    match Cut(stdout)
    case Err(error) => Err(error)
    case Ok(cut) => Parsed(cut, parse)
  }

  /** The loop over the characters: how many of them the object takes. */
  method FindObjectEnd(value: string) returns (n: Option<nat>)
    requires value != "" && value[0] == '{'
    ensures n == Closing(value, Outside(0), QUOTES)
  {
    var depth: int, escaped, inString := 0, false, false;
    ghost var closing := Closing(value, Outside(0), QUOTES);
    for index := 0 to |value|
      invariant depth >= 0 && (index > 0 ==> depth >= 1) && (index == 0 ==> !inString) && (escaped ==> inString)
      invariant
        var lexer := Lexer(depth, if inString then Some('"') else None, escaped);
        closing == Advance(index, Closing(value[index..], lexer, QUOTES))
    {
      var character := value[index];
      assert value[index..][1..] == value[index + 1..];
      if inString {
        if escaped {
          escaped := false;
        } else if character == '\\' {
          escaped := true;
        } else if character == '"' {
          inString := false;
        }
        continue;
      }
      if character == '"' {
        inString := true;
      } else if character == '{' {
        depth := depth + 1;
      } else if character == '}' {
        depth := depth - 1;
        if depth == 0 {
          return Some(index + 1);
        }
      }
    }
    return None;
  }

  method ParseAgentExecOutput<T>(stdout: string, parse: string -> Option<T>) returns (r: Result<(T, string), EnvelopeError>)
    ensures r == Envelope(stdout, parse)
  {
    var value := TrimStart(stdout);
    if value == "" {
      return Err(NoEnvelope);
    }
    if value[0] != '{' {
      return Err(NotAnObject);
    }
    var end := FindObjectEnd(value);
    if end.None? {
      return Err(Incomplete);
    }
    var envelope := parse(value[..end.value]);
    if envelope.None? {
      return Err(NotJson);
    }
    return Ok((envelope.value, Trim(value[end.value..])));
  }

  // ----- JSON texts, RFC 8259 sections 2 to 7

  datatype JsonChar = Unescaped(c: char) | Short(c: char) | Hex(digits: string)

  datatype Number = Number(minus: bool, integer: string, fraction: Option<string>, exponent: Option<(string, string)>)

  datatype Json =
    | Literal(name: string)
    | Numeric(number: Number)
    | Str(chars: seq<JsonChar>)
    | Array(blank: string, elements: seq<Element>)
    | Object(blank: string, members: seq<Member>)

  datatype Element = Element(before: string, value: Json, after: string)

  datatype Member = Member(
    before: string, name: seq<JsonChar>, beforeColon: string, afterColon: string, value: Json, after: string)

  predicate IsWhitespace(s: string) {
    forall i :: 0 <= i < |s| ==> s[i] in {' ', '\t', '\n', '\r'}
  }

  predicate IsHexDigit(c: char) {
    IsDigit(c) || 'a' <= c <= 'f' || 'A' <= c <= 'F'
  }

  predicate IsJsonChar(c: JsonChar) {
    match c
    case Unescaped(c) => c != '"' && c != '\\' && c >= ' '
    case Short(c) => c in {'"', '\\', '/', 'b', 'f', 'n', 'r', 't'}
    case Hex(digits) => |digits| == 4 && forall i :: 0 <= i < 4 ==> IsHexDigit(digits[i])
  }

  predicate AreJsonChars(chars: seq<JsonChar>) {
    forall i :: 0 <= i < |chars| ==> IsJsonChar(chars[i])
  }

  predicate IsNumber(n: Number) {
    && n.integer != "" && IsNumeric(n.integer) && (n.integer[0] == '0' ==> |n.integer| == 1)
    && (n.fraction.Some? ==> n.fraction.value != "" && IsNumeric(n.fraction.value))
    && (n.exponent.Some? ==>
          && n.exponent.value.0 in {"e", "e+", "e-", "E", "E+", "E-"}
          && n.exponent.value.1 != "" && IsNumeric(n.exponent.value.1))
  }

  predicate IsJson(json: Json)
    decreases json, 1
  {
    match json
    case Literal(name) => name in {"true", "false", "null"}
    case Numeric(number) => IsNumber(number)
    case Str(chars) => AreJsonChars(chars)
    case Array(blank, elements) => IsWhitespace(blank) && (elements != [] ==> blank == "") && AreElements(elements)
    case Object(blank, members) => IsWhitespace(blank) && (members != [] ==> blank == "") && AreMembers(members)
  }

  predicate AreElements(elements: seq<Element>)
    decreases elements, 0
  {
    elements != [] ==>
      var e := elements[0];
      IsWhitespace(e.before) && IsJson(e.value) && IsWhitespace(e.after) && AreElements(elements[1..])
  }

  predicate AreMembers(members: seq<Member>)
    decreases members, 0
  {
    members != [] ==>
      var m := members[0];
      && IsWhitespace(m.before) && AreJsonChars(m.name) && IsWhitespace(m.beforeColon) && IsWhitespace(m.afterColon)
      && IsJson(m.value) && IsWhitespace(m.after) && AreMembers(members[1..])
  }

  function CharText(c: JsonChar): string {
    match c
    case Unescaped(c) => [c]
    case Short(c) => ['\\', c]
    case Hex(digits) => "\\u" + digits
  }

  function CharsText(chars: seq<JsonChar>): string {
    if chars == [] then "" else CharText(chars[0]) + CharsText(chars[1..])
  }

  function StringText(chars: seq<JsonChar>): string {
    "\"" + CharsText(chars) + "\""
  }

  function NumberText(n: Number): string {
    (if n.minus then "-" else "") + n.integer
    + (if n.fraction.Some? then "." + n.fraction.value else "")
    + (if n.exponent.Some? then n.exponent.value.0 + n.exponent.value.1 else "")
  }

  function JsonText(json: Json): string
    decreases json, 1
  {
    match json
    case Literal(name) => name
    case Numeric(number) => NumberText(number)
    case Str(chars) => StringText(chars)
    case Array(blank, elements) => "[" + (blank + ElementsText(elements)) + "]"
    case Object(blank, members) => "{" + (blank + MembersText(members)) + "}"
  }

  function ElementsText(elements: seq<Element>): string
    decreases elements, 0
  {
    if elements == [] then ""
    else
      var e := elements[0];
      (e.before + JsonText(e.value) + e.after) + (if |elements| > 1 then "," else "") + ElementsText(elements[1..])
  }

  function MembersText(members: seq<Member>): string
    decreases members, 0
  {
    if members == [] then ""
    else
      var m := members[0];
      (m.before + StringText(m.name) + (m.beforeColon + ":" + m.afterColon) + JsonText(m.value) + m.after)
      + (if |members| > 1 then "," else "") + MembersText(members[1..])
  }

  // ----- the scanner passes over every value

  /** Inside an object, the scanner reads the text and is where it was before. */
  ghost predicate IsSkipped(text: string) {
    forall depth: nat, rest: string :: depth >= 1 ==> SkipsAt(text, depth, rest)
  }

  predicate SkipsAt(text: string, depth: nat, rest: string) {
    Closing(text + rest, Outside(depth), QUOTES) == Advance(|text|, Closing(rest, Outside(depth), QUOTES))
  }

  lemma SkippedConcat(a: string, b: string)
    requires IsSkipped(a) && IsSkipped(b)
    ensures IsSkipped(a + b)
  {
    forall depth: nat, rest: string | depth >= 1
      ensures SkipsAt(a + b, depth, rest)
    {
      assert SkipsAt(a, depth, b + rest) && SkipsAt(b, depth, rest);
      assert (a + b) + rest == a + (b + rest);
    }
  }

  predicate IsPlain(s: string) {
    forall i :: 0 <= i < |s| ==> s[i] !in {'"', '{', '}'}
  }

  lemma {:induction false} PlainIsSkipped(s: string)
    requires IsPlain(s)
    ensures IsSkipped(s)
  {
    forall depth: nat, rest: string | depth >= 1
      ensures SkipsAt(s, depth, rest)
    {
      if s == "" {
        assert s + rest == rest;
      } else {
        PlainIsSkipped(s[1..]);
        assert SkipsAt(s[1..], depth, rest);
        assert (s + rest)[1..] == s[1..] + rest;
      }
    }
  }

  lemma BlockIsSkipped(s: string)
    requires IsSkipped(s)
    ensures IsSkipped("{" + s + "}")
  {
    forall depth: nat, rest: string | depth >= 1
      ensures SkipsAt("{" + s + "}", depth, rest)
    {
      assert SkipsAt(s, depth + 1, ['}'] + rest);
      ReadBlock(|s|, s + (['}'] + rest), ['}'] + rest, rest, depth, QUOTES);
      assert ("{" + s + "}") + rest == ['{'] + (s + (['}'] + rest));
    }
  }

  /** The characters of a JSON string, as the scanner's quoted characters. */
  function Body(chars: seq<JsonChar>): seq<QuotedChar> {
    if chars == [] then [] else CharBody(chars[0]) + Body(chars[1..])
  }

  function CharBody(c: JsonChar): seq<QuotedChar> {
    match c
    case Unescaped(c) => [Raw(c)]
    case Short(c) => [Escaped(c)]
    case Hex(digits) => [Escaped('u')] + Raws(digits)
  }

  function Raws(digits: string): seq<QuotedChar> {
    seq(|digits|, i requires 0 <= i < |digits| => Raw(digits[i]))
  }

  lemma {:induction false} BodyTextConcat(a: seq<QuotedChar>, b: seq<QuotedChar>)
    ensures BodyText(a + b) == BodyText(a) + BodyText(b)
  {
    if a == [] {
      assert a + b == b;
    } else {
      var ab, rest := a + b, a[1..];
      assert ab[0] == a[0] && ab[1..] == rest + b;
      BodyTextConcat(rest, b);
      calc {
        BodyText(ab);
        QuotedText(a[0]) + (BodyText(rest) + BodyText(b));
        (QuotedText(a[0]) + BodyText(rest)) + BodyText(b);
        BodyText(a) + BodyText(b);
      }
    }
  }

  lemma {:induction false} RawText(digits: string)
    ensures BodyText(Raws(digits)) == digits
  {
    if digits != "" {
      RawText(digits[1..]);
      assert Raws(digits)[1..] == Raws(digits[1..]);
    }
  }

  lemma CharIsBody(c: JsonChar)
    requires IsJsonChar(c)
    ensures IsBody(CharBody(c), '"') && BodyText(CharBody(c)) == CharText(c)
  {
    match c
    case Unescaped(u) =>
      assert CharBody(c)[1..] == [];
    case Short(u) =>
      assert CharBody(c)[1..] == [];
    case Hex(digits) =>
      RawText(digits);
      assert CharBody(c)[1..] == Raws(digits);
      assert forall i :: 0 <= i < |digits| ==> IsHexDigit(digits[i]);
  }

  lemma {:induction false} BodyIsCharsText(chars: seq<JsonChar>)
    requires AreJsonChars(chars)
    ensures IsBody(Body(chars), '"') && BodyText(Body(chars)) == CharsText(chars)
  {
    if chars != [] {
      CharIsBody(chars[0]);
      BodyIsCharsText(chars[1..]);
      BodyTextConcat(CharBody(chars[0]), Body(chars[1..]));
    }
  }

  lemma StringIsSkipped(chars: seq<JsonChar>)
    requires AreJsonChars(chars)
    ensures IsSkipped(StringText(chars))
  {
    BodyIsCharsText(chars);
    forall depth: nat, rest: string | depth >= 1
      ensures SkipsAt(StringText(chars), depth, rest)
    {
      PieceIsSkipped(Quoted('"', Body(chars)), depth, rest, QUOTES);
      assert StringText(chars) == PieceText(Quoted('"', Body(chars)));
    }
  }

  lemma NumberIsSkipped(n: Number)
    requires IsNumber(n)
    ensures IsSkipped(NumberText(n))
  {
    var fraction := if n.fraction.Some? then "." + n.fraction.value else "";
    var exponent := if n.exponent.Some? then n.exponent.value.0 + n.exponent.value.1 else "";
    assert IsPlain(fraction) && IsPlain(exponent);
    assert forall i :: 0 <= i < |n.integer| ==> IsDigit(n.integer[i]);
    PlainIsSkipped(NumberText(n));
  }

  lemma {:induction false} JsonIsSkipped(json: Json)
    requires IsJson(json)
    ensures IsSkipped(JsonText(json))
    decreases json, 1
  {
    match json
    case Literal(name) => PlainIsSkipped(name);
    case Numeric(number) => NumberIsSkipped(number);
    case Str(chars) => StringIsSkipped(chars);
    case Array(blank, elements) =>
      PlainIsSkipped(blank);
      ElementsAreSkipped(elements);
      SkippedConcat(blank, ElementsText(elements));
      PlainIsSkipped("[");
      PlainIsSkipped("]");
      SkippedConcat("[", blank + ElementsText(elements));
      SkippedConcat("[" + (blank + ElementsText(elements)), "]");
    case Object(blank, members) =>
      PlainIsSkipped(blank);
      MembersAreSkipped(members);
      SkippedConcat(blank, MembersText(members));
      BlockIsSkipped(blank + MembersText(members));
  }

  lemma {:induction false} ElementsAreSkipped(elements: seq<Element>)
    requires AreElements(elements)
    ensures IsSkipped(ElementsText(elements))
    decreases elements, 0
  {
    if elements == [] {
      PlainIsSkipped("");
    } else {
      var e := elements[0];
      var comma := if |elements| > 1 then "," else "";
      PlainIsSkipped(e.before);
      JsonIsSkipped(e.value);
      PlainIsSkipped(e.after);
      PlainIsSkipped(comma);
      ElementsAreSkipped(elements[1..]);
      SkippedConcat(e.before, JsonText(e.value));
      SkippedConcat(e.before + JsonText(e.value), e.after);
      SkippedConcat(e.before + JsonText(e.value) + e.after, comma);
      SkippedConcat(e.before + JsonText(e.value) + e.after + comma, ElementsText(elements[1..]));
    }
  }

  lemma {:induction false} MembersAreSkipped(members: seq<Member>)
    requires AreMembers(members)
    ensures IsSkipped(MembersText(members))
    decreases members, 0
  {
    if members == [] {
      PlainIsSkipped("");
    } else {
      var m := members[0];
      var comma := if |members| > 1 then "," else "";
      var colon := m.beforeColon + ":" + m.afterColon;
      PlainIsSkipped(m.before);
      StringIsSkipped(m.name);
      PlainIsSkipped(colon);
      JsonIsSkipped(m.value);
      PlainIsSkipped(m.after);
      PlainIsSkipped(comma);
      MembersAreSkipped(members[1..]);
      SkippedConcat(m.before, StringText(m.name));
      SkippedConcat(m.before + StringText(m.name), colon);
      SkippedConcat(m.before + StringText(m.name) + colon, JsonText(m.value));
      var text := m.before + StringText(m.name) + colon + JsonText(m.value);
      SkippedConcat(text, m.after);
      SkippedConcat(text + m.after, comma);
      SkippedConcat(text + m.after + comma, MembersText(members[1..]));
    }
  }

  // ----- the cut

  /** An object text is cut exactly at its closing brace, whatever stands before and after it. */
  lemma EnvelopeIsCut<T>(json: Json, lead: string, trailing: string, parse: string -> Option<T>)
    requires json.Object? && IsJson(json)
    requires AllSpace(lead)
    ensures Cut(lead + JsonText(json) + trailing) == Ok((JsonText(json), Trim(trailing)))
    ensures Envelope(lead + JsonText(json) + trailing, parse) ==
            match parse(JsonText(json)) case Some(value) => Ok((value, Trim(trailing))) case None => Err(NotJson)
  {
    var text := JsonText(json);
    var value := text + trailing;
    assert lead + text + trailing == lead + value && value[0] == '{';
    TrimStartDrops(lead, value);
    ObjectCloses(json, trailing);
    assert value[..|text|] == text && value[|text|..] == trailing;
  }

  /** JSON white space in front is skipped as well as any other. */
  lemma EnvelopeIsCutAfterWhitespace<T>(json: Json, lead: string, trailing: string, parse: string -> Option<T>)
    requires json.Object? && IsJson(json) && IsWhitespace(lead)
    ensures Envelope(lead + JsonText(json) + trailing, parse) ==
            match parse(JsonText(json)) case Some(value) => Ok((value, Trim(trailing))) case None => Err(NotJson)
  {
    assert forall i :: 0 <= i < |lead| ==> lead[i] in {' ', '\t', '\n', '\r'};
    EnvelopeIsCut(json, lead, trailing, parse);
  }

  /** A text that breaks off inside the object is reported, never cut short, and never parsed. */
  lemma BrokenEnvelopeIsIncomplete<T>(json: Json, k: nat, parse: string -> Option<T>)
    requires json.Object? && IsJson(json) && 0 < k < |JsonText(json)|
    ensures Envelope(JsonText(json)[..k], parse) == Err(Incomplete)
  {
    var text := JsonText(json);
    ObjectCloses(json, "");
    assert text + "" == text && text[0] == '{';
    ClosingIsFirst(text, Outside(0), QUOTES, k);
    assert text[..k][0] == '{';
    TrimStartDrops("", text[..k]);
    assert "" + text[..k] == text[..k];
  }

  lemma ObjectCloses(json: Json, trailing: string)
    requires json.Object? && IsJson(json)
    ensures Closing(JsonText(json) + trailing, Outside(0), QUOTES) == Some(|JsonText(json)|)
  {
    var inner := json.blank + MembersText(json.members);
    PlainIsSkipped(json.blank);
    MembersAreSkipped(json.members);
    SkippedConcat(json.blank, MembersText(json.members));
    assert SkipsAt(inner, 1, "}" + trailing);
    assert (JsonText(json) + trailing)[1..] == inner + ("}" + trailing);
    assert ("}" + trailing)[0] == '}';
  }

  /** Nothing but space is no envelope, and only an object is one. */
  lemma WhenThereIsNoObject(stdout: string)
    ensures Cut(stdout) == Err(NoEnvelope) <==> AllSpace(stdout)
    ensures Cut(stdout) == Err(NotAnObject) <==> exists i :: 0 <= i < |stdout| && IsFirstVisible(stdout, i) && stdout[i] != '{'
  {
    var i := FirstVisible(stdout);
    if i == |stdout| {
      assert stdout == stdout + "";
      TrimStartDrops(stdout, "");
    } else {
      assert stdout == stdout[..i] + stdout[i..];
      TrimStartDrops(stdout[..i], stdout[i..]);
      assert IsFirstVisible(stdout, i);
    }
  }

  predicate IsFirstVisible(s: string, i: nat)
    requires i < |s|
  {
    !IsSpace(s[i]) && forall j :: 0 <= j < i ==> IsSpace(s[j])
  }

  function FirstVisible(s: string): (i: nat)
    ensures i <= |s| && AllSpace(s[..i])
    ensures i < |s| ==> IsFirstVisible(s, i)
  {
    if s == "" || !IsSpace(s[0]) then 0 else 1 + FirstVisible(s[1..])
  }

  /** In any output, what is cut off is a brace, well-quoted pieces, and the brace that matches the first. */
  lemma CutIsBlock(stdout: string)
    ensures Cut(stdout).Ok? ==>
              var (cut, _) := Cut(stdout).value;
              cut <= TrimStart(stdout) && cut != "" && cut[0] == '{' && IsBlockRest(cut[1..], {'"'})
    ensures Cut(stdout) == Err(Incomplete) ==>
              var value := TrimStart(stdout);
              forall n :: 1 <= n <= |value| ==> !IsBlockRest(value[1..n], QUOTES)
  {
    var value := TrimStart(stdout);
    if value != "" && value[0] == '{' {
      var rest := value[1..];
      match Closing(value, Outside(0), QUOTES)
      case Some(n) =>
        ClosingIsBlockRest(rest, n - 1, QUOTES);
        assert value[..n][1..] == rest[..n - 1];
      case None =>
        forall n | 1 <= n <= |value|
          ensures !IsBlockRest(value[1..n], {'"'})
        {
          ClosingIsBlockRest(rest, n - 1, QUOTES);
          assert value[1..n] == rest[..n - 1];
        }
    }
  }
}
