/** Reading the provider's reply to one prompt. */
module TranslationReply {
  import opened Wrappers
  import opened Text
  import opened TranslationBatches

  /** A member of the parsed reply. */
  datatype JsonValue = Text(value: string) | NotText

  /**
   What one attempt meets: the client or the provider throws, the reply is not an object that can be
   read, or it is.  `parityMessage` is the text of the error that a placeholder mismatch raises.
   */
  datatype Attempt =
    | Threw(message: string)
    | Malformed(message: string)
    | Replied(fields: map<string, JsonValue>, parityMessage: string)

  // ----- reading a reply

  predicate IsWordChar(c: char) {
    'a' <= c <= 'z' || 'A' <= c <= 'Z' || '0' <= c <= '9' || c == '_'
  }

  predicate IsWord(s: string) {
    s != "" && forall i :: 0 <= i < |s| ==> IsWordChar(s[i])
  }

  /** Names `w` such that `{w}` occurs in the text. */
  function Placeholders(text: string): set<string> {
    set i, j | 0 <= i < j < |text| && text[i] == '{' && text[j] == '}' && IsWord(text[i + 1..j]) :: text[i + 1..j]
  }

  predicate IsBlank(s: string) {
    Trim(s) == ""
  }

  predicate SamePlaceholders(a: string, b: string) {
    Placeholders(a) == Placeholders(b)
  }

  /** The texts by key; a later item replaces an earlier one with the same key. */
  function TextByKey(items: seq<Item>): map<string, string> {
    if items == [] then map[]
    else
      var last := items[|items| - 1];
      TextByKey(items[..|items| - 1])[last.key := last.text]
  }

  /** The item at `i` is the last one with its key. */
  predicate IsLatest(items: seq<Item>, i: nat)
    requires i < |items|
  {
    forall j :: i < j < |items| ==> items[j].key != items[i].key
  }

  lemma {:induction false} TextByKeyHolds(items: seq<Item>, key: string)
    ensures key in TextByKey(items) <==> exists i :: 0 <= i < |items| && items[i].key == key
  {
    if items != [] {
      var n := |items| - 1;
      TextByKeyHolds(items[..n], key);
      if i :| 0 <= i < n && items[i].key == key {
        assert items[..n][i].key == key;
      }
    }
  }

  lemma {:induction false} TextByKeyGives(items: seq<Item>, i: nat)
    requires i < |items| && IsLatest(items, i)
    ensures items[i].key in TextByKey(items) && TextByKey(items)[items[i].key] == items[i].text
  {
    var n := |items| - 1;
    if i < n {
      assert items[n].key != items[i].key;
      TextByKeyGives(items[..n], i);
    }
  }

  /** Its keys are the items' keys, and each item not replaced later is found under its key. */
  lemma TextByKeyIsLatest(items: seq<Item>)
    ensures forall key :: key in TextByKey(items) <==> exists i :: 0 <= i < |items| && items[i].key == key
    ensures forall i :: 0 <= i < |items| && IsLatest(items, i) ==> TextByKey(items)[items[i].key] == items[i].text
  {
    forall key
      ensures key in TextByKey(items) <==> exists i :: 0 <= i < |items| && items[i].key == key
    {
      TextByKeyHolds(items, key);
    }
    forall i: nat | i < |items| && IsLatest(items, i)
      ensures TextByKey(items)[items[i].key] == items[i].text
    {
      TextByKeyGives(items, i);
    }
  }

  /** Exactly the keys that were asked for, each with a non-blank text that has its placeholders. */
  predicate IsComplete(translated: map<string, string>, items: seq<Item>) {
    && translated.Keys == TextByKey(items).Keys
    && forall key <- translated ::
         !IsBlank(translated[key]) && SamePlaceholders(TextByKey(items)[key], translated[key])
  }

  predicate HasText(fields: map<string, JsonValue>, key: string) {
    key in fields && fields[key].Text? && !IsBlank(fields[key].value)
  }

  predicate AllHaveText(fields: map<string, JsonValue>, items: seq<Item>) {
    forall i :: 0 <= i < |items| ==> HasText(fields, items[i].key)
  }

  function ReadReply(fields: map<string, JsonValue>, items: seq<Item>): (r: map<string, string>)
    requires AllHaveText(fields, items)
    ensures r.Keys == TextByKey(items).Keys
    ensures forall key <- r :: HasText(fields, key) && r[key] == fields[key].value
  {
    if items == [] then map[]
    else
      var n := |items| - 1;
      assert HasText(fields, items[n].key);
      ReadReply(fields, items[..n])[items[n].key := fields[items[n].key].value]
  }

  function FirstMissing(fields: map<string, JsonValue>, items: seq<Item>): string
    requires !AllHaveText(fields, items)
  {
    var n := |items| - 1;
    if AllHaveText(fields, items[..n]) then items[n].key else FirstMissing(fields, items[..n])
  }

  /** A text that was not translated counts as empty. */
  predicate HasParity(source: map<string, string>, translated: map<string, string>) {
    forall key <- source :: SamePlaceholders(source[key], if key in translated then translated[key] else "")
  }

  function MissingMessage(key: string): string {
    "missing translation for " + key
  }

  /** The outcome of one attempt: the translations, or the message of the error. */
  function Outcome(attempt: Attempt, items: seq<Item>): Result<map<string, string>, string> {
    match attempt
    case Threw(message) => Err(message)
    case Malformed(message) => Err(message)
    case Replied(fields, parityMessage) =>
      if !AllHaveText(fields, items) then Err(MissingMessage(FirstMissing(fields, items)))
      else if !HasParity(TextByKey(items), ReadReply(fields, items)) then Err(parityMessage)
      else Ok(ReadReply(fields, items))
  }

  /** The replied texts for the items' keys, if they are texts. */
  predicate IsReplied(translated: map<string, string>, fields: map<string, JsonValue>) {
    forall key <- translated :: key in fields && fields[key] == Text(translated[key])
  }

  /** A reply is accepted exactly when its texts for the items' keys are complete, and these are the answer. */
  lemma AcceptedReplies(fields: map<string, JsonValue>, parityMessage: string, items: seq<Item>, translated: map<string, string>)
    ensures Outcome(Replied(fields, parityMessage), items) == Ok(translated)
            <==> IsReplied(translated, fields) && IsComplete(translated, items)
  {
    if IsReplied(translated, fields) && IsComplete(translated, items) {
      TextByKeyIsLatest(items);
      assert AllHaveText(fields, items) by {
        forall i | 0 <= i < |items|
          ensures HasText(fields, items[i].key)
        {
          assert items[i].key in TextByKey(items) && items[i].key in translated;
        }
      }
      assert ReadReply(fields, items) == translated;
    }
  }

  /** A refusal names the first item without a text; only with all texts there is it about placeholders. */
  lemma RefusedReplies(fields: map<string, JsonValue>, parityMessage: string, items: seq<Item>, i: nat)
    requires i < |items| && (forall j :: 0 <= j < i ==> HasText(fields, items[j].key)) && !HasText(fields, items[i].key)
    ensures Outcome(Replied(fields, parityMessage), items) == Err("missing translation for " + items[i].key)
  {
    FirstMissingAt(fields, items, i);
  }

  lemma OutcomeIsComplete(attempt: Attempt, items: seq<Item>)
    requires Outcome(attempt, items).Ok?
    ensures IsComplete(Outcome(attempt, items).value, items)
  {
  }

  lemma FirstMissingAt(fields: map<string, JsonValue>, items: seq<Item>, i: nat)
    requires i < |items| && AllHaveText(fields, items[..i]) && !HasText(fields, items[i].key)
    ensures !AllHaveText(fields, items) && FirstMissing(fields, items) == items[i].key
  {
    var n := |items| - 1;
    if i < n {
      assert items[..n][..i] == items[..i];
      FirstMissingAt(fields, items[..n], i);
    }
  }

  lemma ReadOneMore(fields: map<string, JsonValue>, items: seq<Item>, i: nat)
    requires i < |items| && AllHaveText(fields, items[..i]) && HasText(fields, items[i].key)
    ensures AllHaveText(fields, items[..i + 1])
    ensures ReadReply(fields, items[..i + 1]) == ReadReply(fields, items[..i])[items[i].key := fields[items[i].key].value]
    ensures TextByKey(items[..i + 1]) == TextByKey(items[..i])[items[i].key := items[i].text]
  {
    assert items[..i + 1][..i] == items[..i];
  }

  method ParseTranslationBatchReply(attempt: Attempt, items: seq<Item>) returns (r: Result<map<string, string>, string>)
    requires attempt.Replied?
    ensures r == Outcome(attempt, items)
  {
    var fields := attempt.fields;
    var translated: map<string, string> := map[];
    var sources: map<string, string> := map[];
    for i := 0 to |items|
      invariant AllHaveText(fields, items[..i])
      invariant translated == ReadReply(fields, items[..i])
      invariant sources == TextByKey(items[..i])
    {
      var key := items[i].key;
      if key !in fields || !fields[key].Text? || IsBlank(fields[key].value) {
        assert !HasText(fields, items[i].key);
        FirstMissingAt(fields, items, i);
        return Err(MissingMessage(key));
      }
      ReadOneMore(fields, items, i);
      translated := translated[key := fields[key].value];
      sources := sources[key := items[i].text];
    }
    assert items[..|items|] == items;
    if !HasParity(sources, translated) {
      return Err(attempt.parityMessage);
    }
    return Ok(translated);
  }
}
