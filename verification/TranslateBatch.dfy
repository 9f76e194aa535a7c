/** Translating one batch: retry once, and bisect on a timeout, against a provider that may answer anything. */
module TranslateBatch {
  import opened Wrappers
  import opened Text
  import opened TranslationBatches
  import opened TranslationReply

  const TRANSLATE_MAX_ATTEMPTS: nat := 2

  /** The provider as an adversary: any outcome at each of its successive attempts, whatever the items. */
  type Provider = (nat, seq<Item>) -> Attempt

  type Translations = Result<map<string, string>, string>

  /** What the attempts come to, once their replies have been read. */
  type Judge = (nat, seq<Item>) -> Translations

  function JudgeOf(provider: Provider): Judge {
    (next: nat, items: seq<Item>) => Outcome(provider(next, items), items)
  }

  function LowerChar(c: char): char {
    if 'A' <= c <= 'Z' then (c as int + 32) as char else c
  }

  predicate Contains(s: string, part: string) {
    part <= s || (s != "" && Contains(s[1..], part))
  }

  predicate IsPromptTimeout(message: string) {
    Contains(LowerCase(message), "timed out")
  }

  /** The larger half of n. */
  function Midpoint(n: nat): (m: nat)
    ensures m <= n && 0 <= m - (n - m) <= 1
  {
    (n + 1) / 2
  }

  // ----- which errors are timeouts

  /** The character is the lower-case letter, or its capital, or the very character if it is no letter. */
  predicate IsLetter(c: char, lower: char) {
    c == lower || ('a' <= lower <= 'z' && c as int + 32 == lower as int)
  }

  predicate SpellsTimedOut(s: string) {
    |s| == 9 && forall i :: 0 <= i < 9 ==> IsLetter(s[i], "timed out"[i])
  }

  /** A message of words around "timed out", in any letter case. */
  ghost predicate MentionsTimeout(message: string) {
    exists head, words, tail :: message == head + words + tail && SpellsTimedOut(words)
  }

  function LowerCase(s: string): string {
    seq(|s|, i requires 0 <= i < |s| => LowerChar(s[i]))
  }

  lemma {:induction false} ContainsAt(s: string, part: string)
    ensures Contains(s, part) <==> exists i :: 0 <= i <= |s| && part <= s[i..]
  {
    if s != "" {
      ContainsAt(s[1..], part);
      assert s[0..] == s;
      if i :| 0 <= i <= |s[1..]| && part <= s[1..][i..] {
        assert s[1..][i..] == s[i + 1..];
      }
      if i :| 0 < i <= |s| && part <= s[i..] {
        assert s[1..][i - 1..] == s[i..];
      }
    } else {
      assert s[0..] == s;
    }
  }

  lemma LowerMeansLetter(c: char, lower: char)
    requires 'a' <= lower <= 'z' || lower == ' '
    ensures LowerChar(c) == lower <==> IsLetter(c, lower)
  {
  }

  lemma SpellingIsLowerCase(s: string)
    ensures SpellsTimedOut(s) <==> LowerCase(s) == "timed out"
  {
    var words := "timed out";
    assert forall i :: 0 <= i < 9 ==> 'a' <= words[i] <= 'z' || words[i] == ' ';
    if |s| == 9 {
      forall i | 0 <= i < 9
        ensures LowerCase(s)[i] == words[i] <==> IsLetter(s[i], words[i])
      {
        LowerMeansLetter(s[i], words[i]);
      }
    }
    assert LowerCase(s) == words <==> |s| == |words| && forall i :: 0 <= i < |s| ==> LowerCase(s)[i] == words[i];
  }

  lemma SpelledAt(message: string, i: nat)
    requires i + 9 <= |message|
    ensures "timed out" <= LowerCase(message)[i..] <==> SpellsTimedOut(message[i..i + 9])
  {
    SpellingIsLowerCase(message[i..i + 9]);
    assert LowerCase(message[i..i + 9]) == LowerCase(message)[i..][..9];
  }

  /** An error is a timeout exactly when its message mentions one. */
  lemma TimeoutsAreMentioned(message: string)
    ensures IsPromptTimeout(message) <==> MentionsTimeout(message)
  {
    var lower, words := LowerCase(message), "timed out";
    ContainsAt(lower, words);
    if i :| 0 <= i <= |lower| && words <= lower[i..] {
      SpelledAt(message, i);
      assert message == message[..i] + message[i..i + 9] + message[i + 9..];
    }
    if head, part, tail :| message == head + part + tail && SpellsTimedOut(part) {
      assert message[|head|..|head| + 9] == part;
      SpelledAt(message, |head|);
    }
  }

  /** Result of the attempts from number `attempt` on, and the number of the provider's next attempt. */
  function Translate(judge: Judge, next: nat, items: seq<Item>, attempt: nat)
    : (Translations, nat)
    requires attempt < TRANSLATE_MAX_ATTEMPTS
    decreases |items|, TRANSLATE_MAX_ATTEMPTS - attempt
  {
    match judge(next, items)
    case Ok(translated) => (Ok(translated), next + 1)
    case Err(message) =>
      if IsPromptTimeout(message) then
        if |items| > 1 then
          var mid := Midpoint(|items|);
          var (left, afterLeft) := Translate(judge, next + 1, items[..mid], 0);
          if left.Err? then (left, afterLeft)
          else
            var (right, afterRight) := Translate(judge, afterLeft, items[mid..], 0);
            if right.Err? then (right, afterRight) else (Ok(left.value + right.value), afterRight)
        else (Err(message), next + 1)
      else if attempt + 1 < TRANSLATE_MAX_ATTEMPTS then Translate(judge, next + 1, items, attempt + 1)
      else (Err(message), next + 1)
  }

  method TranslateBatch(provider: Provider, start: nat, items: seq<Item>)
    returns (r: Translations, next: nat)
    ensures (r, next) == Translate(JudgeOf(provider), start, items, 0)
    decreases |items|
  {
    next := start;
    var lastError := "translation failed";
    for attempt := 0 to TRANSLATE_MAX_ATTEMPTS
      invariant attempt < TRANSLATE_MAX_ATTEMPTS ==>
          Translate(JudgeOf(provider), start, items, 0) == Translate(JudgeOf(provider), next, items, attempt)
      invariant attempt == TRANSLATE_MAX_ATTEMPTS ==> Translate(JudgeOf(provider), start, items, 0) == (Err(lastError), next)
    {
      var outcome := provider(next, items);
      next := next + 1;
      var translated: Translations;
      if outcome.Replied? {
        translated := ParseTranslationBatchReply(outcome, items);
      } else {
        translated := Err(outcome.message);
      }
      if translated.Ok? {
        return translated, next;
      }
      lastError := translated.error;
      if IsPromptTimeout(lastError) && |items| > 1 {
        var midpoint := (|items| + 1) / 2;
        var left, right;
        left, next := TranslateBatch(provider, next, items[..midpoint]);
        if left.Err? {
          return left, next;
        }
        right, next := TranslateBatch(provider, next, items[midpoint..]);
        if right.Err? {
          return right, next;
        }
        return Ok(left.value + right.value), next;
      }
      if IsPromptTimeout(lastError) {
        return Err(lastError), next;
      }
    }
    return Err(lastError), next;
  }

  lemma {:induction false} TextByKeyOfConcat(a: seq<Item>, b: seq<Item>)
    ensures TextByKey(a + b) == TextByKey(a) + TextByKey(b)
  {
    if b == [] {
      assert a + b == a;
    } else {
      TextByKeyOfConcat(a, b[..|b| - 1]);
      assert (a + b)[..|a + b| - 1] == a + b[..|b| - 1];
    }
  }

  lemma MergeIsComplete(left: map<string, string>, a: seq<Item>, right: map<string, string>, b: seq<Item>)
    requires IsComplete(left, a) && IsComplete(right, b)
    ensures IsComplete(left + right, a + b)
  {
    TextByKeyOfConcat(a, b);
  }

  /** Whatever the provider does and however the batch was split, a success answers every item. */
  lemma {:induction false} TranslationIsComplete(judge: Judge, next: nat, items: seq<Item>, attempt: nat)
    requires forall k, batch :: judge(k, batch).Ok? ==> IsComplete(judge(k, batch).value, batch)
    requires attempt < TRANSLATE_MAX_ATTEMPTS && Translate(judge, next, items, attempt).0.Ok?
    ensures IsComplete(Translate(judge, next, items, attempt).0.value, items)
    decreases |items|, TRANSLATE_MAX_ATTEMPTS - attempt
  {
    var outcome := judge(next, items);
    if outcome.Ok? {
      assert IsComplete(outcome.value, items);
    } else if !IsPromptTimeout(outcome.error) {
      TranslationIsComplete(judge, next + 1, items, attempt + 1);
    } else {
      var mid := Midpoint(|items|);
      var (left, afterLeft) := Translate(judge, next + 1, items[..mid], 0);
      TranslationIsComplete(judge, next + 1, items[..mid], 0);
      TranslationIsComplete(judge, afterLeft, items[mid..], 0);
      MergeIsComplete(left.value, items[..mid], Translate(judge, afterLeft, items[mid..], 0).0.value, items[mid..]);
      assert items == items[..mid] + items[mid..];
    }
  }

  /** At most 4n - 2 prompts for n items. */
  lemma {:induction false} PromptsAreBounded(judge: Judge, next: nat, items: seq<Item>, attempt: nat)
    requires attempt < TRANSLATE_MAX_ATTEMPTS && items != []
    ensures next < Translate(judge, next, items, attempt).1 <= next + 4 * |items| - 2 - attempt
    decreases |items|, TRANSLATE_MAX_ATTEMPTS - attempt
  {
    var outcome := judge(next, items);
    if outcome.Err? {
      if IsPromptTimeout(outcome.error) {
        if |items| > 1 {
          var mid := Midpoint(|items|);
          var (left, afterLeft) := Translate(judge, next + 1, items[..mid], 0);
          PromptsAreBounded(judge, next + 1, items[..mid], 0);
          PromptsAreBounded(judge, afterLeft, items[mid..], 0);
        }
      } else if attempt + 1 < TRANSLATE_MAX_ATTEMPTS {
        PromptsAreBounded(judge, next + 1, items, attempt + 1);
      }
    }
  }

  /** The same, for the replies as they are read. */
  lemma SuccessAnswersEveryItem(provider: Provider, start: nat, items: seq<Item>)
    requires Translate(JudgeOf(provider), start, items, 0).0.Ok?
    ensures IsComplete(Translate(JudgeOf(provider), start, items, 0).0.value, items)
  {
    forall k: nat, batch: seq<Item> | JudgeOf(provider)(k, batch).Ok?
      ensures IsComplete(JudgeOf(provider)(k, batch).value, batch)
    {
      OutcomeIsComplete(provider(k, batch), batch);
    }
    TranslationIsComplete(JudgeOf(provider), start, items, 0);
  }

  /** The previous attempt at the same items failed, and not by a timeout. */
  predicate IsRetry(judge: Judge, next: nat, items: seq<Item>) {
    next > 0 && judge(next - 1, items).Err? && !IsPromptTimeout(judge(next - 1, items).error)
  }

  /** What makes attempt `k` at some items the last one: a timeout that cannot be split, or a failed retry. */
  predicate IsFatal(judge: Judge, k: nat, items: seq<Item>, message: string) {
    && judge(k, items) == Err(message)
    && if IsPromptTimeout(message) then |items| <= 1 else IsRetry(judge, k, items)
  }

  /** A batch fails only by its last attempt, at some of its items, with that attempt's error. */
  lemma {:induction false} FailureIsFatal(judge: Judge, next: nat, items: seq<Item>, attempt: nat)
    returns (lo: nat, hi: nat, k: nat)
    requires attempt < TRANSLATE_MAX_ATTEMPTS && (attempt > 0 ==> IsRetry(judge, next, items))
    requires Translate(judge, next, items, attempt).0.Err?
    ensures lo <= hi <= |items| && Translate(judge, next, items, attempt).1 == k + 1
    ensures IsFatal(judge, k, items[lo..hi], Translate(judge, next, items, attempt).0.error)
    decreases |items|, TRANSLATE_MAX_ATTEMPTS - attempt
  {
    var message := judge(next, items).error;
    assert items[0..|items|] == items;
    if !IsPromptTimeout(message) && attempt + 1 < TRANSLATE_MAX_ATTEMPTS {
      lo, hi, k := FailureIsFatal(judge, next + 1, items, attempt + 1);
    } else if !IsPromptTimeout(message) || |items| <= 1 {
      lo, hi, k := 0, |items|, next;
    } else {
      var mid := Midpoint(|items|);
      var (left, afterLeft) := Translate(judge, next + 1, items[..mid], 0);
      if left.Err? {
        lo, hi, k := FailureIsFatal(judge, next + 1, items[..mid], 0);
        assert items[..mid][lo..hi] == items[lo..hi];
      } else {
        lo, hi, k := FailureIsFatal(judge, afterLeft, items[mid..], 0);
        assert items[mid..][lo..hi] == items[mid + lo..mid + hi];
        lo, hi := mid + lo, mid + hi;
      }
    }
  }

  // ----- timeouts are survived

  /** Batches of two or more items time out, in whatever words; single items are answered. */
  ghost predicate IsSlow(provider: Provider) {
    && (forall k, batch :: |batch| >= 2 ==> provider(k, batch).Threw? && MentionsTimeout(provider(k, batch).message))
    && (forall k, item :: Outcome(provider(k, [item]), [item]).Ok?)
  }

  ghost predicate IsSlowJudge(judge: Judge) {
    && (forall k, batch :: |batch| >= 2 ==> judge(k, batch).Err? && IsPromptTimeout(judge(k, batch).error))
    && (forall k, item :: judge(k, [item]).Ok?)
  }

  lemma {:induction false} SlowJudgeIsSurvived(judge: Judge, next: nat, items: seq<Item>)
    requires items != [] && IsSlowJudge(judge)
    ensures var (r, after) := Translate(judge, next, items, 0); r.Ok? && after == next + 2 * |items| - 1
    decreases |items|
  {
    if |items| == 1 {
      assert items == [items[0]] && judge(next, [items[0]]).Ok?;
    } else {
      var mid := Midpoint(|items|);
      assert judge(next, items).Err?;
      SlowJudgeIsSurvived(judge, next + 1, items[..mid]);
      SlowJudgeIsSurvived(judge, next + 2 * mid, items[mid..]);
    }
  }

  /** Bisection gets everything out of a provider that can only do one item at a time, in 2n - 1 prompts. */
  lemma SlowProviderIsSurvived(provider: Provider, start: nat, items: seq<Item>)
    requires items != [] && IsSlow(provider)
    ensures
      var (r, next) := Translate(JudgeOf(provider), start, items, 0);
      r.Ok? && IsComplete(r.value, items) && next == start + 2 * |items| - 1
  {
    forall k: nat, batch: seq<Item> | |batch| >= 2
      ensures JudgeOf(provider)(k, batch).Err? && IsPromptTimeout(JudgeOf(provider)(k, batch).error)
    {
      TimeoutsAreMentioned(provider(k, batch).message);
    }
    SlowJudgeIsSurvived(JudgeOf(provider), start, items);
    SuccessAnswersEveryItem(provider, start, items);
  }

  // ----- the bound is attained

  lemma {:induction false} BlankHasOnlySpaces(s: string)
    requires TrimStart(s) == ""
    ensures forall i :: 0 <= i < |s| ==> IsSpace(s[i])
  {
    if s != "" {
      BlankHasOnlySpaces(s[1..]);
      assert s == [s[0]] + s[1..];
    }
  }

  /** Some usable text for an item: its own, or a letter when that is blank. */
  function Usable(item: Item): string {
    if IsBlank(item.text) then "x" else item.text
  }

  lemma UsableIsAccepted(item: Item)
    ensures !IsBlank(Usable(item)) && SamePlaceholders(item.text, Usable(item))
  {
    if IsBlank(item.text) {
      if TrimStart(item.text) != "" {
        var t := TrimStart(item.text);
        NonSpaceSurvives(t);
        assert false;
      }
      BlankHasOnlySpaces(item.text);
      assert Placeholders(item.text) == {} == Placeholders("x");
    }
  }

  lemma {:induction false} NonSpaceSurvives(t: string)
    requires t != "" && !IsSpace(t[0])
    ensures TrimEnd(t) != ""
  {
    if IsSpace(t[|t| - 1]) {
      NonSpaceSurvives(t[..|t| - 1]);
    }
  }

  const SLOW: Attempt := Threw("timed out")
  const BROKEN: Attempt := Threw("")

  datatype Move = Break | Stall | Answer(item: Item)

  /** Attempt `k` of a provider that fails once per batch, then times out until single items are left. */
  function WorstMove(items: seq<Item>, k: nat): Move
    requires items != []
    decreases |items|
  {
    var mid := Midpoint(|items|);
    if k == 0 then Break
    else if |items| == 1 then Answer(items[0])
    else if k == 1 then Stall
    else if k < 4 * mid then WorstMove(items[..mid], k - 2)
    else WorstMove(items[mid..], k - 4 * mid)
  }

  function Play(move: Move): Attempt {
    match move
    case Break => BROKEN
    case Stall => SLOW
    case Answer(item) => Replied(map[item.key := Text(Usable(item))], "")
  }

  predicate FollowsMove(judge: Judge, k: nat, batch: seq<Item>, move: Move) {
    match move
    case Break => judge(k, batch) == Err(BROKEN.message)
    case Stall => judge(k, batch) == Err(SLOW.message)
    case Answer(item) => batch == [item] ==> judge(k, batch).Ok?
  }

  /** Attempt `k` goes as `move` says, whatever batch it is for. */
  ghost predicate FollowsAt(judge: Judge, k: nat, move: Move) {
    forall batch :: FollowsMove(judge, k, batch, move)
  }

  function MoveAt(start: nat, items: seq<Item>, k: nat): Move
    requires items != [] && start <= k
  {
    WorstMove(items, k - start)
  }

  ghost predicate PlaysWorst(judge: Judge, start: nat, items: seq<Item>)
    requires items != []
  {
    forall k :: start <= k < start + 4 * |items| - 2 ==> FollowsAt(judge, k, MoveAt(start, items, k))
  }

  lemma TimeoutMessages()
    ensures IsPromptTimeout(SLOW.message) && !IsPromptTimeout(BROKEN.message)
  {
    assert LowerCase("timed out") == "timed out";
  }

  /** Every batch fails once, then times out until single items are left, which are answered. */
  predicate IsWorst(judge: Judge, start: nat, items: seq<Item>)
    requires items != []
    decreases |items|
  {
    && judge(start, items) == Err(BROKEN.message)
    && if |items| == 1 then judge(start + 1, items).Ok?
       else
         var mid := Midpoint(|items|);
         && judge(start + 1, items) == Err(SLOW.message)
         && IsWorst(judge, start + 2, items[..mid])
         && IsWorst(judge, start + 4 * mid, items[mid..])
  }

  lemma {:induction false} WorstTakesAllPrompts(judge: Judge, start: nat, items: seq<Item>)
    requires items != [] && IsWorst(judge, start, items)
    ensures var (r, next) := Translate(judge, start, items, 0); r.Ok? && next == start + 4 * |items| - 2
    decreases |items|
  {
    TimeoutMessages();
    assert Translate(judge, start, items, 0) == Translate(judge, start + 1, items, 1);
    if |items| > 1 {
      var mid := Midpoint(|items|);
      WorstTakesAllPrompts(judge, start + 2, items[..mid]);
      WorstTakesAllPrompts(judge, start + 4 * mid, items[mid..]);
    }
  }

  lemma UsableReplyIsAccepted(item: Item)
    ensures Outcome(Replied(map[item.key := Text(Usable(item))], ""), [item]).Ok?
  {
    UsableIsAccepted(item);
    assert [item][..0] == [];
    assert TextByKey([item]) == map[item.key := item.text];
  }

  lemma PlayFollowsMove(provider: Provider, k: nat, batch: seq<Item>, move: Move)
    requires provider(k, batch) == Play(move)
    ensures FollowsMove(JudgeOf(provider), k, batch, move)
  {
    if move.Answer? {
      UsableReplyIsAccepted(move.item);
    }
  }

  lemma PlaysWorstOnHalves(judge: Judge, start: nat, items: seq<Item>)
    requires |items| > 1 && PlaysWorst(judge, start, items)
    ensures
      var mid := Midpoint(|items|);
      PlaysWorst(judge, start + 2, items[..mid]) && PlaysWorst(judge, start + 4 * mid, items[mid..])
  {
    var mid := Midpoint(|items|);
    var left, right := start + 2, start + 4 * mid;
    forall k | left <= k < left + 4 * mid - 2
      ensures FollowsAt(judge, k, MoveAt(left, items[..mid], k))
    {
      assert MoveAt(start, items, k) == MoveAt(left, items[..mid], k);
    }
    forall k | right <= k < right + 4 * (|items| - mid) - 2
      ensures FollowsAt(judge, k, MoveAt(right, items[mid..], k))
    {
      assert MoveAt(start, items, k) == MoveAt(right, items[mid..], k);
    }
  }

  lemma {:induction false} PlayingWorstIsWorst(judge: Judge, start: nat, items: seq<Item>)
    requires items != [] && PlaysWorst(judge, start, items)
    ensures IsWorst(judge, start, items)
    decreases |items|
  {
    assert FollowsAt(judge, start, MoveAt(start, items, start)) && FollowsMove(judge, start, items, Break);
    assert FollowsAt(judge, start + 1, MoveAt(start, items, start + 1));
    if |items| == 1 {
      assert items == [items[0]] && FollowsMove(judge, start + 1, items, Answer(items[0]));
    } else {
      assert FollowsMove(judge, start + 1, items, Stall);
      PlaysWorstOnHalves(judge, start, items);
      PlayingWorstIsWorst(judge, start + 2, items[..Midpoint(|items|)]);
      PlayingWorstIsWorst(judge, start + 4 * Midpoint(|items|), items[Midpoint(|items|)..]);
    }
  }

  /** For any items, some provider makes a successful translation cost exactly 4n - 2 prompts. */
  lemma PromptBoundIsAttained(items: seq<Item>) returns (provider: Provider)
    requires items != []
    ensures var (r, next) := Translate(JudgeOf(provider), 0, items, 0); r.Ok? && next == 4 * |items| - 2
  {
    provider := (k: nat, batch: seq<Item>) => Play(WorstMove(items, k));
    var judge := JudgeOf(provider);
    forall k: nat, batch: seq<Item>
      ensures FollowsMove(judge, k, batch, MoveAt(0, items, k))
    {
      PlayFollowsMove(provider, k, batch, MoveAt(0, items, k));
    }
    PlayingWorstIsWorst(judge, 0, items);
    WorstTakesAllPrompts(judge, 0, items);
  }

  // ----- all batches

  /** Prompts for all batches together, and completeness across them. */
  method TranslateNativeEntries(entries: seq<Item>, budget: real, provider: Provider)
    returns (r: Translations, batchCount: nat, prompts: nat)
    ensures prompts <= 4 * |entries| - 2 * batchCount
    ensures r.Ok? ==> IsComplete(r.value, entries)
    ensures exists batches :: IsSplit(batches, entries, budget) && |batches| == batchCount
    ensures forall other :: IsSplit(other, entries, budget) ==> batchCount <= |other|
  {
    var batches := BuildTranslationBatches(entries, budget);
    batchCount, prompts := |batches|, 0;
    forall other | IsSplit(other, entries, budget)
      ensures batchCount <= |other|
    {
      SaturatedIsOptimal(batches, other, entries, budget);
    }
    var translated: map<string, string> := map[];
    for i := 0 to |batches|
      invariant IsComplete(translated, Flatten(batches[..i]))
      invariant prompts <= 4 * |Flatten(batches[..i])| - 2 * i
    {
      ghost var start := prompts;
      var result: Translations;
      assert batches[i] in batches;
      result, prompts := TranslateBatch(provider, prompts, batches[i]);
      FlattenOneMore(batches, i);
      PromptsAreBounded(JudgeOf(provider), start, batches[i], 0);
      if result.Err? {
        LaterBatchesCount(batches, i + 1, budget);
        return result, batchCount, prompts;
      }
      SuccessAnswersEveryItem(provider, start, batches[i]);
      MergeIsComplete(translated, Flatten(batches[..i]), result.value, batches[i]);
      translated := translated + result.value;
    }
    assert batches[..|batches|] == batches;
    return Ok(translated), batchCount, prompts;
  }

  lemma FlattenOneMore<T>(parts: seq<seq<T>>, i: nat)
    requires i < |parts|
    ensures Flatten(parts[..i + 1]) == Flatten(parts[..i]) + parts[i]
  {
    assert parts[..i + 1][..i] == parts[..i];
  }

  lemma {:induction false} LaterBatchesCount(batches: seq<seq<Item>>, i: nat, budget: real)
    requires i <= |batches| && forall b <- batches :: IsBatch(b, budget)
    ensures 4 * |Flatten(batches[..i])| - 2 * i <= 4 * |Flatten(batches)| - 2 * |batches|
    decreases |batches| - i
  {
    if i == |batches| {
      assert batches[..i] == batches;
    } else {
      FlattenOneMore(batches, i);
      assert batches[i] in batches;
      LaterBatchesCount(batches, i + 1, budget);
    }
  }
}
