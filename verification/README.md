# Verified models of the repository's scripts

Dafny models of the algorithms, scanners and protocols in the repository's build and localization scripts, with
proofs of what they are for. Each module follows one piece of one script.

| modules | what they model |
|---|---|
| `DeclarationPartitions`, `UnifiedDeclarations` | spreading build entries over eight declaration graphs |
| `TranslationBatches`, `TranslationReply`, `TranslateBatch` | cutting translations into batches, reading a provider's reply, retry and bisection |
| `ProcessSpec`, `ProcessSafety`, `RunProcess` | supervising child processes: timeouts, kill grace, relayed parent signals, bounded capture |
| `BraceBlocks`, `AgentEnvelope`, `Interpolations` | two hand-written brace scanners, and the grammars they are checked against |
| `FormatStrings`, `Escapes`, `AndroidResources` | compiling translated Kotlin text into Android format strings, and the escape and decode pairs |
| `Segments`, `ParameterLists` | splitting Kotlin parameter and argument lists at their top-level commas, and the grammar it is checked against |
| `Sorting`, `DistinctStrings`, `TranslationChoice`, `AppleCatalog`, `CatalogReport` | choosing among candidate translations, and regenerating the Apple string catalog |
| `Reservation` | reserving an output directory while other processes do the same |
| `RestartProbe` | watching a gateway go down and come back |
| `GlobPaths` | matching dotted configuration paths against `*` and `**` |
| `Text`, `Wrappers` | strings and result types |

Where the source changes variables in a loop or in a callback, the model is a method or a class with those variables,
and its contract ties it to a function; the lemmas are about that function. In `RunProcess` every callback of a run is
a method on a `Run` and the set all runs share, and each step of the event loop is one step of `ProcessSpec`, for any
number of runs in any interleaving.

Strings are sequences of UTF-16 code units. Dafny characters have no surrogates, so the 2048 surrogate code units are
written as U+10000 to U+107FF, and `Text.Rank` puts them back in their place in code-unit order. Clocks, timers, the
file system, the child process and the translation provider are inputs or events that may be anything their interface
allows: a provider is any function from attempt numbers to outcomes, an interleaving is any sequence of events, a file
system may change between any two calls as long as nothing is removed.

## What does not hold

Five properties one might expect are false of the code. Each has a lemma at a concrete input and the exact condition
under which it holds.

- *A re-raised parent signal was relayed to every run in the shared set.* The loop over the set asks whether every
  entry has some signal, not whether it is the same one. `ReraisedSignalMayBypassRun` gives an interleaving with SIGINT
  and SIGTERM; `ReraisedSignalReachedAll` shows that the property holds exactly when no other parent signal was
  delivered to any run.
- *The eight declaration graphs hold all entries.* An entry named directly under `extensions/`, with an empty id, is
  in none of them (`BareExtensionIsLost`); `PartitionsHoldPlacedEntries` shows these are the only ones. The function's
  only caller builds no such name.
- *Decoding undoes escaping.* A backslash followed by the letter n comes back as a backslash and a line feed, because
  the decoders replace `\n` before `\\` (`PairIsLost`). `AndroidRoundTrip` and `KotlinRoundTrip` give the result for
  every value; `AndroidValueSurvives`, `KotlinLiteralSurvives` and `ResourcePreservesMeaning` the exact conditions.
- *A comma inside type arguments never ends a parameter.* The `>` of an arrow inside type arguments closes them, so
  `m:M<()->U,S>` is cut in two (`ArrowSplitsParameter`); in default values, and in argument lists, type arguments are
  not tracked at all. `ParametersAreSplit` and `ArgumentsAreSplit` state exactly when the split returns the parameters
  and the arguments, and `FlatTypesLeak` what that is for type arguments without others inside: no arrow before a comma.
- *The two choosers agree.* On an empty list one answers the empty string and the other the source
  (`EmptyListDivides`); `ChoosersAgree` shows they differ nowhere else.

## Model

| member | source | states |
|---|---|---|
| `DeclarationPartitions.PartitionUnifiedEntryGroups` | tsdown.config.ts:603-624 | fails exactly when there are groups and no partition; otherwise the greedy assignment's shares, about which the lemmas below are |
| `DeclarationPartitions.SharesKeepEntries` | tsdown.config.ts:603-624 | whatever partition each group goes to, the partitions together hold exactly the input entries, with multiplicity |
| `DeclarationPartitions.OwnerHoldsGroup` | tsdown.config.ts:617-621 | no group is split: the partition that owns it holds it in one piece and in order |
| `DeclarationPartitions.GreedyIsBalanced` | tsdown.config.ts:608-621 | two partitions never differ by more than the largest group |
| `DeclarationPartitions.ListSchedulingBound` | tsdown.config.ts:603-624 | Graham's bound: m times the largest load is at most the total plus m - 1 times the largest group |
| `DeclarationPartitions.GreedyApproximatesAny` | tsdown.config.ts:603-624 | the largest load is at most 2 - 1/m times that of any other assignment of whole groups |
| `DeclarationPartitions.BoundIsAttained` | tsdown.config.ts:603-624 | for every m some groups reach the factor 2 - 1/m, so it cannot be improved |
| `UnifiedDeclarations.GroupExtensionEntries` | tsdown.config.ts:641-654 | one list per extension id that occurs, holding its entries in order; the keys in order of first occurrence |
| `UnifiedDeclarations.BuildUnifiedDeclarationPartitions` | tsdown.config.ts:631-681 | eight named lists of normalized sources: base, public and private plugin SDK, and the five greedy shares of the extension groups, names and ids sorted by any collation |
| `UnifiedDeclarations.FixedGraphsHold` | tsdown.config.ts:637-662 | the base graph and the public and private SDK graphs hold exactly their entries, sorted by name |
| `UnifiedDeclarations.ExtensionIdIsSegment` | tsdown.config.ts:647-647 | an extension's id is the whole path segment after `extensions/` |
| `UnifiedDeclarations.PartitionsHoldPlacedEntries` | tsdown.config.ts:637-669 | the graphs together hold each entry once, except those directly under `extensions/` without an id; all entries exactly when there are none of these |
| `UnifiedDeclarations.ExtensionStaysTogether` | tsdown.config.ts:663-668 | one of the five graphs holds all entries of an extension in one piece; no other graph holds any of them |
| `UnifiedDeclarations.BareExtensionIsLost` | tsdown.config.ts:647-650 | a build of one entry `extensions/` has empty graphs |
| `TranslationBatches.BuildTranslationBatches` | scripts/control-ui-i18n.ts:829-853 | the batches concatenate to the items, obey both limits (a single item may be over budget), and no batch could have taken the next one's first item |
| `TranslationBatches.EstimateIs` | scripts/control-ui-i18n.ts:516-518 | the estimate is the length of all keys and texts, 8 for each item, and 2 |
| `TranslationBatches.SaturatedStaysAhead` | scripts/control-ui-i18n.ts:829-853 | after any number of batches the greedy split has covered at least as many items as any other split within the limits |
| `TranslationBatches.SaturatedIsOptimal` | scripts/control-ui-i18n.ts:829-853 | no order-preserving split within the limits has fewer batches |
| `TranslationBatches.SaturatedIsUnique` | scripts/control-ui-i18n.ts:829-853 | the loop's contract determines its result |
| `TranslationReply.TextByKeyIsLatest` | scripts/control-ui-i18n.ts:975-975 | of items with the same key the last one's text is the one checked against |
| `TranslationReply.ParseTranslationBatchReply` | scripts/control-ui-i18n.ts:961-977 | fails on the first item without a non-blank text and on any placeholder mismatch; otherwise maps the items' keys to the reply's texts |
| `TranslationReply.AcceptedReplies` | scripts/control-ui-i18n.ts:966-976 | a reply is accepted exactly when its texts for the items' keys are complete, and these are the answer |
| `TranslationReply.RefusedReplies` | scripts/control-ui-i18n.ts:968-972 | otherwise the first item without a text is named |
| `TranslationReply.OutcomeIsComplete` | scripts/control-ui-i18n.ts:968-976 | a reply that is accepted has exactly the items' keys, each with a non-blank text with the same placeholder set |
| `TranslateBatch.TranslateBatch` | scripts/control-ui-i18n.ts:979-1039 | result and number of attempts for every provider: retry once, bisect on a timeout, give up on a timeout of a single item |
| `TranslateBatch.TimeoutsAreMentioned` | scripts/control-ui-i18n.ts:476-478 | an error is a timeout exactly when "timed out" stands somewhere in its message, in any letter case |
| `TranslateBatch.SlowProviderIsSurvived` | scripts/control-ui-i18n.ts:1011-1030 | a provider that times out on all batches of two or more, in whatever words, and answers single items, is got through with exactly 2n - 1 prompts and every item answered |
| `TranslateBatch.PromptsAreBounded` | scripts/control-ui-i18n.ts:979-1039 | at least one and at most 4n - 2 prompts for n items, whatever the provider does |
| `TranslateBatch.PromptBoundIsAttained` | scripts/control-ui-i18n.ts:979-1039 | for any items some provider makes a successful translation cost exactly 4n - 2 prompts |
| `TranslateBatch.TranslationIsComplete` | scripts/control-ui-i18n.ts:1011-1027 | completeness survives retries, bisection and merging, for any judge of attempts that only accepts complete answers |
| `TranslateBatch.FailureIsFatal` | scripts/control-ui-i18n.ts:1011-1038 | a batch fails only by its very last attempt, made for a contiguous part of it: a timeout with at most one item, or a second failure in a row that is no timeout; the error is that attempt's |
| `TranslateBatch.SuccessAnswersEveryItem` | scripts/control-ui-i18n.ts:979-1039 | on success exactly the items' keys are answered, with non-blank texts that keep the placeholders, however the batch was split |
| `TranslateBatch.TranslateNativeEntries` | scripts/control-ui-i18n.ts:1047-1081 | the number of batches is that of some split within the limits and of none with fewer; at most 4n - 2b prompts for n entries in b batches; on success an answer to every entry |
| `ProcessSpec.ResolveOutputLimit` | scripts/control-ui-i18n.ts:534-540 | the default for limits that are absent, not finite or not positive, otherwise the integer part, but at least 1 |
| `ProcessSafety.AppendKeepsTail` | scripts/control-ui-i18n.ts:542-553 | appending a chunk keeps the capture the tail of everything received, with nothing unaccounted for |
| `ProcessSafety.CaptureIsLossless` | scripts/control-ui-i18n.ts:542-553 | after any chunks: the last min(total, limit) characters, kept plus truncated is the total, and untruncated exactly when the text is everything |
| `RunProcess.Run.SignalChild` | scripts/control-ui-i18n.ts:616-638 | one more signal to the group; a failed delivery leaves a bounded note on stderr |
| `RunProcess.Run.ProcessGroupIsAlive` | scripts/control-ui-i18n.ts:672-682 | the answer of the probe, and no group without a process id |
| `RunProcess.Supervisor.MaybeReraise` | scripts/control-ui-i18n.ts:562-569 | the parent signals itself exactly when every entry of the shared set has a signal and is done |
| `RunProcess.Supervisor.Settle` | scripts/control-ui-i18n.ts:683-697 | the first settlement wins; the run leaves the shared set unless a parent signal is pending |
| `RunProcess.Supervisor.FinishClose` | scripts/control-ui-i18n.ts:698-726 | settles as the specification does: timeout before failure before truncation |
| `RunProcess.Supervisor.OnClose` | scripts/control-ui-i18n.ts:762-781 | the close event with a pending parent signal, in the kill grace, or neither |
| `RunProcess.Supervisor.OnTimeout` | scripts/control-ui-i18n.ts:741-745 | marks the timeout, terminates the group, starts the kill grace |
| `RunProcess.Supervisor.OnKillTimer` | scripts/control-ui-i18n.ts:656-662 | SIGKILL, then the tail of whichever closure armed the timer |
| `RunProcess.Supervisor.OnParentSignal` | scripts/control-ui-i18n.ts:639-663 | relays the signal once, then re-raises or waits, replacing an armed kill timer |
| `RunProcess.Supervisor.Start` | scripts/control-ui-i18n.ts:571-605 | one more run, a fresh object, in the shared set; the others as they were |
| `RunProcess.Supervisor.OneRunMoved` | scripts/control-ui-i18n.ts:562-569 | a callback that touches one run refines one step of all runs together, including the decision to re-raise |
| `RunProcess.Supervisor.Deliver` | scripts/control-ui-i18n.ts:639-783 | delivering an event to a run object is exactly a step of the specification on all runs |
| `RunProcess.Drive` | scripts/control-ui-i18n.ts:562-783 | for every interleaving of starts and callbacks, the objects end in the state the specification gives, with the invariant of all runs and of the shared set |
| `ProcessSafety.HandleKeepsInvariant` | scripts/control-ui-i18n.ts:639-783 | every callback keeps the invariant of its run, in any state the invariant allows |
| `ProcessSafety.ExecuteKeepsInvariant` | scripts/control-ui-i18n.ts:571-783 | every interleaving keeps it for all runs, and the shared set holds exactly the runs that are unsettled or have a parent signal |
| `ProcessSafety.PastIsHistory` | scripts/control-ui-i18n.ts:616-781 | what a run has captured, sent, heard of its child's exit and noted of timeouts is what the events that happened to it say, in order |
| `ProcessSafety.RunsAreSupervised` | scripts/control-ui-i18n.ts:683-783 | from the events that happened to a run: it settles at most once; it resolves only without a timeout, with the exit code of its child (1 if none), the tail of stdout and of everything on stderr, and with code 0 all of stdout; it is rejected as failed only on another code when asked to, as truncated only on code 0 with too much stdout, as timed out only after a timeout; a child error settles it; a child closing in time settles it, resolved unless one of these causes is there; without a parent signal a timeout is reported only once the group has ended, and an open wait has its exit stored and its grace timer armed |
| `ProcessSafety.DeadGroupEndsWait` | scripts/control-ui-i18n.ts:646-650 | a group that does not answer ends the wait at once: a relay is done, or else the run settles |
| `ProcessSafety.LastCallbackSettles` | scripts/control-ui-i18n.ts:727-781 | a timed-out run is never stuck: whichever of close and grace timer comes last settles it |
| `ProcessSafety.EntryRecordsRelay` | scripts/control-ui-i18n.ts:639-645 | read off the interleaving, a run is relayed at most one signal, the one its entry records |
| `ProcessSafety.ReraiseIsAsked` | scripts/control-ui-i18n.ts:562-569 | the parent signals itself only with a signal that some run in the set was relayed |
| `ProcessSafety.LastDoneReraises` | scripts/control-ui-i18n.ts:562-569 | the callback that makes the last open entry of the set done makes the parent signal itself, with that entry's signal |
| `ProcessSafety.ReraiseIsSafe` | scripts/control-ui-i18n.ts:562-569 | when the parent signals itself, every run ever started settled untouched, or was relayed a signal and its group was seen dead or sent SIGKILL |
| `ProcessSafety.RelaysAreDelivered` | scripts/control-ui-i18n.ts:639-645 | the signals a run was relayed are those of the parent-signal events that happened to it |
| `ProcessSafety.ReraisedSignalReachedAll` | scripts/control-ui-i18n.ts:562-569 | every run in the set was relayed the re-raised signal exactly when no other parent signal was delivered to any run, from the first event on |
| `ProcessSafety.ReraisedSignalMayBypassRun` | scripts/control-ui-i18n.ts:562-569 | an interleaving of two signals after which the parent ends by one that a run in the set never received |
| `BraceBlocks.ClosingIsFirst` | scripts/code-mode-model-matrix.ts:795-818 | a shorter text closes at the same place or not at all |
| `BraceBlocks.PieceIsSkipped` | scripts/android-app-i18n.ts:171-191 | over any character, quotation or block of the grammar the automaton returns to where it was |
| `BraceBlocks.ReadPieces` | scripts/android-app-i18n.ts:171-191 | whatever the automaton closes parses as pieces up to an unmatched brace |
| `BraceBlocks.ClosingIsBlockRest` | scripts/android-app-i18n.ts:168-194 | the automaton cuts after n characters exactly when these are pieces and the closing brace |
| `AgentEnvelope.ParseAgentExecOutput` | scripts/code-mode-model-matrix.ts:781-820 | for any parser: the loop hands it the automaton's cut, returns its answer with the trimmed rest, and has the source's errors in the source's order |
| `AgentEnvelope.FindObjectEnd` | scripts/code-mode-model-matrix.ts:792-819 | the loop ends where the automaton closes |
| `AgentEnvelope.WhenThereIsNoObject` | scripts/code-mode-model-matrix.ts:785-791 | no envelope exactly when there is nothing but white space, no object exactly when the first other character is no brace |
| `AgentEnvelope.EnvelopeIsCut` | scripts/code-mode-model-matrix.ts:781-820 | any JSON object text by RFC 8259, after any white space and before any text, is cut exactly at its closing brace, and that text is what the parser reads |
| `AgentEnvelope.EnvelopeIsCutAfterWhitespace` | scripts/code-mode-model-matrix.ts:785-785 | the same after any white space of RFC 8259 section 2 |
| `AgentEnvelope.BrokenEnvelopeIsIncomplete` | scripts/code-mode-model-matrix.ts:819-819 | every non-empty proper prefix of an object text is reported incomplete, whatever the parser |
| `AgentEnvelope.CutIsBlock` | scripts/code-mode-model-matrix.ts:795-819 | in any output the cut is one balanced block; incomplete means that no prefix is one |
| `AgentEnvelope.JsonIsSkipped` | scripts/code-mode-model-matrix.ts:797-817 | the scanner passes over every JSON value, however its strings hide braces and quotes |
| `Interpolations.ReadBraces` | scripts/android-app-i18n.ts:168-191 | the inner loop ends where the automaton closes |
| `Interpolations.ReadKotlinInterpolations` | scripts/android-app-i18n.ts:147-197 | the index loop agrees with the recursive reference |
| `Interpolations.PlaceholderEndIsPlaceholder` | scripts/android-app-i18n.ts:157-191 | a placeholder ends where the grammar ends it: after the longest name, or at the first brace closing `${` outside quotes |
| `Interpolations.ScanMeetsGrammar` | scripts/android-app-i18n.ts:147-197 | the answer is a list of spans exactly when they are placeholders, in order, disjoint, their own slices, with no placeholder start outside them; there is only one such list |
| `Interpolations.NullMeansUnbalanced` | scripts/android-app-i18n.ts:192-194 | null exactly when some `${` outside all earlier placeholders never closes |
| `FormatStrings.Partner` | scripts/android-app-i18n.ts:234-238 | the source token with the same text at the same occurrence exists for every translated token |
| `FormatStrings.PartnerOfPartner` | scripts/android-app-i18n.ts:223-238 | the emitted indices are a permutation |
| `FormatStrings.CompiledMeansTheSame` | scripts/android-app-i18n.ts:229-241 | interpreting the compiled text with the values of the source's tokens gives the translated text with its placeholders filled in, for any values and any literal text |
| `FormatStrings.SubstitutedByItself` | scripts/android-app-i18n.ts:229-241 | gaps and placeholders together are the whole translated text |
| `AndroidResources.TokenCounts` | scripts/android-app-i18n.ts:210-216 | how often each token occurs |
| `AndroidResources.TallyIsMultiset` | scripts/android-app-i18n.ts:217-221 | equal counts exactly when the tokens are the same up to order |
| `AndroidResources.IndexTokens` | scripts/android-app-i18n.ts:223-228 | for each token its positions in order |
| `AndroidResources.EmitsIndex` | scripts/android-app-i18n.ts:237-238 | the fallback to the bare token is never taken |
| `AndroidResources.NextPlaceholder` | scripts/android-app-i18n.ts:234-238 | each turn writes the index of the token's partner and counts the token |
| `AndroidResources.RenderPlaceholders` | scripts/android-app-i18n.ts:223-241 | the loop writes the compiled text |
| `AndroidResources.RenderAndroidResourceValue` | scripts/android-app-i18n.ts:199-244 | succeeds exactly when both strings have complete scans with the same placeholders, each as often, in whatever order; is unbalanced exactly when one has none; and gives the escaped format text |
| `AndroidResources.RenderingPreservesMeaning` | scripts/android-app-i18n.ts:199-244 | whenever rendering succeeds, the text before escaping, formatted with the source's values if the source has placeholders, shows the translation filled in; with the tokens as values it gives the translation back |
| `AndroidResources.ResourcePreservesMeaning` | scripts/android-app-i18n.ts:122-255 | the same after escaping, quoting and decoding exactly when the literal text between the placeholders holds no backslash followed by the letter n |
| `AndroidResources.CompiledBreaksGaps` | scripts/android-app-i18n.ts:122-132 | what decoding changes stands within one piece of literal text, never in an index or across a percent sign |
| `Escapes.EscapeAndroidIsEncode` | scripts/android-app-i18n.ts:246-255 | seven passes of `replaceAll` escape every character once: no escape is escaped again |
| `Escapes.EscapeKotlinIsEncode` | scripts/android-app-i18n.ts:257-263 | the same for the four passes of Kotlin literals |
| `Escapes.AndroidRoundTrip` | scripts/android-app-i18n.ts:122-132 | decoding an escaped value puts a line feed for the n of every backslash-n pair and changes nothing else |
| `Escapes.AndroidValueSurvives` | scripts/android-app-i18n.ts:122-139 | the quoted, escaped value decodes to itself exactly when it has no such pair |
| `Escapes.UnquotedRoundTrip` | scripts/android-app-i18n.ts:134-139 | without quotes the value also loses the blanks around it, and nothing else |
| `Escapes.XmlTextIsRead` | scripts/android-app-i18n.ts:122-132 | text without backslashes whose quotes, ampersands and angle brackets are entities is read back |
| `Escapes.KotlinRoundTrip` | scripts/android-app-i18n.ts:388-394 | the same formula for Kotlin literals |
| `Escapes.KotlinLiteralSurvives` | scripts/android-app-i18n.ts:388-394 | the same exact condition for Kotlin literals |
| `Escapes.PairIsLost` | scripts/android-app-i18n.ts:122-139 | the value of a backslash and the letter n does not come back |
| `Segments.SplitTopLevelSegments` | scripts/android-app-i18n.ts:686-754 | the loop agrees with the recursive reference |
| `Segments.SplitTiles` | scripts/android-app-i18n.ts:747-753 | the segments lie end to end, one comma apart, each value its own slice |
| `Segments.CutsAreTopLevelCommas` | scripts/android-app-i18n.ts:742-750 | the cuts are exactly the commas the loop reaches with nothing open and outside quotes |
| `Segments.StateCountsBrackets` | scripts/android-app-i18n.ts:700-741 | outside quotes the bracket depths are the differences of bracket counts |
| `Segments.SegmentsEndAtTopLevelCommas` | scripts/android-app-i18n.ts:686-754 | a position ends a segment exactly when it is a comma outside quotes where all bracket depths vanish, and the type-argument count where it is kept |
| `Segments.JoinUndoesSplit` | scripts/android-app-i18n.ts:686-754 | joining the values with commas gives back the scanned slice |
| `Segments.SplitUndoesJoin` | scripts/android-app-i18n.ts:686-754 | splitting comma-joined parts gives the parts back, when each part is closed and has no top-level comma |
| `ParameterLists.PartRuns` | scripts/android-app-i18n.ts:700-751 | over every part of a list, however nested, the loop returns to its state but for type arguments that arrows have used up, and cuts exactly at leaking commas |
| `ParameterLists.ParameterIsClosed` | scripts/android-app-i18n.ts:700-751 | a parameter is closed for the splitter exactly when no comma of it leaks |
| `ParameterLists.ParametersAreSplit` | scripts/android-app-i18n.ts:686-754 | a list of parameters with types and default values is split into the parameters exactly when none leaks |
| `ParameterLists.ArgumentsAreSplit` | scripts/android-app-i18n.ts:686-754 | without tracking, a list of arguments is split into the arguments exactly when no type arguments outside brackets hold a comma |
| `ParameterLists.FlatTypesLeak` | scripts/android-app-i18n.ts:717-724 | type arguments without others inside leak exactly when an arrow in them comes before one of their commas |
| `ParameterLists.ArrowsOutsideTypesAreHarmless` | scripts/android-app-i18n.ts:717-724 | arrows anywhere else in a parameter's header never leak |
| `ParameterLists.ArrowSplitsParameter` | scripts/android-app-i18n.ts:717-724 | `m:M<()->U,S>` is one parameter and is cut in two |
| `TranslationChoice.CountValues` | scripts/apple-app-i18n.ts:639-642 | counts in order of first appearance |
| `TranslationChoice.SelectDeterministicTranslation` | scripts/android-app-i18n.ts:1048-1063 | the Android chooser returns the winner among the candidates, if there are any |
| `TranslationChoice.ChooseTranslation` | scripts/apple-app-i18n.ts:636-649 | the Apple chooser returns the winner among the candidates, if there are any |
| `TranslationChoice.SelectedIsWinner` | scripts/android-app-i18n.ts:1048-1063 | it picks the winner by the multiset alone: not the source unless alone, then most frequent, then least in code-unit order |
| `TranslationChoice.ChosenIsWinner` | scripts/apple-app-i18n.ts:636-649 | so does the Apple chooser, by its different comparison |
| `TranslationChoice.WinnerIsUnique` | scripts/apple-app-i18n.ts:643-648 | there is only one winner |
| `Text.RankIsCodeUnitOrder` | scripts/android-app-i18n.ts:118-120 | the order of characters is that of their UTF-16 code units |
| `TranslationChoice.ChoosersAgree` | scripts/android-app-i18n.ts:1048-1063 | both choosers return the same string exactly when the list is not empty or the source is |
| `TranslationChoice.EmptyListDivides` | scripts/apple-app-i18n.ts:643-648 | on an empty list they do not |
| `TranslationChoice.ChoiceIgnoresOrder` | scripts/apple-app-i18n.ts:636-649 | permuting the candidates changes neither result |
| `TranslationChoice.SourceIsLastResort` | scripts/apple-app-i18n.ts:644-648 | the source comes out exactly when there is no other candidate |
| `AppleCatalog.TranslationsBySource` | scripts/apple-app-i18n.ts:668-679 | candidates by rendered source, in artifact order, known and included entries only |
| `AppleCatalog.TranslationsByLocale` | scripts/apple-app-i18n.ts:666-681 | for every locale those of the last artifact for it |
| `AppleCatalog.LocalizeSource` | scripts/apple-app-i18n.ts:686-715 | units and contradictions of one source |
| `AppleCatalog.BuildAppleCatalog` | scripts/apple-app-i18n.ts:651-730 | the strings are those of the included sources and the required locales; each unit is the translation that was there, or else the source for English, the winning candidate for other locales, the source when there is none; "translated" exactly when it differs from the source |
| `CatalogReport.CandidatesAreTranslations` | scripts/apple-app-i18n.ts:665-689 | the candidates are exactly the translations of the source in the last artifact for the locale, of included ids, by the last entry with the id |
| `AppleCatalog.RegenerationIsIdempotent` | scripts/apple-app-i18n.ts:651-730 | feeding a generated catalog back reproduces it and its contradictions, from whatever catalog the first run started |
| `AppleCatalog.OnlyShippedUnitsCarryOver` | scripts/apple-app-i18n.ts:694-698 | existing catalogs that agree on shipped units give the same catalog: empty values, other states and dropped sources have no influence |
| `AppleCatalog.LaterArtifactsKeepShippedUnits` | scripts/apple-app-i18n.ts:694-714 | regenerating with new artifacts keeps what was shipped and chooses the rest anew |
| `CatalogReport.ContradictionsAreReported` | scripts/apple-app-i18n.ts:690-729 | reported are exactly the sources and locales with more than one candidate, each with all its candidates, sorted and once; for distinct locales the report is strictly sorted by source and locale |
| `CatalogReport.ConflictsAreReported` | scripts/apple-app-i18n.ts:690-693 | a source and locale are reported exactly when two of their candidates differ |
| `CatalogReport.ArtifactOrderIsIrrelevant` | scripts/apple-app-i18n.ts:666-729 | reordering the artifacts of distinct locales, and the rows of each, changes neither catalog nor contradictions |
| `DistinctStrings.SortedDistinctIsOfSet` | scripts/apple-app-i18n.ts:690-690 | the sorted list of distinct values depends only on which values there are |
| `Reservation.EnterSegment` | scripts/code-mode-model-matrix.ts:492-522 | the loop over one segment ends within two rounds, past a real directory or refused with the right reason, whatever others do between its calls |
| `Reservation.ReserveOutputDir` | scripts/code-mode-model-matrix.ts:475-524 | refuses paths outside the repository, and no others, as such, without touching the disk; succeeds only on a path that was absent, has become a directory this process made, and lies below real directories |
| `Reservation.ExecutionIsSound` | scripts/code-mode-model-matrix.ts:475-524 | every interleaving of any number of processes with faults and foreign nodes keeps each process sound, and going for the target it was given |
| `Reservation.AtMostOneReserves` | scripts/code-mode-model-matrix.ts:475-524 | two processes given the same target never both reserve it |
| `Reservation.WinnerMadeIt` | scripts/code-mode-model-matrix.ts:475-524 | the winner itself made the target it was given, which lies inside the repository and was not there before, and nothing on the way is a link |
| `Reservation.RefusalsHaveReasons` | scripts/code-mode-model-matrix.ts:482-518 | a process is refused as outside, for a link, an existing target or a file on the way only when that is so, and for another error only on a fault of its own |
| `Reservation.RoundsAreBounded` | scripts/code-mode-model-matrix.ts:493-522 | at most two rounds for each segment and four calls per segment in all |
| `Reservation.RaceHasOneWinner` | scripts/code-mode-model-matrix.ts:475-524 | racing for an absent directory without faults, exactly one process has reserved it as soon as any is done |
| `RestartProbe.StateKeyIsInjective` | scripts/bench-gateway-restart.ts:531-532 | the key tells any two observations apart |
| `RestartProbe.NoteTransition` | scripts/bench-gateway-restart.ts:531-546 | transitions and events grow by the runs of equal observations |
| `RestartProbe.NoteAttempt` | scripts/bench-gateway-restart.ts:547-555 | one more attempt in the loop's four variables: the first error kind, the last status, the last time up, the first time down |
| `RestartProbe.PollUntilExit` | scripts/bench-gateway-restart.ts:512-569 | the loop makes just the attempts of the specification, holds what they showed, and is left by one of three exits |
| `RestartProbe.WaitForRestartProbe` | scripts/bench-gateway-restart.ts:494-579 | the three exits of the loop all return the report on the attempts made |
| `RestartProbe.ReportMeaning` | scripts/bench-gateway-restart.ts:494-579 | what is reported when: `ms` exactly when recovered or all attempts were up with at least one made, `unavailableMs` is the first time down, `downtimeMs` is non-negative and spans the first outage |
| `RestartProbe.AttemptsAreMade` | scripts/bench-gateway-restart.ts:512-567 | the loop makes attempts until the process is gone, the caller is content with nothing down, or the server is back, and ends for no other reason |
| `RestartProbe.ReportSays` | scripts/bench-gateway-restart.ts:530-578 | the status is the last one, the error kind the first one shown, and without an outage `ms` is the last time |
| `RestartProbe.TransitionsAreHistory` | scripts/bench-gateway-restart.ts:531-546 | neighbouring transitions differ, the last shows the last observation, none only when nothing was observed |
| `RestartProbe.TransitionsAreChanges` | scripts/bench-gateway-restart.ts:531-546 | every change of the observation is one transition, in order, at its time, and there are no others |
| `RestartProbe.TransitionsGrow` | scripts/bench-gateway-restart.ts:532-546 | so every earlier observation stays accounted for |
| `GlobPaths.MatchingIsCompositional` | scripts/check-policy-config-coverage.ts:209-232 | p then q matches exactly what splits into a part for p and a part for q |
| `GlobPaths.DottedPatternsCompose` | scripts/check-policy-config-coverage.ts:203-207 | the same for dotted pattern strings |
| `GlobPaths.MatcherIsAutomaton` | scripts/check-policy-config-coverage.ts:209-232 | the backtracking matcher accepts exactly what a position-set automaton accepts in one reading |
| `GlobPaths.RepeatedAnyPathCollapses` | scripts/check-policy-config-coverage.ts:214-223 | repeated `**` segments collapse to one anywhere in a pattern |
| `GlobPaths.AnyPathMatchesFrom` | scripts/check-policy-config-coverage.ts:214-223 | the shortcut for a trailing `**` is no special case |
| `GlobPaths.LiteralPatternMatchesItself` | scripts/check-policy-config-coverage.ts:203-232 | a pattern without wildcard segments matches its own path and no other |
| `GlobPaths.StarMatchesOnePart` | scripts/check-policy-config-coverage.ts:225-231 | `*` matches the paths without a dot |
| `GlobPaths.DoubleStarMatchesAnyPath` | scripts/check-policy-config-coverage.ts:214-217 | `**` matches every path |
| `GlobPaths.LiteralAndStar` | scripts/check-policy-config-coverage.ts:203-232 | a path and `.*` matches it with exactly one more part |
| `GlobPaths.LiteralAndDoubleStar` | scripts/check-policy-config-coverage.ts:203-232 | a path and `.**` matches it and everything below it |

## Left out

- Windows: `taskkill`, runs without process groups, and the signals relayed there.
- Process spawning, pipes, the texts of errors, `formatProcessOutput` and the durations of timers: only that each callback may come while it is armed.
- `EPERM` and other failures of signal delivery: a failed SIGKILL counts as sent, and the probe's answer is an input.
- Whether a re-raise comes about: a run with a pending parent signal may never settle, so only safety is stated.
- The wording of prompts and the validation hint in a retry: the provider may answer anything to any of them.
- The translation client, prompts, delays and progress logging; a client that cannot be created counts as an attempt, and a missing provider key is not modelled.
- `JSON.parse` itself: on the cut envelope it is any function, on provider replies its answer is part of the provider's outcome.
- TranslationReply.ParseTranslationBatchReply: starts from the parsed reply; stripping a Markdown fence and parsing are part of the provider's outcome.
- Segments.SegmentsEndAtTopLevelCommas: with tracking on it refers to the loop's own count of open type arguments; `ParameterLists.ParametersAreSplit` replaces it by the grammar.
- Segments.StateCountsBrackets: gives no counting formula for open type arguments, which cuts and default values reset; `ParameterLists` says what they mean.
- Decoding of process output: the source turns each chunk of bytes into text by itself, so a UTF-8 character cut by a chunk boundary is lost before the model starts. Its chunks are the decoded texts.
- Placeholder lists of provider replies are compared as sets; `localeCompare` only sorts them.
- `localeCompare` is any collation, and the normalization of source paths any function.
- `appleCatalogValue`'s rewriting of inflected counts and the entry filters are inputs of `AppleCatalog`, as is the list of locales; the constant catalog header is not modelled.
- Own keys only: keys that JavaScript objects inherit are not modelled.
- Removal of files while a directory is reserved, path normalization, case-insensitive file systems and links above the repository root.
- The polling delay and the deadline test of the restart probe: the trace simply ends. `classifyProbeErrorKind` is an input.
- Clock readings and budgets are real numbers, without rounding.
- SHA-256 keys, UI literal finders, argument parsers, report formatting and the other scripts: tables and plumbing rather than algorithms.
