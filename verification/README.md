# Verification model of the translation orchestrator

This project models, in Dafny, the part of the orchestrator that decides whether a citizen's page
comes back right: how a segment is masked, cut up, sent to a model, put together again, restored and
checked; the translation memory with a cache in front of it and a review workflow behind it; the job
queue; and the limits on both ends. It proves what the repository promises of them, for every input
and every run, and says exactly when a promise that is too wide does hold.

`dafny verify dfyconfig.toml` checks the whole project. The tree of modules follows the program:

- `Segments`, `Validator`, `Wire`, `LengthSplit`: placeholder segments, the stack validator, the wire
  grammar and the length splitter. Losslessness is stated on *atoms*: the characters and markers of a
  segment laid out flat. Merged segments with the same atoms are the same segment.
- `Patterns`, `Decompose`, `Sentences`, `Clauses`, `ModelCall`, `ShortText`: the decomposition of a model call.
  `ModelCall.Plan` lists what the page keeps and what is sent; the methods follow the source's loops
  and are tied to the plan. `PiecePlaces`, `SentencePlaces` and `ClausePlaces` say by position, without
  the functions that find them, where a piece is trimmed, where a sentence ends and where a long one
  is cut, and prove that the functions find exactly that.
- `XmlFormat`, `XmlGrammar`, `XmlCall`, `Artefacts`: the XML-like model format, the grammar of its tags
  and of what looks like one, a whole call through it, and the zero-width characters taken out of what
  comes back.
- `Protect`, `Spans`, `Glossary`, `Substitution`, `Restoring`, `Verdicts`, `RoundTrip`, `Answers`,
  `Collapse`, `NumberValues`, `Leaks`: masking, glossary terms, restoring, the checks on what a model answered.
  `Occurrences` says letter by letter which terms a text holds, `Worths` and `NumberPlaces` what its
  numbers are worth and where they stand, and `Acceptance` in words what an answer must be to be served.
- `EndToEnd`: one request all the way, with a model that copies.
- `Memory`, `TieredStore`, `StoreRuns`, `Audit`, `StoreClasses`: the translation memory, the cache, the
  store in front of them, its runs, the audit trail with refused and failing changes, and the classes
  whose methods update them in place. `History` reads the answer for a segment off the operations that
  wrote it, the terms published and what expired; `DailyCap` is about review items, new and old.
- `JobQueue`, `QueueRuns`, `QueueTimes`, `QueueObject`, `Buckets`, `RateLimits`, `Quotas`: the leased queue
  and the limiters.
- `Widget`, `Xliff`: the browser's decoder and encoder, and the translators' XLIFF.

Regular expressions whose matching is Unicode's business come in as character predicates
(`Alphabet`, `Signs`, `Digits`, `Letters`) or as the matches they found (`Protect.Patterns`); every
other pattern is written out as a function. The clock is an argument. Times and rates are reals.

## What turned out different from its description

- The segment module says wire text survives parsing and printing byte for byte
  (`orchestrator/pipeline/segment.py:12`). It does exactly when every marker number is written in
  ASCII digits without leading zeros: `Wire.ParseThenPrint`, with `Wire.LeadingZeroIsLost` as the
  counterexample. Printing and then parsing is the identity: `Wire.PrintThenParse`.
- The last masking pattern is called a catch-all (`orchestrator/pipeline/protect.py:52`). A match that
  an earlier span touches is dropped whole, so "30 June 2026,5" keeps its 5 in the text
  (`Protect.TrailingDigitStays`). A character of a number match is masked exactly when an earlier span
  holds it or none touches the match (`Protect.MaskedIff`), and no digit is left exactly when earlier
  spans hold every digit of each number match they touch (`Protect.EveryDigitMaskedIff`).
- A call with a model that copies does not always return its segment: zero-width characters are
  stripped from every answer (`orchestrator/service/model_call.py:122-129`), so it does exactly when no
  text sent holds one: `XmlCall.EchoThroughXml`, with `XmlCall.ArtefactIsLost`. The same condition
  decides, with the leak scan, whether a whole request comes back as it was sent:
  `EndToEnd.EchoIsServed`. Where stripping makes placeholders touch, the request is refused.
- With numbers left to the model, a digit in a name is no number (`orchestrator/pipeline/protect.py:112-115`),
  but where the source shows no number every numeral is refused: a copied "G2C" does not pass
  (`Leaks.NamedDigitIsRefused`). Which masked segments restore
  when they come back unchanged is `RoundTrip.MaskThenRestoreIff`.
- The widget's decoder and the server's grammar must agree exactly (`adapters/widget/src/wire.ts:3-10`).
  The server reads marker digits of any script and the widget ASCII digits only, so they agree on a
  text exactly when its marker digits are all ASCII or the server refuses it as well:
  `Widget.WidgetReadsTheGrammar`, with `Widget.ArabicDigitIsRefused`.
- `collapse_formatting` says its result always passes `validate`
  (`orchestrator/pipeline/tags.py:48-49`). It is always balanced, and it is valid exactly when no id is
  used twice among the source's tags and the output's placeholders: `Collapse.CollapseIsValid`, with
  `Collapse.RepeatedPlaceholderIsRefused`. Where the service calls it, it does pass:
  `Collapse.CollapseAfterRestoring`.
- The queue's depth is bounded on enqueueing only (`orchestrator/queue/jobs.py:174-175`):
  `QueueRuns.RetryPassesTheBound`. A run stays within the bound exactly when each failure and each
  sweep finds room for the rows it gives back: `QueueRuns.RunWithinBound`.
- A row may be claimed once even where the queue allows no attempts: `QueueRuns.FirstClaimIsFree`. Every
  run keeps to the number allowed exactly when that is at least one, or is nought and the queue has no
  room for a job: `QueueRuns.ClaimsWithinAttempts`.

## Model

| member | source | states |
|---|---|---|
| Segments.MergeText | orchestrator/service/model_call.py:340-351 | the merging loop gives a segment with no empty and no neighbouring texts, with the same characters and markers in the same order |
| Segments.MergedUnique | orchestrator/service/model_call.py:340-351 | the merged form is canonical: merged segments with the same characters and markers are equal |
| Segments.MergeCanonical | orchestrator/service/model_call.py:117-144 | merging each piece and then the whole gives what merging once gives |
| Validator.Validate | orchestrator/pipeline/segment.py:169-187 | the loop with a stack and a set of ids reports the first objection of the validator |
| Validator.ValidIsWellNested | orchestrator/pipeline/segment.py:169-187 | a segment is accepted if and only if its tags are a well-nested word and each id is introduced once |
| Validator.ValidOfTagsAndIds | orchestrator/pipeline/segment.py:169-187 | validity depends only on the tags in order and on the ids with their multiplicity |
| Wire.Tokenize | orchestrator/pipeline/segment.py:131-166 | the tokenizer's loop reads what the grammar says, with the same error for malformed text |
| Wire.EscapeIsOnePass | orchestrator/pipeline/segment.py:76-77 | doubling one delimiter after the other doubles each delimiter exactly once |
| Wire.PrintThenParse | orchestrator/pipeline/segment.py:76-166 | printing a merged segment and tokenizing it gives the segment back |
| Wire.ScanShape | orchestrator/pipeline/segment.py:131-166 | what the tokenizer returns is merged, and holds no entity unless entities are allowed |
| Wire.ParseThenPrint | orchestrator/pipeline/segment.py:12-35 | readable wire text is printed back byte for byte if and only if every marker number is canonical |
| Wire.LeadingZeroIsLost | orchestrator/pipeline/segment.py:34-35 | a concrete readable text that is not printed back |
| LengthSplit.DepthZeroBreaks | orchestrator/pipeline/segment.py:197-216 | the loop collects the split points of the specification, in order |
| LengthSplit.PointsAreBreaks | orchestrator/pipeline/segment.py:197-216 | the points found are exactly the places behind a terminator and its white space at nesting depth nought, as seen on the flat text |
| LengthSplit.CutAtoms | orchestrator/pipeline/segment.py:219-230 | a cut puts every character and marker on the side it belongs to |
| LengthSplit.CutValid | orchestrator/pipeline/segment.py:219-230 | both sides of a cut at a split point of a valid segment are valid |
| LengthSplit.WireLenOfAtoms | orchestrator/pipeline/segment.py:233-234 | the wire length is the sum over characters and markers, so it does not depend on how text is cut |
| LengthSplit.SplitLong | orchestrator/pipeline/segment.py:237-259 | the pieces join to the segment, each fits and is valid, no split at depth-zero breaks has fewer pieces, and it refuses if and only if no such split exists |
| Patterns.WordRunsGap | orchestrator/service/model_call.py:84-87 | cutting at white space splits the words between the two sides |
| Decompose.TrimKeeps | orchestrator/service/model_call.py:323-337 | trimming moves only white space and markers without letters to the ends, and nothing is lost |
| Decompose.LeadingValuesKeeps | orchestrator/service/model_call.py:249-278 | leading values and the rest are the piece, and no letter is held back |
| Decompose.LabelValuesKeeps | orchestrator/service/model_call.py:281-303 | a label and the values behind it are the piece, and no letter is held back |
| Decompose.LeadingValuesLoop | orchestrator/service/model_call.py:249-278 | the loop that finds the leading values cuts where the specification does |
| Decompose.LabelValuesLoop | orchestrator/service/model_call.py:281-303 | the loop that finds the values behind a label cuts where the specification does |
| PiecePlaces.TrimTakesAllSpace | orchestrator/service/model_call.py:323-337 | of a merged piece all white space at both ends is taken off and nothing else |
| PiecePlaces.ListNumberIff | orchestrator/service/model_call.py:72-73 | a number of a list is found exactly where one is written: a bracket perhaps, one or two digits, further ones behind dots, a dot or bracket perhaps, white space, then a letter |
| PiecePlaces.IdentifiersTaken | orchestrator/service/model_call.py:249-274 | identifiers in front are taken off with the punctuation up to the first word |
| PiecePlaces.ListNumberTaken | orchestrator/service/model_call.py:274-278 | otherwise the number of a list is taken off, or nothing |
| PiecePlaces.LabelValuesTaken | orchestrator/service/model_call.py:281-303 | values at the end are kept back with an open bracket before them, unless nothing else is before that, or with the white space behind a label, and behind anything else not at all |
| Sentences.SplitSentencesFaithful | orchestrator/service/model_call.py:205-242 | sentences and gaps are the piece in order, gaps are white space, every sentence is merged and has a letter |
| Sentences.SplitSentencesLoop | orchestrator/service/model_call.py:205-242 | the loops that cut, absorb and merge sentences compute that split, whose cuts are those of `SentencePlaces.CutIff` |
| SentencePlaces.MatchIs | orchestrator/service/model_call.py:74-82 | the sentence-end pattern matches at a mark exactly where closing quotes, white space and the start of a sentence follow, or a capitalised word is glued to a full stop |
| SentencePlaces.PassedIs | orchestrator/service/model_call.py:219-224 | a match ends no sentence exactly when white space, a single letter or an abbreviation is before it |
| SentencePlaces.CutIff | orchestrator/service/model_call.py:205-242 | a piece is cut at a place if and only if a sentence ends there, a letter stands between it and the last such place before, and a letter stands behind it |
| SentencePlaces.AskIsOneSentence | orchestrator/service/model_call.py:221-224 | "Ask Mr. Dorji." is one sentence |
| SentencePlaces.BringIsTwoSentences | orchestrator/service/model_call.py:205-242 | "Apply online. Bring it." is two, with the space between them as the gap |
| Clauses.CutShrinks | orchestrator/service/model_call.py:167-202 | both sides of a clause cut have fewer words than the whole, so clause splitting ends |
| Clauses.NearestIsLeast | orchestrator/service/model_call.py:167-202 | the cut chosen is nearest the middle of all cuts in range, and there is none exactly when there are no cuts |
| Clauses.NearestIsFirst | orchestrator/service/model_call.py:167-202 | of cuts equally near, the first found is taken |
| Clauses.FindCutLoop | orchestrator/service/model_call.py:167-202 | the search over pause strengths, tokens and matches finds the cut of the specification |
| ClausePlaces.CutTakenIff | orchestrator/service/model_call.py:167-202 | a sentence of too many words is cut at a place if and only if, for some strength of pause, it is the first of those nearest the middle and leaves letters on both sides, and no stronger pause does |
| Clauses.SplitLongSettles | orchestrator/service/model_call.py:167-202 | every clause is within the word limit or has no place left to cut |
| Clauses.ClausesFaithful | orchestrator/service/model_call.py:152-202 | clauses and gaps are the piece in order, gaps are white space, every clause is merged and has a letter |
| ModelCall.SplitAtTagsPartitions | orchestrator/pipeline/segment.py:385-403 | the pieces joined in order are the very same tokens; tags stand alone and the stretches between hold none |
| ModelCall.SplitAtTagsLoop | orchestrator/pipeline/segment.py:385-403 | the loop cuts at inline tags as specified |
| ModelCall.PlanPartitions | orchestrator/service/model_call.py:103-144 | what is kept and what is sent, in order, are the segment; nothing kept has a letter, everything sent has one |
| ModelCall.TranslateSegment | orchestrator/service/model_call.py:103-144 | the call returns the plan with each question replaced by its answer, and makes exactly the plan's calls, in order |
| ModelCall.TranslatePiece | orchestrator/service/model_call.py:132-144 | one piece goes back around its answers |
| ModelCall.CallsNeededIsCallsMade | orchestrator/service/model_call.py:95-100 | the quota's estimate is the number of calls made |
| ModelCall.EchoIsIdentity | orchestrator/service/model_call.py:103-144 | with a translator that echoes, a call returns exactly the segment it was given |
| ModelCall.EveryLetterSentOnce | orchestrator/service/model_call.py:103-351 | the letters of everything sent, in order, are the letters of the segment outside its placeholders |
| ModelCall.EverySendHasWords | orchestrator/service/model_call.py:103-144 | every text sent is merged and holds a letter |
| Answers.SendsAreTagFree | orchestrator/service/model_call.py:103-144 | the model is never shown an inline tag |
| Answers.RejoinedKeeps | orchestrator/service/model_call.py:103-144 | answers that keep their own placeholders and invent no tag add up to the source's placeholders and its tags in order |
| Answers.FaithfulAnswersPass | orchestrator/pipeline/protect.py:305-346 | such answers pass the entity, glossary and tag checks against the whole source |
| XmlFormat.UnescOfEsc | orchestrator/pipeline/segment.py:306-312 | the three replacements, in the order they are done, undo the escaping of any text |
| XmlFormat.EncodeLoop | orchestrator/pipeline/segment.py:314-327 | the encoder's loop writes each token in its plain spelling |
| XmlFormat.DecodeLoop | orchestrator/pipeline/segment.py:329-362 | the loop over the tags found, and the search for stray ones, decode as specified |
| XmlFormat.SpelledIsTag | orchestrator/pipeline/segment.py:285-303 | upper case, inner spaces, a dropped slash, digits of any script and leading zeros are all read as the tag they damage |
| XmlFormat.DamagedTagsDecode | orchestrator/pipeline/segment.py:285-362 | however the tags of a valid merged segment are spelled, decoding gives that segment, or refuses because its own text looks like a tag; never another segment |
| XmlFormat.DecodeOfEncode | orchestrator/pipeline/segment.py:314-362 | decoding an encoded segment gives it back, or refuses exactly when its text looks like a tag |
| XmlGrammar.TagIff | orchestrator/pipeline/segment.py:285 | the tag pattern matches at the start of a text if and only if a tag is written there, whatever white space is in it |
| XmlGrammar.StrayIff | orchestrator/pipeline/segment.py:286 | text looks like a tag if and only if the start of one is written somewhere in it |
| XmlGrammar.DecodeIff | orchestrator/pipeline/segment.py:329-362 | any text is decoded, into a segment, if and only if its tags from left to right stand for markers of the segment that was sent, the text between is unescaped, and nothing like a tag is left in it |
| XmlGrammar.DecodedWereSent | orchestrator/pipeline/segment.py:329-355 | whatever a model writes, each entity and void element decoded is one that was sent |
| XmlCall.EveryQuestionDecodes | orchestrator/service/model_call.py:120-129 | no question of a call on a segment without tag-like text is refused by the decoder |
| XmlCall.EchoThroughXml | orchestrator/service/model_call.py:103-144 | a whole call with a model that only damages tag syntax returns the segment with what was sent stripped of zero-width characters: the markers are the segment's, and it is the segment if and only if nothing sent holds such a character |
| ShortText.ShortTextIsSentWhole | orchestrator/service/model_call.py:103-144 | a text of at most forty characters that starts with a letter, ends in no white space and has no terminator is sent in one call, as it is |
| XmlCall.ArtefactIsLost | orchestrator/service/model_call.py:122-129 | a concrete text with a zero-width space, which is sent whole, does not come back as it was |
| Protect.UrlNeverOvercloses | orchestrator/pipeline/protect.py:170-187 | no prefix of a URL closes a bracket the URL did not open |
| Protect.AcceptedSpans | orchestrator/pipeline/protect.py:157-167 | accepted spans are in range, in order, disjoint and not empty |
| Protect.SpansLoop | orchestrator/pipeline/protect.py:157-167 | the loops over patterns, matches and what is taken compute those spans |
| Protect.UrlEndIs | orchestrator/pipeline/protect.py:170-187 | a URL ends at the first bracket that closes none of its own, or else at the end of its match, behind a bracket there that closes one of its own |
| Protect.MaskedSpanIff | orchestrator/pipeline/protect.py:157-167 | a span is found if and only if it is a match of some pattern and no earlier match had taken any of it |
| Restoring.MaskSpanIff | orchestrator/pipeline/protect.py:195-229 | a stretch of text becomes a placeholder if and only if it is such a span and of a kind not left to the model |
| Protect.MaskedIff | orchestrator/pipeline/protect.py:157-167 | a character of a number match is masked if and only if an earlier span holds it or no earlier span touches the match |
| Protect.EveryDigitMaskedIff | orchestrator/pipeline/protect.py:51-101 | no digit is left unmasked if and only if earlier spans hold every digit of each number match they touch |
| Protect.TrailingDigitStays | orchestrator/pipeline/protect.py:157-167 | a concrete text whose last digit stays unmasked |
| Restoring.Mask | orchestrator/pipeline/protect.py:195-229 | masking replaces each span by a placeholder, refuses kinds that may not be translated, and refuses a segment that is masked already |
| Spans.ReplaceLoop | orchestrator/pipeline/protect.py:212-229 | the loop over tokens and spans builds the replacement and its originals |
| Spans.ReplaceFresh | orchestrator/pipeline/protect.py:210-229 | new ids continue after the old ones, and the originals are known for exactly the new ids |
| Spans.ReplaceFills | orchestrator/pipeline/protect.py:195-229 | filling the placeholders in again rebuilds every character and marker |
| Spans.ReplaceStructure | orchestrator/pipeline/protect.py:195-229 | tags stay as they were and each new id is used once |
| Spans.ReplaceValid | orchestrator/pipeline/glossary.py:181-200 | a valid segment stays valid when it is masked or its terms are substituted |
| Restoring.ExactlyIs | orchestrator/pipeline/protect.py:335-346 | the check on counts passes if and only if the placeholders are the same multiset and none occurs twice |
| Restoring.TouchingLoop | orchestrator/pipeline/protect.py:310-326 | the loop finds the pairs of entities with nothing visible between them |
| Restoring.Restore | orchestrator/pipeline/protect.py:329-367 | restoring counts the entities, scans for leaks, looks for new touching pairs, in this order, each with its own error, and then rebuilds the segment |
| Acceptance.ReasonIs | orchestrator/pipeline/protect.py:335-346 | the first wrong placeholder decides the reason: one too often, one with another kind, one unknown; one that is missing is reported when none is wrong |
| Acceptance.TouchingIs | orchestrator/pipeline/protect.py:310-326 | the pairs collected are the entities that follow each other with nothing the page shows between them |
| Acceptance.FinaliseDecides | orchestrator/service/translate.py:230-242 | which check refuses an answer, each said in words, in the order they are made |
| Acceptance.ServedIff | orchestrator/service/translate.py:230-242 | an answer is served if and only if its entities and terms are the source's, none twice, the scan passes what it says, no two entities newly touch, and it is well nested with each id once and the source's tags in order; what is served reads as the answer does with values and targets put in, and has the source's tags |
| Acceptance.StoredIff | orchestrator/pipeline/validate.py:28-41 | the worker stores an answer under the same condition |
| Acceptance.LostTagIsRefused | orchestrator/pipeline/tags.py:34-38 | a concrete answer without its source's link is refused |
| Verdicts.RestorationIsExact | orchestrator/pipeline/protect.py:329-367 | a restoration that succeeds has every entity of the source exactly once, each filled with its source text and nothing else changed, makes no new touching pair and passed the leak scan |
| Verdicts.RestoredNumbersAreTheSources | orchestrator/pipeline/protect.py:278-298 | the text of an answer that was restored has numbers worth the same as the source's, each as often, month numbers aside, and no address |
| Leaks.NumberLeak | orchestrator/pipeline/protect.py:278-298 | the scan fails on a source with a numeral that cannot be compared, and objects to lost numbers, to new ones that are no month of the source, and to addresses |
| Leaks.PassedCarriesItsNumbers | orchestrator/pipeline/protect.py:278-298 | text that passes has each number of the source at least as often, and nothing beyond but month numbers; without numbers or months in the source it has the same numbers |
| Leaks.PassesIff | orchestrator/pipeline/protect.py:278-298 | exactly when text passes, in what its numbers are worth |
| Leaks.LoneNumberPasses | orchestrator/pipeline/protect.py:278-298 | where source and answer are one number each, the answer passes if and only if it is worth the same |
| Leaks.LostFractionIsRefused | orchestrator/pipeline/protect.py:278-298 | "12" for "12.5" is refused |
| Leaks.NamedDigitIsRefused | orchestrator/pipeline/protect.py:253-298 | a concrete text whose own copy is refused, whatever digits and numerals other scripts have |
| Verdicts.WorkerSpeaksForEveryRequest | orchestrator/pipeline/validate.py:28-41 | the worker's verdict, with values it does not know, is the live verdict with its reason, for the values and terms of every request that shares the source; what that verdict is, is `Acceptance.ServedIff` |
| Verdicts.FinaliseIgnoresValues | orchestrator/service/translate.py:230-242 | the verdict of finalisation does not depend on the values restored |
| RoundTrip.MaskKinds | orchestrator/pipeline/protect.py:195-229 | placeholders are of known kinds, and never of a kind left to the model |
| RoundTrip.MaskedAgrees | orchestrator/pipeline/protect.py:195-229 | the originals know exactly the entities of the masked segment, by id and kind, and each occurs once |
| RoundTrip.MaskThenRestore | orchestrator/pipeline/protect.py:195-367 | a masked segment that came back unchanged restores to the source exactly, unless the leak scan objects |
| RoundTrip.MaskThenRestoreIff | orchestrator/pipeline/protect.py:195-367 | with the number scan, it restores to the source if and only if the text the masker left has no address, no numeral without a value to compare, and no numeral at all where it has no number |
| Collapse.CollapseFormatting | orchestrator/pipeline/tags.py:41-70 | the loop and the wrapping build the collapsed segment and refuse it when it is not valid |
| Collapse.CollapseIsValid | orchestrator/pipeline/tags.py:41-70 | the collapsed segment is valid if and only if no id occurs twice among the source's tags and the output's placeholders |
| Collapse.RepeatedPlaceholderIsRefused | orchestrator/pipeline/tags.py:41-70 | a concrete output that is refused |
| Collapse.NothingLeftToRestore | orchestrator/service/translate.py:240-242 | after entities and then terms were restored, no placeholder of a kind the source has is left |
| Collapse.CollapseAfterRestoring | orchestrator/service/translate.py:392-397 | where it is called, after a restoration that succeeded, the collapsed segment of a valid source is valid |
| Collapse.ContentKeeps | orchestrator/pipeline/tags.py:50-59 | every character and placeholder of the output is kept, in order |
| Collapse.WrappedTags | orchestrator/pipeline/tags.py:60-68 | the source's spans wrap the whole in source order and its void elements follow |
| NumberValues.ToPlain | orchestrator/pipeline/protect.py:253-270 | digits of any script become ASCII digits; a numeric character that is no decimal digit is refused |
| NumberValues.KeyIsValue | orchestrator/pipeline/protect.py:270-275 | the key of a whole number is its value in plain decimal |
| NumberValues.KeysAreValues | orchestrator/pipeline/protect.py:253-275 | whole numbers in any script, with leading zeros and correct thousands separators or none, have equal keys if and only if they have equal values |
| NumberValues.CountNumbers | orchestrator/pipeline/protect.py:253-275 | the two loops read the numbers of a text, by key, each as often as it is written, and refuse a numeral without a value; which numbers those are is `NumberPlaces.NumbersByPlace`, and what their keys say `Worths.KeysAreWorths` |
| NumberPlaces.NumbersByPlace | orchestrator/pipeline/protect.py:112-117 | the numbers of a text, by position: each starts at a digit behind no letter, goes on over dots and commas with digits behind them, and of a time on the hour only the hour counts |
| Worths.KeysAreWorths | orchestrator/pipeline/protect.py:270-275 | two numbers as the pattern finds them have the same key if and only if they are worth the same: the value of the digits in front, separators for thousands left out, and what is written behind |
| Worths.DecimalsAgree | orchestrator/pipeline/protect.py:253-275 | two numbers with a fraction, in any script, with leading zeros and with separators or none, have the same key if and only if the values before the dot and the digits behind it are the same; none has the key of a whole number |
| Worths.TextsAgreeByWorth | orchestrator/pipeline/protect.py:253-298 | two texts have the same numbers by key if and only if their numbers are worth the same, each as often, and one has all numbers of the other by key if and only if it has them by worth |
| Glossary.FromEntries | orchestrator/pipeline/glossary.py:68-126 | a file's entries load if and only if every active one passes its field checks, no id occurs twice and no two are ambiguous; otherwise the first that objects is reported, for its first bad field or against the first term it clashes with; retired entries are skipped |
| Glossary.FindTermsLoop | orchestrator/pipeline/glossary.py:166-178 | the scan over the text finds the matches of the specification, which are those of `Occurrences.FoundIff` |
| Glossary.TriedIsLongest | orchestrator/pipeline/glossary.py:137-178 | the candidate taken at a position is a longest match there, and none is missed |
| Glossary.LongestIsUnique | orchestrator/pipeline/glossary.py:129-134 | in an accepted termbase there is one longest match at a position |
| Glossary.OrderDoesNotMatter | orchestrator/pipeline/glossary.py:68-178 | an accepted termbase in any order gives the same matches |
| Occurrences.MatchesIff | orchestrator/pipeline/glossary.py:151-163 | a term matches exactly where it occurs letter by letter, in its case or any as it asks, and no word goes on across its ends |
| Occurrences.AmbiguousIff | orchestrator/pipeline/glossary.py:129-134 | two entries are refused together if and only if some text is an occurrence of both |
| Occurrences.FoundIff | orchestrator/pipeline/glossary.py:166-178 | in an accepted termbase the matches are the one leftmost and longest choice of occurrences |
| Occurrences.FoundSpells | orchestrator/pipeline/glossary.py:151-178 | the text found for a term is its source but for case, and its source exactly where it asks for its case |
| Occurrences.CaseFolds | orchestrator/pipeline/glossary.py:151-178 | where no entry asks for its case, texts that differ in case only have the same terms in the same places |
| Occurrences.CapitalIsFound | orchestrator/pipeline/glossary.py:159-160 | "tax" is found in "Tax" |
| Substitution.RunMatchesWhole | orchestrator/pipeline/glossary.py:147-163 | a term that matches in a stretch cut out between matches would have matched in the whole text |
| Substitution.Substitute | orchestrator/pipeline/glossary.py:181-200 | the method replaces every match by a term placeholder |
| Substitution.NoTermRemains | orchestrator/pipeline/glossary.py:181-200 | after substituting, no term matches anywhere in any text that is left |
| Occurrences.NoTermIsLeft | orchestrator/pipeline/glossary.py:181-200 | no text that is left has, between word edges, a stretch that reads as a term, in any case or in the term's own as it asks |
| Substitution.SubstituteTwice | orchestrator/pipeline/glossary.py:181-200 | substituting again changes nothing |
| EndToEnd.RestoringUndoes | orchestrator/service/translate.py:222-242 | with every term filled by the text it matched, restoring entities and terms undoes masking and substituting |
| EndToEnd.SameMarkersPass | orchestrator/service/translate.py:230-242 | an answer with the source's markers can be refused by the leak scan and for touching placeholders only |
| EndToEnd.UnchangedSourcePasses | orchestrator/service/translate.py:230-242 | a source that came back unchanged passes every check but, possibly, the leak scan |
| EndToEnd.EchoIsServed | orchestrator/service/translate.py:222-242 | with a model that copies and damages only tag syntax, a request is refused by the leak scan or for placeholders that stripping made touch, or else served with the client's own tags; where targets are the matched texts it is served exactly as sent if and only if no text sent holds a zero-width character and the scan passes |
| TieredStore.GateTier | orchestrator/store/lookup.py:76-84 | whatever is not the integer 2 or 3 is tier 1 |
| StoreClasses.InMemoryTM.StoreMachine | orchestrator/store/tm.py:190-215 | the memory afterwards holds one new version under the next id |
| StoreClasses.InMemoryTM.Approve | orchestrator/store/tm.py:217-254 | an approval adds a human version and decides the segment's review |
| StoreClasses.InMemoryTM.FlagForReview | orchestrator/store/tm.py:256-298 | flagging opens, moves or leaves a review item as the workflow says, within the day's cap |
| StoreClasses.InMemoryTM.InvalidateTerms | orchestrator/store/tm.py:316-346 | stale machine versions are invalidated, stale approvals sent to recheck, and the keys to evict returned; which ones those are is `History.PublishedIsGone` and `History.UnrelatedStays` |
| StoreClasses.InMemoryTM.ExpireMachine | orchestrator/store/tm.py:364-372 | old machine versions are invalidated and their keys returned |
| StoreClasses.InMemoryTM.Lookup | orchestrator/store/tm.py:139-158 | a batched lookup answers each key with its standing approval or latest live machine version |
| StoreClasses.InMemoryCache.GetMany | orchestrator/store/cache.py:94-106 | what is read for a key is what was last set for it and not deleted since |
| StoreClasses.TranslationStore.Lookup | orchestrator/store/lookup.py:133-184 | the batch reads the cache, asks the memory for what is missing, and fills the cache, as specified |
| StoreClasses.TranslationStore.Record | orchestrator/store/lookup.py:193-227 | machine output and its review item are stored both, and the entry is cached, or neither is |
| StoreClasses.TranslationStore.EnsureReview | orchestrator/store/lookup.py:229-251 | machine output shown is flagged once; with the review queue down it returns and nothing changes |
| StoreClasses.TranslationStore.Approve | orchestrator/store/lookup.py:268-312 | an approval goes in with its audit record, is cached and drops the machine entry; with a record that is refused or cannot be written nothing changes |
| StoreClasses.TranslationStore.InvalidateTerms | orchestrator/store/lookup.py:314-342 | a publication goes in with its audit record and drops every key the memory returns from the cache; with a record that is refused or cannot be written nothing changes; what is served then is `History.ServedByHistory` |
| StoreClasses.TranslationStore.ExpireMachine | orchestrator/store/lookup.py:344-352 | expired machine keys are dropped from the cache |
| StoreClasses.TranslationStore.ServePage | orchestrator/service/translate.py:163-254 | a page is looked up in one batch and each machine hit served at tier 2 is flagged |
| TieredStore.CacheIsCoherent | orchestrator/store/lookup.py:133-184 | in any state that keeps the invariant, the answer with the cache is the answer of the memory alone |
| StoreRuns.StepKeeps | orchestrator/store/lookup.py:133-352 | every operation of the store keeps the invariant that ties cache, memory and reviews together |
| StoreRuns.CacheNeverChangesAnAnswer | orchestrator/store/lookup.py:133-352 | over every run from empty stores, machine entries dropped at any time, a lookup gives the version and text the memory alone gives, at every tier |
| StoreRuns.TierOneNeverGetsMachine | orchestrator/store/lookup.py:76-84 | over every run, whatever is not tier 2 or 3 is served only the approval that stands at that moment |
| StoreRuns.TierTwoIsReviewed | orchestrator/service/translate.py:244-254 | over every run, machine output shown on a tier 2 page has a review item at that moment, unless the review queue is down just then |
| StoreRuns.FlaggedMeansReviewed | orchestrator/store/lookup.py:229-251 | over every run, a value says it is flagged only where there is a review item, so what one serve could not flag the next one does |
| StoreRuns.OpenItemsAskAboutLiveOutput | orchestrator/store/tm.py:256-346 | over every run, an open review item asks about a live machine version of its own segment |
| StoreRuns.OneApprovalPerKey | orchestrator/store/tm.py:139-158 | over every run, a key is approved for one segment only |
| StoreRuns.StepOnlyAdds | orchestrator/store/tm.py:184-346 | every operation keeps version content and ids, and moves open items to newer versions only |
| StoreRuns.RecordSteps | orchestrator/store/tm.py:256-298 | recording machine output never reopens a decided item |
| StoreRuns.ServedSteps | orchestrator/store/lookup.py:229-262 | serving a page never reopens a decided item |
| StoreRuns.VersionsAreImmutable | orchestrator/store/tm.py:184-188 | once written, a version keeps its id and content for the rest of every run |
| History.ServedByHistory | orchestrator/store/lookup.py:133-352 | over every run and at every tier, a segment is served what its own history says: its last approval, or at tiers 2 and 3 its last machine output, unless a term it was ever written with was published since or the output expired |
| History.PublishedIsGone | orchestrator/store/tm.py:316-346 | over every run, publishing a term invalidates all machine output of each segment ever recorded or approved with it, sends its approval to recheck, closes the question about it, drops both cache entries and leaves nothing to serve at any tier |
| History.UnrelatedStays | orchestrator/store/tm.py:323-346 | over every run, a publication leaves the versions, the item and the answers of every other segment as they were |
| History.TaxIsGone | orchestrator/store/tm.py:323-346 | machine output recorded with "tax" is served until "tax" is published, and not after |
| DailyCap.OwedIff | orchestrator/store/tm.py:256-298 | an item a page opens is owed if and only if there is a cap and that many items of the site, opened by pages since and not owed, are there already |
| DailyCap.CapIsKept | orchestrator/store/tm.py:271-285 | flagging never takes the items that count past the cap |
| DailyCap.PageItemOwedIff | orchestrator/store/lookup.py:253-262 | an item a page opens is owed if and only if pages of its site opened the day's number in the last twenty-four hours |
| DailyCap.OperatorIsNotCapped | orchestrator/store/lookup.py:253-262 | an item for what an operator has translated is never owed |
| DailyCap.ExistingItem | orchestrator/store/tm.py:266-274 | an open item moves on to newer output; an older version, or a decided item, changes nothing |
| DailyCap.ReleasedItem | orchestrator/store/tm.py:300-314 | owed items that are released wait for a reviewer, as opened when they were, and nothing else changes |
| DailyCap.ApprovedItem | orchestrator/store/tm.py:217-254 | an approval keeps when and by whom the item was opened, and its site unless it names one |
| Audit.NoUnauditedApproval | orchestrator/governance/audit.py:20-23 | over every run with refused records and with the trail or the review queue down at any time, a human version is in the memory if and only if the trail has an entry for it, with its author and segment, and it has just one |
| Audit.RecordsStayTrue | orchestrator/governance/audit.py:14-18 | over every such run, an entry about an approval stays to the end and stays true: the version it names is there, by that author, for that segment, with the text approved |
| QueueObject.InMemoryQueue.Enqueue | orchestrator/queue/jobs.py:152-180 | the method merges, skips, refuses or adds a row exactly as specified |
| QueueObject.InMemoryQueue.Claim | orchestrator/queue/jobs.py:182-193 | the rows chosen become the worker's under a lease, and are handed out in order |
| QueueObject.InMemoryQueue.Complete | orchestrator/queue/jobs.py:195-201 | the holder's row is done; for anyone else nothing changes |
| QueueObject.InMemoryQueue.Fail | orchestrator/queue/jobs.py:203-212 | the holder's row goes back with a delay or is failed; for anyone else nothing changes |
| QueueObject.InMemoryQueue.Sweep | orchestrator/queue/jobs.py:214-225 | every expired row is given back or given up, and their number returned |
| QueueObject.InMemoryQueue.CurrentDepth | orchestrator/queue/jobs.py:145-146 | the depth is the number of pending rows |
| JobQueue.RunKeeps | orchestrator/queue/jobs.py:118-225 | in every run: one active row per machine key, running exactly when held under a lease, finished exactly when it has an end |
| JobQueue.RunFollows | orchestrator/queue/jobs.py:152-225 | from any moment of a run on: no row is lost, a job only grows more urgent or more reviewed, and finished rows stay as they are |
| JobQueue.ClaimedAtMost | orchestrator/queue/jobs.py:182-225 | over every run, a row is handed out at most as often as the queue allows, or once where it allows less |
| QueueRuns.FirstClaimIsFree | orchestrator/queue/jobs.py:182-193 | a concrete run that hands a row out whatever number of attempts is allowed |
| QueueRuns.ClaimsWithinAttempts | orchestrator/queue/jobs.py:182-225 | every run hands every row out at most as often as allowed if and only if at least one attempt is allowed, or none and no job either |
| JobQueue.ClaimTakesLeast | orchestrator/queue/jobs.py:182-187 | a claim takes ready rows in order of priority, availability and id, as many as asked for or all, and leaves none that comes before one taken |
| QueueRuns.HeldUntilLetGo | orchestrator/queue/jobs.py:182-225 | over every run, a worker keeps the row it holds exactly until it completes it, fails it, or a sweep comes past its lease |
| QueueRuns.HolderIsLastClaimer | orchestrator/queue/jobs.py:182-225 | over every run, who holds a row is the worker its last claim handed it to |
| QueueRuns.DoneByItsHolder | orchestrator/queue/jobs.py:182-225 | over every run, a row that is done was completed by the worker its last claim handed it to |
| QueueRuns.DeadWorkerIsFreed | orchestrator/queue/jobs.py:214-225 | over every run, whatever happens meanwhile, a row has left its worker's hands by the first sweep past its lease |
| JobQueue.EnqueueAnswers | orchestrator/queue/jobs.py:152-180 | enqueueing answers no if and only if the key needs work and the queue is full; otherwise the key is active as urgently and as reviewed as asked, or needs nothing |
| QueueTimes.AddsARowIff | orchestrator/queue/jobs.py:152-180 | over every run, asking for a job makes a row if and only if no row of its key is active, it is not translated, none of its key failed validation for good within a day, and there is room |
| QueueTimes.AskedAgain | orchestrator/queue/jobs.py:153-162 | asked for again, an active row becomes as urgent as the more urgent request and reviewed if either is, and nothing else changes |
| QueueTimes.RemembersADay | orchestrator/queue/jobs.py:163-173 | over every run, what the queue remembers of a key is that a row of it failed validation for good less than a day before |
| QueueTimes.BackoffIs | orchestrator/queue/jobs.py:100-101 | the wait is a second, and doubles up to ten minutes |
| QueueTimes.RetryWaits | orchestrator/queue/jobs.py:203-212 | over every run, a row sent back is ready from the end of its wait on and is handed out no earlier |
| QueueRuns.DepthStep | orchestrator/queue/jobs.py:152-225 | what each operation does to the depth, exactly |
| QueueRuns.StepWithinBound | orchestrator/queue/jobs.py:152-225 | an operation keeps a depth within its bound if and only if there is room for the rows it gives back |
| QueueRuns.RunWithinBound | orchestrator/queue/jobs.py:152-225 | a run stays within the bound throughout if and only if every failure and sweep in it has room for the rows it gives back |
| QueueRuns.RetryPassesTheBound | orchestrator/queue/jobs.py:203-212 | a concrete run in which a retry takes the depth past the bound |
| Buckets.GrantsAreBounded | orchestrator/upstream/quota.py:17-30 | in any window a bucket grants at most its capacity and what the rate brings in |
| Buckets.NeverRefusedIff | orchestrator/upstream/quota.py:17-30 | a bucket that starts full grants every call of a run if and only if no stretch of the run asks for more than the capacity and what the rate brings in over it |
| RateLimits.RateLimiter.Ask | orchestrator/api/ratelimit.py:112-121 | the method refills, evicts the coldest keys and spends a token exactly as specified |
| RateLimits.RemembersTheRecent | orchestrator/api/ratelimit.py:112-121 | a key is in the table if and only if fewer other keys asked since its last call than the table holds |
| RateLimits.TableIsBounded | orchestrator/api/ratelimit.py:116-118 | the table never holds more than its bound |
| RateLimits.RefinesOwnBucket | orchestrator/api/ratelimit.py:104-121 | a key that is always back in time is answered as by an unbounded bucket of its own |
| RateLimits.SteadyKeyIsLimited | orchestrator/api/ratelimit.py:104-121 | such a key is let through, in any window, at most the burst and the rate's worth |
| Quotas.Bucket.TakeTokens | orchestrator/upstream/quota.py:24-30 | taking refills, and spends when there is enough |
| Quotas.QuotaManager.Create | orchestrator/upstream/quota.py:49-60 | a share outside nought to one is refused; otherwise both buckets start full at their share |
| Quotas.QuotaManager.TryLive | orchestrator/upstream/quota.py:62-65 | a live call spends from the live bucket only |
| Quotas.QuotaManager.TryWorker | orchestrator/upstream/quota.py:67-69 | a worker's call spends from the worker's bucket only |
| Quotas.SidesAreApart | orchestrator/upstream/quota.py:37-69 | in every run each side is answered as if it were alone |
| Quotas.WorkerIsNotStarved | orchestrator/upstream/quota.py:3-6 | runs with the same worker's calls give the worker the same answers, whatever live traffic does |
| Quotas.SideStaysInItsShare | orchestrator/upstream/quota.py:49-69 | in any run of live and worker calls mixed as they come, what one side was granted in any window is at most its share of the rate times the burst seconds and the time elapsed |
| Quotas.SideIsServedIff | orchestrator/upstream/quota.py:49-69 | from full buckets, a side is granted each of its calls if and only if no stretch of them asks for more than its own share, whatever the other side does |
| Widget.DecodeWire | adapters/widget/src/wire.ts:32-91 | the decoder's loop reads what the specification with the same patterns reads |
| Widget.MarkIsNext | adapters/widget/src/wire.ts:22-75 | the widget's three patterns match exactly where the server reads a marker in ASCII digits, and the same one |
| Widget.WidgetReadsTheGrammar | adapters/widget/src/wire.ts:32-91 | on a text whose marker digits are all ASCII the widget decodes exactly what the server reads as flat wire text without placeholders, with the same slots, and refuses everything else; any other text it refuses; so the two agree if and only if those digits are ASCII or the server refuses as well |
| Widget.ArabicDigitIsRefused | adapters/widget/src/wire.ts:22-24 | a concrete text the server reads and the widget refuses |
| Widget.WidgetReadsServer | adapters/widget/src/wire.ts:32-91 | from the server's wire text the widget reads the segment's own slots and markers |
| Widget.SameMarkersIsSameTags | adapters/widget/src/wire.ts:93-97 | the widget's comparison agrees with the server's tag check |
| Widget.Encoder.AddText | adapters/widget/src/extract.ts:237-240 | a text node is escaped behind what is written and joins the last slot |
| Widget.Encoder.AddVoid | adapters/widget/src/extract.ts:242-246 | an opaque element becomes a numbered void and starts a slot |
| Widget.Encoder.AddInline | adapters/widget/src/extract.ts:248-256 | an inline element becomes a numbered pair around its texts |
| Widget.Encoder.Finish | adapters/widget/src/extract.ts:258-262 | the text is the wire text of the segment encoded, the slots are its slots, and without a letter there is none |
| Widget.WidgetReadsItself | adapters/widget/src/extract.ts:232-267 | the decoder reads back the slots and markers of whatever the encoder wrote |
| Xliff.ReadTarget | orchestrator/ops/seed.py:180-228 | the recursive walk and the merging loop read a tree as specified, with the same refusals |
| Xliff.ReadIsWalk | orchestrator/ops/seed.py:192-217 | walking a tree reads what its tags and characters spell, one after the other, the content of placeholders left out |
| Xliff.ExportIsReadBack | orchestrator/ops/seed.py:107-228 | whatever tree the exported inline markup of a valid segment parses to, reading it gives the segment's tokens, texts stripped of rendering artefacts |
| Xliff.ExportRoundTrip | orchestrator/ops/seed.py:107-228 | without artefacts the source itself comes back |
| Xliff.EverySegmentIsExported | orchestrator/ops/seed.py:107-127 | every valid segment has such a tree |
| Xliff.AnyTreeIsNested | orchestrator/ops/seed.py:180-228 | whatever tree a tool wrote, the tokens accepted from it are balanced and properly nested |

## Left out

- Regular-expression engines and Unicode tables: character classes are predicates with the laws they
  need, and the masking patterns' matches are an argument.
- The patterns for leaked addresses and for month names (`orchestrator/pipeline/protect.py:121-137`) come in as their verdicts on a text.
- NumberValues.KeysAreValues: speaks of whole numbers, and `Worths.DecimalsAgree` of those with a fraction, whose digits are kept as written, so 12.5 and 12.50 differ, as in the source.
- The termbase file around its entries (version, list, JSON), fingerprints and key hashing: keys are functions of the segment.
- `_Row` objects and store records are values in a map or a sequence that the methods reassign; aliasing of a row handed out is not modelled.
- Substitution.NoTermRemains: assumes that lowercasing works character by character and keeps word characters word characters.
- StoreRuns.CacheNeverChangesAnAnswer: assumes one approved key and one machine key per segment and no `migrate_pipeline`; cache outages, time to live of approvals and concurrent steps between a lookup and its later write are not modelled.
- The audit log's own checks of a record (`orchestrator/governance/audit.py:111-146`) are a predicate that does not look at its numbers; its other detail fields, and the listing of the first 64 terms only, are not modelled.
- A transaction is a snapshot put back when the change fails; a memory without transactions is never down.
- Releasing owed review items moves any subset of them; the order in which the source picks them is not modelled.
- The seen counter, `should_persist`, configuration audits, metrics and statuses.
- JSON encoding of cache entries, and cache namespaces, which are constructors of the key type here.
- `asyncio.gather` over pieces and sentences is their sequence; decoding failures of single answers are an argument of the echo results only.
- Stripping render artefacts from answers (`orchestrator/service/model_call.py:122-129`) is part of the answer function, except where the answer is spelled out, in `XmlCall` and `EndToEnd`.
- XML text and its parser: an XLIFF element is any tree that spells the exported tags and characters; attributes other than `id` are not read.
- Floats are reals; marker numbers in the widget are not rounded to doubles; a negative claim limit is not modelled.
- RateLimits.RateLimiter.Ask: requires room for one key, as with none the source fails on an empty table.
- The Redis and PostgreSQL variants, HTTP routes, the WSO2 client, DOM extraction and write-back, proxies' client addresses, retention, prewarming and reporting tools.
