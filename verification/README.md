# OpenAudit: a verified model of the decision pipeline and the rule state machinery

The project models the parts of OpenAudit where a mistake changes a decision or loses a rule:

* **Matching** — the Aho-Corasick automaton and the keyword matcher on top of it, against naive search
  (`AhoSpec`, `Aho`, `Keyword`).
* **Normalisation and positions** — phrase and character simplification, folding, separator and space
  removal, the index maps, pinyin input folding and polyphonic expansion (`Text`, `Variant`, `RealTables`,
  `Normalizer`, `Pinyin`).
* **The audit** — placing, sorting, deduplicating and cutting off hits, and the action and score
  (`Engine`); and the way of a keyword from the automaton to the report (`KeywordAudit`).
* **Two-file commit and pack accounting** — `WritePairAtomic` under arbitrary faults, the bundled pack
  parser, the one-pass counters and the two validators (`PairCommit`, `PackSpec`, `PackEntries`, `Pack`).
* **Rule releases** — staging, publishing, snapshots and rollback, under arbitrary faults
  (`Rules`, `ReleaseSpec`, `Release`).
* **Smaller machines** — the review queue and its event log, the circuit breaker and retry loop, the
  review cache, the line diff, the word list importer (`ReviewCases`, `Review`, `Breaker`, `Cache`,
  `TextDiff`, `Importer`).

`Ordering` specifies Go's stable sort and string order, `Wrappers` holds `Option` and `Result`.

Code that changes state is written as classes and loops; each method is tied to a specification that does
not mention how it works (naive search, a stable sort, a merge of maps, the replay of an event log, a
history of calls), and lemmas prove what the repository promises about that specification.

## What the model assumes

* Text is a sequence of code points. `unicode.ToLower`, `unicode.IsSpace`, letters and digits are
  parameters with the conditions `Text.LikeGo`, `Pinyin.PinyinLikeGo` and `Rules.EnvOK`;
  `Text.AsciiIsLikeGo`, `Pinyin.AsciiPinyinLikeGo` and `Rules.AsciiEnvOK` show that they can be met.
* Regular expression compilation, hashes, JSON, YAML and gzip are parameters: functions of their input.
  Where a collision would matter (generated rule IDs, case IDs) its absence is a stated condition.
* A single rename, remove, atomic write or transaction happens or leaves its target as it was. Which ones
  fail is an arbitrary schedule, so a contract holds for every pattern of failures.
* The order in which Go ranges over a map is arbitrary in the model.

## What the proofs turned up

Each of these is a lemma or a contract below; the code is modelled as it is.

* `WritePairAtomic` compares the two paths as given. Two spellings of one path get through, and the report
  then replaces the pack while success is returned (`PairCommit.CommitPlacesBothIff`).
* Publishing writes `custom/<id>.yml` without a look at where the active rules live. IDs stay unique exactly
  when each active rule that is staged lives at a path that is overwritten
  (`ReleaseSpec.UniqueAfterPublishIff`). Publishing merges by ID exactly when the files that it overwrites are
  those of the rules that it replaces (`ReleaseSpec.PublishMergesIff`).
* The release conflict check cannot fail: the rules it sees have passed validation and are keyed by ID
  (`Release.NoCriticalConflict`).
* A pack is built from a document with an unknown group named "", or for a blank output path, but its report
  is then refused (`Pack.BuildPack`). A pattern over the size limit is recorded as incompatible, but the pack
  with it is never accepted (`Pack.OversizeRefused`).
* The action is taken from the hits that are left, so a blocking hit has no effect if it is cut off behind
  others (`Engine.BlockCutOff`) or loses to a hit of the same key with a higher score
  (`Engine.BlockDeduplicated`). The audit's action is that of all hits exactly when some hit of the highest rank
  comes first with its key, with fewer keys before it than may be reported (`Engine.ActionKeptIff`).
* A pinyin hit's mark as approximate is overwritten when it is mapped back. The mark reported is right exactly
  when the pinyin map skips nothing inside the hit, or the second map does (`Engine.PinyinMarkRightIff`); a
  skipped hyphen makes it wrong (`Engine.PinyinMarkWrong`).
* Hits of two rules can share a deduplication key exactly when one rule ID is the other continued after a NUL
  (`Engine.RulesCollideIff`).
* After a failed reload, a rollback does not remove the files that only its target has
  (`Release.Manager.RollbackRelease`).
* Once a review case has been decided or escalated, evaluating the same content with the same verdict again
  is an error, and the temporary action is not applied (`Review.Evaluate`, `Review.RefusedIffClosed`).
* Open cases are looked up as pending or reviewing, but no action leads to reviewing: a case is open exactly
  if it is pending (`ReviewCases.CaseFacts`).
* Folding pinyin input is idempotent exactly when the input has no full-width digits 1 to 5
  (`Pinyin.PinyinIdempotentIff`).

## Model

| member | source | states |
|---|---|---|
| Ordering.StableSortCorrect | internal/matcher/aho.go:101-109 | the stable sort is ordered, a permutation, and keeps every equivalence class in its old order |
| Ordering.SortDetermined | internal/matcher/aho.go:101-109 | lists whose equivalence classes agree, each in order, sort to the same list |
| Ordering.StrLessIff | internal/matcher/aho.go:101-109 | a string goes before another exactly when, after a common beginning, it ends or has the smaller character |
| AhoSpec.ScanRefinesNaive | internal/matcher/aho.go:80-111 | reporting at each position every pattern that ends there, then sorting, gives the same list as trying every pattern at every position and sorting |
| AhoSpec.NaiveSearchExact | internal/matcher/aho.go:98-100 | the naive search holds each match exactly as often as its pattern was added and occurs there, and nothing else |
| AhoSpec.SortedSearchExact | internal/matcher/aho.go:98-109 | sorted, the search ascends by start, end and rule ID and holds each match exactly as often |
| AhoSpec.FollowIsLongest | internal/matcher/aho.go:69-75 | following failure links until a child exists ends at the longest suffix that is a word of the trie |
| AhoSpec.LongestStep | internal/matcher/aho.go:86-96 | the state after one more character is the longest suffix of the text read that is a word of the trie |
| AhoSpec.SuffixOutsLongest | internal/matcher/aho.go:76 | the patterns that are suffixes of the text are those that are suffixes of that state's word |
| AhoSpec.HopsShorten | internal/matcher/aho.go:87-91 | every failure link followed makes the state shorter, so a step follows no more links than the state loses |
| AhoSpec.ScanIsLinear | internal/matcher/aho.go:84-100 | over a whole text, no more links are followed than characters are read |
| Aho.ZeroMeansAbsent | internal/matcher/aho.go:70-75 | child index 0 can stand for a missing child, since no edge leads to node 0 |
| Aho.Inherit | internal/matcher/aho.go:66-77 | the failure node's outputs are complete when they are copied, because it is shallower |
| Aho.AhoMatcher.constructor | internal/matcher/aho.go:32 | a new matcher is a trie of the empty word with no patterns |
| Aho.AhoMatcher.Add | internal/matcher/aho.go:33-52 | the trie gains the pattern; empty patterns are ignored |
| Aho.AhoMatcher.FailTarget | internal/matcher/aho.go:69-75 | the inner loop ends, at the longest proper suffix that is a word, or the root |
| Aho.AhoMatcher.Link | internal/matcher/aho.go:67-76 | the node's failure link is its longest proper suffix in the trie and its outputs are all added patterns that are suffixes of its word, each once |
| Aho.AhoMatcher.Visit | internal/matcher/aho.go:59-77 | all children of a node are linked and enqueued |
| Aho.AhoMatcher.Build | internal/matcher/aho.go:53-79 | every node but the root is enqueued exactly once, shallower nodes first; every link and output list is complete |
| Aho.AhoMatcher.Advance | internal/matcher/aho.go:87-96 | one step of the scan: the next state is the longest suffix, after as many failure links as the definition on words counts |
| Aho.AhoMatcher.FindAll | internal/matcher/aho.go:80-111 | the matches are those of the naive search: each exactly as often as its pattern was added and occurs there, ascending by start, end and rule ID; the failure links followed are those that the definition on words counts, and no more than the characters read |
| Keyword.KeywordMatcher.constructor | internal/matcher/keyword.go:12-29 | the automaton holds the different non-empty normalised variants of each keyword of each rule, in order |
| Keyword.KeywordMatcher.AddKeyword | internal/matcher/keyword.go:16-23 | the patterns of one keyword, none twice |
| Keyword.KeywordMatcher.MatchText | internal/matcher/keyword.go:30-37 | the matches are those of naive search for the rules' patterns |
| Keyword.KeywordHits | internal/matcher/keyword.go:12-37 | a match is reported if and only if that non-empty stretch of text is a normalised variant of a keyword of the rule |
| Keyword.KeywordFound | internal/matcher/keyword.go:18-23 | a text that normalises to what a keyword normalises to is found, over its whole length |
| KeywordAudit.MatchKeywords | internal/matcher/keyword.go:30-37 | the hits are those of the matches, in order |
| KeywordAudit.FoundExactly | internal/matcher/keyword.go:12-37 | a hit is found if and only if its stretch of the text is a pattern of a keyword and it carries that rule's score and action and that keyword |
| KeywordAudit.KeywordReported | internal/engine/engine.go:136-214 | where a pattern of a keyword stands in the normalised text, the audit reports a hit of that key, with at least the score, at the characters behind it; or it reports as many hits as it may, none of which has to come after this one |
| KeywordAudit.DisguisedKeywordReported | internal/engine/engine.go:136-214 | a text that normalises to what a keyword normalises to is reported from its first to its last kept character, unless the limit is reached |
| KeywordAudit.BlockingKeywordBlocks | internal/engine/engine.go:136-214 | a keyword of a blocking rule blocks the text in which it stands, if hits with one key agree on the action and there are no more keys than may be reported |
| KeywordAudit.ReportedWithKeywords | internal/engine/engine.go:136-214 | with the keyword matcher in place, every reported place lies in the text if the other matchers stay inside theirs |
| Text.FoldIdempotent | internal/normalizer/normalizer.go:59-67 | folding is idempotent and leaves CJK characters alone |
| Text.WidthIsFolded | internal/normalizer/normalizer.go:59-67 | a printable ASCII character and its full-width form fold to the same character, and so do the two spaces |
| Text.TrimIsCore | internal/rules/loader.go:96-107 | trimming takes away spaces at both ends and nothing else |
| Variant.ReplaceAllCuts | internal/variant/variant.go:242-244 | the text can be cut into parts at occurrences of the key, each the first in what is left, and the result is the parts joined by the value |
| Variant.ConvertReplaces | internal/variant/variant.go:236-252 | every phrase is replaced wherever the text is cut at it, one phrase after the other, and then every character is mapped |
| Variant.ConvertPhrases | internal/variant/variant.go:236-252 | the loops over phrases and characters give such a result, and the specified conversion |
| Variant.ConvertLength | internal/variant/variant.go:114-116 | simplification keeps the number of characters |
| Variant.ConvertIdempotent | internal/variant/variant.go:236-252 | simplifying twice is simplifying once, whatever order the phrases of one length come in |
| RealTables.RealTablesOK | internal/variant/variant.go:26-76 | the repository's own tables meet the conditions of the idempotence theorems |
| RealTables.RealOrder | internal/variant/variant.go:241 | the phrases by falling length are an order the conversion may use |
| Normalizer.PreviousCore | internal/normalizer/normalizer.go:73-80 | the nearest character before that is neither a separator nor a space |
| Normalizer.NextCore | internal/normalizer/normalizer.go:81-88 | the nearest such character after |
| Normalizer.IsSeparatorBetweenCJK | internal/normalizer/normalizer.go:68-90 | a separator is dropped if and only if the nearest core characters on both sides are CJK |
| Normalizer.SeparatesIff | internal/normalizer/normalizer.go:68-92 | a separator is dropped if and only if going left and going right over separators and spaces one gets to a CJK character |
| Normalizer.SeparatorIsDropped | internal/normalizer/normalizer.go:25-40 | a hyphen, underscore, asterisk or dot between CJK characters, in any width, does not change the normalised text |
| Normalizer.NormalizeWithMap | internal/normalizer/normalizer.go:18-43 | the loop computes the specified pass, with its index map, over the folded text after every phrase has been replaced and every character mapped |
| Normalizer.RunMapped | internal/normalizer/normalizer.go:22-43 | the index map is strictly increasing, in range and as long as the text, and every character comes from its position, or is a space that stands there |
| Normalizer.RunKeeps | internal/normalizer/normalizer.go:25-40 | every character that is neither space nor dropped separator is kept |
| Normalizer.RunTidy | internal/normalizer/normalizer.go:25-40 | the result has no dropped separators and only single inner spaces, none between two CJK characters |
| Normalizer.NormalizeIdempotent | internal/normalizer/normalizer.go:17-43 | normalising twice is normalising once, for every text, and the second pass maps every position to itself, as the domain matcher needs |
| Normalizer.NormalizeOfSimplified | internal/normalizer/normalizer.go:18-21 | normalising a simplified text gives what normalising the text gives |
| Normalizer.ResultHasGoodMap | internal/normalizer/normalizer.go:18-43 | every normalisation result has an increasing, in-range index map of the text's length |
| Normalizer.MapRangeCorrect | internal/normalizer/normalizer.go:44-58 | a range inside the normalised text maps to the range of the original from its first to its last character, which covers the others and is called exact if and only if they are contiguous |
| Normalizer.MapRangeOutside | internal/normalizer/normalizer.go:44-58 | a range that ends behind the text is cut off there, one that starts there is empty and at the end, and one that is none stays as it is |
| Pinyin.NormalizePinyinWithMap | internal/variant/variant.go:130-145 | the loop computes the specified folding |
| Pinyin.PinyinRunMapped | internal/variant/variant.go:130-145 | the index map lists exactly the positions that are kept, in order, and the text is what stands there, folded |
| Pinyin.SeparatorsDoNotMatter | internal/variant/variant.go:130-145 | spaces, hyphens, quotes, tone digits and zero-width characters can be put anywhere without changing the folded text |
| Pinyin.TonesStripped | internal/variant/variant.go:295-319 | exactly the vowels with tone marks lose them, in both cases, and u with two dots becomes v |
| Pinyin.PinyinIdempotentIff | internal/variant/variant.go:126-145 | folding twice is folding once if and only if there are no full-width digits 1 to 5 |
| Pinyin.ExtendBounded | internal/variant/variant.go:169-188 | the bounded inner loops give the first max extensions |
| Pinyin.ExpandForms | internal/variant/variant.go:157-196 | the forms are the first max of the lexicographic product of the readings, sorted; none for a CJK character without readings |
| Pinyin.FormsSorted | internal/variant/variant.go:189-196 | the forms are all kept, in the order of their texts |
| Pinyin.PinyinForms | internal/variant/variant.go:147-196 | a phrase entry, of the text or of its simplified form, comes first |
| Pinyin.ProductIsAllChoices | internal/variant/variant.go:157-189 | the product holds exactly the choices of one reading for each character |
| Pinyin.ExtendAt | internal/variant/variant.go:169-188 | in lexicographic order: all readings after the first form, then all after the next |
| Pinyin.JoinAppend | internal/variant/variant.go:189-196 | the text of a form is its readings one after the other |
| Pinyin.PolyphonicIff | internal/variant/variant.go:165-189 | a form is polyphonic if and only if some character has several readings |
| Pinyin.ExpansionIsBounded | internal/variant/variant.go:147-196 | the expansion never exceeds the limit and is complete whenever the product fits |
| Engine.KeyInjective | internal/engine/engine.go:238 | without NUL in types and rule IDs, the key identifies type, rule, match and place |
| Engine.RulesCollideIff | internal/engine/engine.go:238 | two different rules can have hits of one type and place with the same key if and only if one ID is the other's, continued after NUL |
| Engine.CollisionWithoutPositions | internal/engine/engine.go:179-183 | such hits in one text do get the same key when positions are not reported |
| Engine.SortSlice | internal/engine/engine.go:216-234 | the array is sorted stably by the six-level order |
| Engine.SortDedupInPlace | internal/engine/engine.go:215-245 | compacting in the array that is being read keeps the first hit with each key |
| Engine.SortDedupCorrect | internal/engine/engine.go:215-245 | the result is sorted, has no key twice, and holds for every hit one with its key and place and at least its score |
| Engine.DedupKeepsMaxScore | internal/engine/engine.go:215-245 | deduplication keeps the highest score |
| Engine.Summarize | internal/engine/engine.go:198-212 | the action is block if any hit blocks, else review if any asks for it, else pass; the score is the highest |
| Engine.ActionSnoc | internal/risk/score.go:16-22 | one step of the fold is HigherAction |
| Engine.SummaryOfMembers | internal/engine/engine.go:198-212 | action and score do not depend on order or repetition |
| Engine.ReportedIff | internal/engine/engine.go:185-193 | a hit is reported if and only if it is, in the sorted list, the first with its key and has fewer keys before it than the limit |
| Engine.ReportedOrCutOff | internal/engine/engine.go:185-193 | every hit is represented among those reported, or as many as may be are reported and none of them has to come after it |
| Engine.ActionKeptIff | internal/engine/engine.go:185-212 | the action of the hits reported is that of all hits if and only if some hit of the highest rank is the first with its key and has fewer keys before it than the limit |
| Engine.AgreeingKeysKeepAction | internal/engine/engine.go:185-212 | deduplication keeps the action if hits with one key agree on it |
| Engine.BlockCutOff | internal/engine/engine.go:136-214 | with a limit of one, the audit of a text with a review hit ahead of a blocking hit ends in review |
| Engine.BlockDeduplicated | internal/engine/engine.go:136-245 | two rules with one ID and keyword, one for review with the higher score and one that blocks: the audit ends in review |
| Engine.PlacedWithin | internal/engine/engine.go:166-170 | a hit in the normalised text is reported at a non-empty place of the original that covers it, and exact if and only if contiguous |
| Engine.PlaceKeeps | internal/engine/engine.go:166-184 | placing changes nothing but the place, the mark, and the notes if they are not asked for |
| Engine.PinyinPlacedWithin | internal/engine/engine.go:155-165 | a hit in the pinyin text is placed in the normalised text |
| Engine.ContiguousThroughBoth | internal/engine/engine.go:155-170 | the characters behind a pinyin hit are contiguous if and only if both maps keep them so |
| Engine.PinyinMarkRightIff | internal/engine/engine.go:161-170 | the mark reported for a pinyin hit is right if and only if the pinyin map skips nothing inside it, or the second map does |
| Engine.PinyinMarkWrong | internal/engine/engine.go:161-170 | a hit on "ab" in "a-b" covers the hyphen and is reported as exact |
| Engine.NormalizeInput | internal/engine/engine.go:144-150 | with normalisation off, every position maps to itself |
| Engine.Match | internal/engine/engine.go:151-165 | all matchers' hits, the pinyin ones placed in the normalised text |
| Engine.AllHitsFrom | internal/engine/engine.go:138-165 | all hits are exactly the placed hits of the keyword, regex and domain matchers, and of the homophone and pinyin matchers if they are asked |
| Engine.ReportedIsHeard | internal/engine/engine.go:136-193 | every hit of a matcher that is asked is represented in the report or cut off by the limit, which is 100 if none is given; nothing else is reported; places ascend |
| Engine.AuditWithOptions | internal/engine/engine.go:136-214 | every hit of every matcher that is asked is represented at its place or cut off by the limit, and nothing else is reported; the report is sorted, deduplicated and cut off; score and counts are those of the hits reported, and so is the action, with the exact condition for it to be that of all hits |
| Engine.ReportedHits | internal/engine/engine.go:136-214 | at most the limit, sorted, no key twice, and every place inside the original text if the matchers stay inside theirs |
| PairCommit.StageBoth | internal/bundled/convert.go:932-960 | both contents are staged and have been read back, or nothing but staged files has changed |
| PairCommit.Rollback | internal/bundled/convert.go:966-1004 | the targets are as they were, unless a failure is reported, and at every step the originals can be recovered |
| PairCommit.BackUp | internal/bundled/convert.go:1005-1026 | the originals are at their backups, or everything is as it was |
| PairCommit.Install | internal/bundled/convert.go:1027-1041 | both new files are in place, or everything is as it was; a rollback fails only after a second failure |
| PairCommit.CleanUp | internal/bundled/convert.go:1042-1065 | the backups are removed, or the error says that the commit succeeded |
| PairCommit.Replace | internal/bundled/convert.go:1005-1065 | from staged files to the end: committed, or rolled back, with nothing lost after any operation |
| PairCommit.WritePairAtomic | internal/bundled/convert.go:913-1066 | for every schedule of failures: both targets new, or both as they were, or a reported rollback failure, which takes two failing operations; after every operation nothing is lost; a success has read both staged files back before anything moved, and has synced the directory right after every move; without failures it succeeds |
| PairCommit.CommitPlacesBothIff | internal/bundled/convert.go:914-927 | a success has both new contents in place if and only if the paths resolve to different files |
| PackSpec.SeenName | internal/bundled/convert.go:221-230 | the two lookups of the parser find a key if and only if its name has been there |
| PackSpec.EntriesAccounted | internal/bundled/convert.go:204-297 | every entry is a record or counted in an unknown group |
| PackSpec.KnownRecordsDistinct | internal/bundled/convert.go:246-296 | no two records have the same group and ID |
| PackEntries.BodyIs | internal/bundled/convert.go:280-291 | an entry is a pattern if it is a string with a character that is no space, empty if it is another string or null, and malformed otherwise, with the word for its type |
| PackEntries.RecordIff | internal/bundled/convert.go:246-297 | the records are those of the entries of the five groups, and no others |
| PackEntries.KnownRecordsHaveFates | internal/bundled/convert.go:246-297 | there are as many records of a kind as entries of that kind in the document |
| PackEntries.RuleForIs | internal/bundled/convert.go:88-121 | a pattern's rule has its group, ID and exact text; it blocks and is enabled exactly for shield and intercept, and is compatible exactly if it compiles |
| PackEntries.CountsAre | internal/bundled/convert.go:748-781 | the counters are the sizes of what they count: rules by group, by status, compatible, disabled, repeated |
| PackEntries.HeaderIff | internal/bundled/convert.go:364-391 | the headers that are accepted |
| PackEntries.RuleIff | internal/bundled/convert.go:404-469 | the rules that are accepted |
| PackEntries.ProvenanceIff | internal/bundled/convert.go:488-530 | report and pack agree in provider, dataset, repository, commit, path and input hash |
| Pack.ParseGroup | internal/bundled/convert.go:246-297 | a group is accepted if and only if its IDs are distinct and not empty and the limit is kept; each entry becomes its record: a pattern for a string that is not blank, empty for null and blank strings, malformed with its type for the rest |
| Pack.CountObjectRecords | internal/bundled/convert.go:298-338 | an unknown group is counted if and only if its IDs are distinct and not empty |
| Pack.ParseRegex | internal/bundled/convert.go:204-245 | the groups are accepted if and only if their names are distinct, each is well-formed, and the limit is kept |
| Pack.Parse | internal/bundled/convert.go:148-203 | a document is accepted if and only if no top-level key repeats and its one regex object is accepted |
| Pack.IdentInjective | internal/bundled/convert.go:90-94 | identities differ for different records |
| Pack.StableKeyInjective | internal/bundled/convert.go:727-731 | what is hashed into a rule ID differs for different records |
| Pack.BuildRules | internal/bundled/convert.go:64-122 | the one-pass counters equal the counts of the records and rules, and the duplicate identity counter stays 0 |
| Pack.BuildRule | internal/bundled/convert.go:88-121 | one pattern: its rule, failure and counters |
| Pack.Aggregates | internal/bundled/convert.go:748-781 | the counts by group and by status |
| Pack.RecountRules | internal/bundled/convert.go:397-469 | the second count equals the same counts: duplicates are rules less different patterns |
| Pack.ValidatePack | internal/bundled/convert.go:360-486 | accepted if and only if header and rules are valid, IDs distinct, and every count and aggregate follows from the rules |
| Pack.CheckFailures | internal/bundled/convert.go:531-559 | accepted if and only if each incompatible rule has its failure, no other rule has one, and there are no more |
| Pack.ValidateReportForPack | internal/bundled/convert.go:488-566 | accepted if and only if provenance, counts, unknown groups, malformed details, failures and paths all agree with the pack |
| Pack.FailuresConsistent | internal/bundled/convert.go:111-117 | the failures collected while building pass that check |
| Pack.BuiltPackOK | internal/bundled/convert.go:123-128 | validating what was built can only fail for the header, a size, or an ID collision |
| Pack.BuiltEntries | internal/bundled/convert.go:64-128 | imported, empty and malformed count the entries that are strings with text, blank or null, and neither; every such string has a rule with its group, ID and exact text, and every rule comes from one |
| Pack.BuiltReportEntries | internal/bundled/convert.go:96-146 | every malformed entry, every rule that does not compile and every unknown group with its size is in the report, and nothing else is |
| Pack.BuildPack | internal/bundled/convert.go:35-146 | succeeds if and only if the input meets a stated condition; the pack then counts every entry of the document as what it is and has a rule for every pattern and no others, the report names every other entry, and it is accepted if and only if no unknown group is nameless and no path is blank |
| Pack.OversizeRefused | internal/bundled/convert.go:102-128 | a pattern over the limit is marked incompatible and the pack refused |
| Rules.CleanList | internal/rules/loader.go:96-107 | the loop gives the trimmed non-empty values, each once, at its first place |
| Rules.CleanIdempotent | internal/rules/loader.go:96-111 | cleaning again changes nothing |
| Rules.RuleRef.NormalizeAndValidate | internal/rules/loader.go:69-141 | overwriting the fields in order computes the specified normal form or its error |
| Rules.NormalizeIdempotent | internal/rules/loader.go:69-141 | a normalised rule is valid and normalises to itself |
| Rules.NormalizeIs | internal/rules/loader.go:69-141 | names lower-cased and trimmed, review, medium and local where nothing is given, scores 90, 60 and 30 by risk, a known type and a value for it |
| Rules.NormalVariantIs | internal/rules/loader.go:143-190 | variant settings in range, with 8 and 16 as limits where matching is on and none is given |
| Rules.RefusedIs | internal/rules/loader.go:75-83 | a missing ID, type or category is refused, in this order |
| Rules.AcceptedIff | internal/rules/loader.go:69-190 | the rules that are accepted: ID and category, variant settings in range, and a value for the type that is right for it |
| Rules.NormalizeIgnoresState | internal/rules/loader.go:69-141 | state and path are carried along unchanged |
| ReleaseSpec.CustomPathInverse | internal/rulerelease/manager.go:156-166 | the ID can be read off custom/<id>.yml |
| ReleaseSpec.ValidRuleIDIff | internal/rulerelease/manager.go:125-133 | a valid ID is not empty and has no slash, backslash, NUL or double dot, so that its file lies directly in custom |
| ReleaseSpec.WriteStaged | internal/rulerelease/manager.go:618-639 | writing staged rules overrides exactly their own paths |
| ReleaseSpec.OverlayIsGood | internal/rulerelease/manager.go:618-639 | writing all or some of the staged rules keeps IDs unique, if what is staged or overwritten is at custom/<id>.yml |
| ReleaseSpec.OverlayMerges | internal/rulerelease/manager.go:401-426 | if the files overwritten are those of the rules replaced, the rules after publishing are, by ID, the old ones overridden by the staged ones |
| ReleaseSpec.UniqueAfterPublishIff | internal/rulerelease/manager.go:618-639 | rule IDs stay unique if and only if every active rule that is staged lives at a path that is overwritten |
| ReleaseSpec.PublishMergesIff | internal/rulerelease/manager.go:618-639 | IDs stay unique and the rules are merged by ID if and only if the files overwritten are those of the rules replaced |
| ReleaseSpec.CoveredIsGood | internal/rulerelease/manager.go:618-639 | a publish that merges leaves a tree of readable rules with unique IDs |
| ReleaseSpec.SnapshotIsPublishedTree | internal/rulerelease/manager.go:730-758 | the snapshot of a publish is the published tree, file by file, as it would be written again |
| ReleaseSpec.FlattenedSameRules | internal/rulerelease/manager.go:753-758 | the snapshot of a rollback has other paths but the same rules |
| ReleaseSpec.RestoreUndoesWrites | internal/rulerelease/manager.go:673-681 | restoring the backups undoes the writes exactly |
| Release.ReleaseItems | internal/rulerelease/manager.go:683-696 | one item for each staged rule, an update if the ID is active and else an addition, with the contents before and after, sorted by ID |
| Release.DiffReleaseItems | internal/rulerelease/manager.go:905-928 | one item for each rule before or after, removed, added, changed or unchanged, with both contents, sorted by ID |
| Release.CountOps | internal/rulerelease/manager.go:698-706 | the number of items with an operation |
| Release.OpCountIs | internal/rulerelease/manager.go:698-706 | the number of items with an operation is the number of IDs to which that happens |
| Release.PublishOps | internal/rulerelease/manager.go:683-696 | a publish adds the staged IDs that are not active, updates those that are, and removes none |
| Release.RollbackOps | internal/rulerelease/manager.go:905-928 | a rollback adds the IDs only after, removes the IDs only before, updates those whose content differs, and leaves the rest |
| Release.DetectCriticalConflict | internal/rulerelease/manager.go:428-484 | a critical conflict is a pattern that does not compile or a repeated ID |
| Release.NoCriticalConflict | internal/rulerelease/manager.go:428-484 | the future rules never have one |
| Release.FutureRules | internal/rulerelease/manager.go:401-426 | the active rules overridden by the staged ones, each ID once, all normalised |
| Release.ReadTree | internal/rulerelease/manager.go:291-325 | the rules of a tree by ID, unless a file cannot be read |
| Release.Manager.constructor | internal/rulerelease/manager.go:117-119 | the initial state |
| Release.Manager.Stage | internal/rulerelease/manager.go:183-238 | only a valid rule is staged, under its ID |
| Release.Manager.NextVersion | internal/rulerelease/manager.go:708-728 | higher than every snapshot |
| Release.Manager.WriteSnapshot | internal/rulerelease/manager.go:730-751 | the version's directory holds the rules given; a failure touches no other version |
| Release.Manager.Prepublish | internal/rulerelease/manager.go:554-595 | publishing is refused only when nothing is staged |
| Release.Manager.WriteStagedRules | internal/rulerelease/manager.go:618-639 | every path written has been backed up with its old content |
| Release.Manager.RestoreBackups | internal/rulerelease/manager.go:673-681 | without errors, the old contents are back |
| Release.Manager.Activate | internal/rulerelease/manager.go:618-646 | if a write or the reload fails and nothing else does, the tree is exactly as it was |
| Release.Manager.Publish | internal/rulerelease/manager.go:597-663 | without faults it completes and nothing is left staged; snapshots only grow, upwards; unless it completes the staged rules stay, and if a write or the reload is all that fails the tree is as it was; completed over rules that it covers, it merges by ID, its snapshot is the tree, and the counts balance |
| Release.Manager.PublishPrepared | internal/rulerelease/manager.go:618-663 | the same from the written snapshot on |
| Release.Manager.RemoveOthers | internal/rulerelease/manager.go:852-858 | the active files the target lacks are removed |
| Release.Manager.WriteFiles | internal/rulerelease/manager.go:859-867 | the target's files are written as they are |
| Release.Manager.ReadSnapshot | internal/rulerelease/manager.go:930-963 | the snapshot's rules, without their paths |
| Release.Manager.ReplaceTree | internal/rulerelease/manager.go:848-876 | from a tree with unique IDs, a completed replacement leaves exactly the target; if only the reload fails, the old files lie on top of the target |
| Release.Manager.CutRelease | internal/rulerelease/manager.go:877-903 | the snapshot cut by a rollback holds the same rules by ID |
| Release.Manager.RollbackRelease | internal/rulerelease/manager.go:825-903 | without faults it completes; once files and reload are done, the active rules are those right after the release, whether the new snapshot can be written or not; the counts balance; snapshots only grow, upwards; if only the reload fails, the old tree is back if and only if the target has no other files |
| Release.Manager.RollbackRead | internal/rulerelease/manager.go:848-903 | the same once everything has been read |
| Release.Manager.ReadFuture | internal/rulerelease/manager.go:597-609 | what is published, or why nothing is |
| Release.Manager.PublishRecord | internal/rulerelease/manager.go:608-616 | the next version, with the counts of the publish |
| Release.Manager.FinishPublish | internal/rulerelease/manager.go:647-663 | the staged files go, and the release joins the ledger |
| Release.Manager.WriteBack | internal/rulerelease/manager.go:869-873 | without errors, the old files are back on top of what is there |
| Release.Step | internal/rulerelease/manager.go:597-903 | every operation keeps the invariant and enters its action, outcome, and the states before and after in the history; one that is orderly by that entry keeps the tree good |
| Release.Run | internal/rulerelease/manager.go:597-903 | a run of stagings, publishes and rollbacks, whatever fails: its entries chain from the first state to the last, and keep the tree good if all are orderly |
| Release.RunThenRollback | internal/rulerelease/manager.go:597-903 | after any run whose entries are orderly, a rollback to an earlier release finds everything readable, completes without faults, and once files and reload are done has restored the rules of that release |
| Release.LastRollback | internal/rulerelease/manager.go:825-903 | from a good tree, a rollback to a completed release restores its rules |
| Release.ReplacedExactly | internal/rulerelease/manager.go:852-867 | removing and writing leave exactly the target's files |
| Release.RestoredIsGood | internal/rulerelease/manager.go:673-681 | even a restore with errors leaves a tree that keeps the discipline |
| ReviewCases.ReplayOfChain | internal/storage/sqlite/review.go:240-295 | a log ends in the case's status, and the decision time is set if and only if that status is approved, rejected or ignored |
| ReviewCases.StatusByLastChange | internal/storage/sqlite/review.go:240-295 | status, reviewer and decision time are those of the last event that is not a note: approve leads to approved, reject to rejected, ignore to ignored, escalate to escalated, creation and reopen to pending |
| ReviewCases.NoteIsHistory | internal/storage/sqlite/review.go:255-268 | a case's note is all notes of its events that are not blank, one below the other |
| ReviewCases.CaseFacts | internal/storage/sqlite/review.go:240-276 | each case's log is a chain, and its status, reviewer, decision time and note follow from it; a case is open exactly if it is pending |
| ReviewCases.OneCasePerContext | internal/review/review.go:125-132 | there is one case for each context hash |
| ReviewCases.CreateKeeps | internal/storage/sqlite/review.go:56-73 | inserting a case with its event keeps the tables consistent |
| ReviewCases.DecideKeeps | internal/storage/sqlite/review.go:240-276 | one decision keeps every case equal to the replay of its log |
| ReviewCases.DecideTx | internal/storage/sqlite/review.go:240-276 | succeeds if and only if the case exists and the action is valid; one row changes, to the status of the action, and one event is appended |
| ReviewCases.BulkTx | internal/storage/sqlite/review.go:214-238 | succeeds if and only if the cases are distinct and exist and the action is valid; each gets the status of the action |
| ReviewCases.Store.FindOpen | internal/storage/sqlite/review.go:76-86 | the newest open case with the hash |
| ReviewCases.Store.Create | internal/storage/sqlite/review.go:36-74 | the open case of the context if there is one, else a new one, else an error if the case ID exists; without faults, nothing else is an error |
| ReviewCases.Store.Decide | internal/storage/sqlite/review.go:201-212 | one decision in one transaction: the case has the status of the action and the actor as reviewer |
| ReviewCases.Store.BulkDecide | internal/storage/sqlite/review.go:214-238 | each listed case is decided once, to the status of the action, and everything else is untouched, or nothing changes |
| Review.MaxVariantScore | internal/review/review.go:211-219 | the highest score of a variant hit |
| Review.MoreEvidenceStillReviewed | internal/review/review.go:158-190 | more hits, or a higher AI confidence, never take a result out of review unless it blocks |
| Review.NoEvidenceNoReview | internal/review/review.go:158-190 | without an AI verdict and without variant hits, no result goes to review |
| Review.ReasonIs | internal/review/review.go:158-190 | each reason says what was found, and a variant is the reason only if the AI does not call for a review |
| Review.QueuedIff | internal/review/review.go:65-90 | a result is queued if the policy is on, it does not block, the AI or a variant calls for a review, and it is not just logged |
| Review.CandidateIs | internal/review/review.go:111-209 | a new case blocks for the time being exactly if the policy says so and the AI's confidence reaches its threshold; its priority is that of the highest of confidence, variant and risk |
| Review.RefusedIffClosed | internal/storage/migrations/migrations.go:53 | a candidate's ID is taken without an open case exactly when its context's case is closed |
| Review.Evaluate | internal/review/review.go:65-109 | a block is left alone; a queued result gets the open case of its context or a new one with its creation event; it then blocks if the case says so, passes if the case lets it pass, and else keeps its action; it is an error if and only if that case is closed |
| Breaker.CircuitBreaker.constructor | internal/ai/review.go:464-469 | the default threshold is 5 |
| Breaker.CircuitBreaker.Allow | internal/ai/review.go:471-481 | refuses if and only if the threshold has been reached since the last success and the cooldown after the last failure is not over |
| Breaker.CircuitBreaker.RecordSuccess | internal/ai/review.go:483-489 | extends the history by a success |
| Breaker.CircuitBreaker.RecordFailure | internal/ai/review.go:491-503 | extends the history by a failure |
| Breaker.SuccessCloses | internal/ai/review.go:483-489 | one success closes the breaker |
| Breaker.TrialReopens | internal/ai/review.go:491-503 | one failed trial opens it for one more cooldown |
| Breaker.CallWithRetry | internal/ai/review.go:259-282 | transient errors are retried up to the limit, anything else is returned at once; the waits double |
| Breaker.WaitsClosedForm | internal/ai/review.go:276-279 | n waits add up to 2^n - 1 times the first |
| Cache.RemovalUnnoticed | internal/ai/review.go:428-443 | with a clock that never runs backwards, removing expired entries on a look changes no later answer |
| Cache.MemoryCache.Get | internal/ai/review.go:428-443 | the last value set for the key, unless it has expired |
| Cache.MemoryCache.Set | internal/ai/review.go:445-453 | extends the history by an entry |
| TextDiff.SplitJoins | internal/rulehistory/diff.go:46-53 | the lines joined are the text, and none contains a newline |
| TextDiff.SplitIs | internal/rulehistory/diff.go:46-53 | with CRLF replaced, the text is its lines joined by newlines, and newlines at its end |
| TextDiff.CountLines | internal/rulehistory/diff.go:8-15 | how often each line occurs |
| TextDiff.Remaining | internal/rulehistory/diff.go:17-23 | how many of each line are left over |
| TextDiff.Pick | internal/rulehistory/diff.go:24-29 | the lines left over, in order |
| TextDiff.TextDiff | internal/rulehistory/diff.go:5-45 | for the lines of both texts, added and removed are the surplus of either side, marked + and -, in order; before less removed plus added is after |
| TextDiff.DiffIsExact | internal/rulehistory/diff.go:5-45 | before less removed plus added is after, as multisets; no line on both sides; both in order; empty if and only if one is a rearrangement of the other |
| Importer.BatchKeyInjective | internal/importer/sensitivelexicon.go:345-347 | the batch key identifies category, type and line |
| Importer.LineFate | internal/importer/sensitivelexicon.go:305-344 | a line is skipped if it is blank or starts with #, ; or //, and invalid if it has NUL, is too long, or does not hold what its type asks for |
| Importer.AcceptedIff | internal/importer/sensitivelexicon.go:297-374 | the accepted values are those of the lines that hold one, under category and type |
| Importer.CountAllIs | internal/importer/sensitivelexicon.go:297-344 | the counts of skipped, invalid and uncompilable lines are the numbers of such lines |
| Importer.ImportValue | internal/importer/sensitivelexicon.go:345-373 | a value of the batch, or of the file, that has been seen is counted as a duplicate, and any other is added to its group and counted |
| Importer.ImportFile | internal/importer/sensitivelexicon.go:297-374 | the counts of blank, invalid and uncompilable lines and of values by type grow by exactly those of the file; a strict import stops if and only if there is an invalid line |
| Importer.ReportMore | internal/importer/sensitivelexicon.go:366-384 | file by file, the report's numbers stay those of the files |
| Importer.GroupExported | internal/importer/sensitivelexicon.go:363-404 | a group's files hold its accepted values and nothing else |
| Importer.CutGroup | internal/importer/sensitivelexicon.go:399-428 | the files of a group are non-empty, within the limit, numbered from 1, as few as possible, and together the group |
| Importer.WriteGroups | internal/importer/sensitivelexicon.go:390-432 | each group is sorted and cut, in the order of the keys |
| Importer.RunValidated | internal/importer/sensitivelexicon.go:261-442 | the report has the numbers of the files, and lines read are skipped, invalid, duplicate or counted by type; the value of every line that holds one is in the files of its category and type, and nothing else is in any file, sorted, and none twice under batch deduplication; a strict import fails if and only if there is an invalid line |

## Left out

- UTF-8: strings are code points; invalid encodings, byte offsets and byte limits on excerpts are not modelled.
- Pinyin.PinyinForms: the Initials field, which takes the first byte of each reading, is not modelled; the other fields are.
- Pinyin.ExpandForms: the readings table is a parameter; its entries are not transcribed.
- Variant.ConvertPhrases: Go ranges over the phrase map in any order; the result is proved length-preserving and idempotent for every order of equally long phrases, not equal for all of them.
- Traditionalize, HomophoneVariants and the traditional tables: TraditionalSimplifiedVariants is a parameter of the keyword matcher.
- Regex, domain, homophone and pinyin matchers: functions from a text to hits, assumed to report places inside that text; zero-width regex hits, and domain places with normalisation off, are outside that assumption.
- Aho.AhoMatcher.Build: a second call is excluded, as the code makes it only once; so is a nil matcher.
- Engine.AuditWithOptions: the lock, Reload, Stats and the clearing of tags and provenance (one field stands for them).
- PairCommit.WritePairAtomic: resolving and creating the directory is a parameter; the staged file's name is fresh; a directory sync changes no content.
- Pack.Parse: JSON syntax errors, trailing data and error messages; a document is given as its keys and values.
- Pack.BuildPack: sorting the records is an arbitrary permutation, because idLess is not transitive on mixed IDs; encoding cannot fail; SOURCE_DATE_EPOCH is a parameter.
- HeaderOK's path and timestamp checks are parameters.
- Release.Manager.Stage: drafts are not modelled; a rule goes from its author to the staged state in one step.
- Release.Manager.Publish: validating and reading again between Prepublish and the merge is one read, since nothing else runs in between; warnings that do not block, simulation and lifecycle rows are left out.
- Release.Manager.RollbackRelease: a failure in the middle is not undone, as in the code; nothing is claimed of the tree then, except that the invariant holds. Any snapshot directory can be rolled back to, also that of a publish that failed later; the theorem about rules is for completed releases.
- Release: symbolic links, path cleaning, non-rule files, bulk enabling and rollback of import batches.
- ReviewCases: SQL, queries, pages and statistics; the clock is a parameter.
- Review.Evaluate: excerpts, expiry, error texts and the JSON columns; the policy's lock; a context hash is a parameter that depends on text, action, hits and AI review.
- Breaker.CallWithRetry: overflow of the backoff's shift, and the context's own deadline.
- The rate limiter, cost estimates, clone helpers and configuration defaults: easy members only.
- Importer.RunValidated: inferring categories and types, file names and sanitising of names are parameters or left out; so are write errors and the reload call.
- HTTP handlers, AI provider clients, prompts, the admin interface and the command line.
