# Hifz tracker core, modelled in Dafny

A Quran memorisation tracker checks a recitation against the text, then keeps several records. It logs recitation errors per ayah and tracks how well each ayah is mastered. It also keeps the daily progress through a memorisation plan and chooses which days to review. This project models the tracker's core logic in Dafny and proves properties of it. It also models the script that turns the markdown plan into the plan data.

Each source file becomes one module:

| module | file | content |
|---|---|---|
| `ArabicText` | `arabic_text.dfy` | Arabic normalisation, tokenising on whitespace and the word equality that tolerates missing interior alefs (`src/lib/arabic-utils.ts`) |
| `FuzzyCompare` | `fuzzy_compare.dfy` | the LCS table and its reconstruction, the greedy trace, the pairing into substitutions, deletions and additions, and the score (`src/lib/arabic-utils.ts`) |
| `ErrorTracker` | `error_tracker.dfy` | the error log as a class field, per-ayah summaries, weak ayahs and words, and the four-colour word and ayah statuses (`src/lib/error-tracker.ts`) |
| `Mastery` | `mastery.dfy` | the new, practicing and mastered levels, review intervals, syncing from the error log, drills, due and weakest ayahs, and statistics (`src/lib/mastery-engine.ts`) |
| `WordHide` | `word_hide.dfy` | which words the fill-in test hides (`src/lib/word-hide.ts`) |
| `DayProgress` | `progress.dfy` | the updates that mark a day memorized, tested or complete (`src/hooks/useProgress.ts`) |
| `ProgressCalculator` | `progress_calculator.dfy` | completed count, juz percentage, streak and recent completions (`src/lib/progress-calculator.ts`) |
| `ProgressTypes` | `progress_types.dfy` | the progress records (`src/types/progress.ts`) |
| `ReviewEngine`, `PlanUtils` | `review_engine.dfy`, `plan_utils.dfy` | near, far and weekly review, and the plan-range helpers |
| `JuzBoundaries` | `juz_boundaries.dfy` | the table of the thirty juz and the lookup of the juz that holds an ayah |
| `Certificates`, `Sessions` | `certificates.dfy`, `sessions.dfy` | the stored certificate and session lists |
| `JuzProgressGrid` | `juz_status.dfy` | the per-juz status shown on the dashboard |
| `AudioPlayer` | `audio_player.dfy` | conversion of an absolute ayah number to its six-digit reference, and the playlist and repeat transitions |
| `PlanParser` | `plan_parser.dfy` | the line-by-line parser of the plan table and the quoting of near-review text in the generated file (`scripts/parse-plan.js`) |
| `Common` | `common.dfy` | shared helpers: `Option`, `Math.round`, `slice`, `filter`, a stable sort, decimal text |

Modelling choices:
- The browser's local storage becomes a class field that the methods update. This covers the error log, the mastery records, the progress record and the certificate list. Each such class method is proved against a function that the lemmas reason about.
- Loops in the source become methods with loop invariants. Each method is proved to return what its reference function returns.
- "Now" and "today" become day-number parameters. ISO timestamps stay strings and are compared lexicographically, as JavaScript's `<` and `sort()` do.
- The plan and the surah table are parameters.
- `Math.random` in the word-hide test becomes a nondeterministic choice (`:|`).
- `Math.round(x / y)` for `y > 0` is `RoundDiv`, the floor of `(2x + y) / 2y`.
- JavaScript object and `Map` iteration order is modelled where it affects a result: insertion order for the summaries before their stable sort, and ascending keys where the source sorts.
- Text is `seq<char>`. Every character class the source uses lies in the Basic Multilingual Plane, so the model reads text the way JavaScript does. The exception is the three emoji the plan parser looks for (📗 in a juz header, 🕌 for a Friday review and 📋 for a monthly review), which are one character each here.

Where the product description and the code disagree, the model follows the code:
- `wordsMatch` removes interior alefs only. So "قالوا" and "قالو" do not match (`ArabicText.FinalAlefNotTolerated`).
- Far review is a plain round-robin over the completed juz. There is no review log and no priority score.
- The mastery level depends only on the drill attempts and the last drill score, not on the error count.

## Model

| member | source | states |
|---|---|---|
| ArabicText.CleanText | src/lib/arabic-utils.ts:2-4 | the result is the input with every BOM, zero-width and bidi mark removed and every other character kept, in order; text without such marks is unchanged |
| ArabicText.ReplaceSuperscriptAlef | src/lib/arabic-utils.ts:7-9 | same length; each superscript alef becomes a plain alef and every other character stays in place |
| ArabicText.RemoveTashkeel | src/lib/arabic-utils.ts:12-14 | the result is the input with every diacritic and tatweel removed and every other character kept, in order; text without them is unchanged |
| ArabicText.NormalizeAlef | src/lib/arabic-utils.ts:17-24 | same length; the wasla and hamza alefs become alef, alef maqsura and ya with hamza become ya, ta marbuta becomes ha, waw with hamza becomes waw, and every other character stays in place |
| ArabicText.Trim | src/lib/arabic-utils.ts:28 | the result is a slice of the input with only whitespace cut from both ends, and neither end of a non-empty result is whitespace |
| ArabicText.NormalizeArabicIsNormalized | src/lib/arabic-utils.ts:27-29 | normalizeArabic output has no invisible mark, superscript alef, diacritic, tatweel or letter variant, and no whitespace at either end |
| ArabicText.NormalizeFixesNormalized | src/lib/arabic-utils.ts:27-29 | normalizeArabic leaves already normalised text unchanged |
| ArabicText.NormalizeArabicIdempotent | src/lib/arabic-utils.ts:27-29 | applying normalizeArabic twice equals applying it once |
| ArabicText.SplitWords | src/lib/arabic-utils.ts:46-48 | every token is non-empty and contains no whitespace |
| ArabicText.SplitJoinRoundTrip | src/lib/arabic-utils.ts:46-48 | splitting words joined by single spaces gives back exactly those words, in order |
| ArabicText.SplitWordsAtSpaces | src/lib/arabic-utils.ts:46-48 | splitting text joined at a non-empty run of whitespace gives the words of each side, in order |
| ArabicText.SplitWordsOfWord | src/lib/arabic-utils.ts:46-48 | a single non-empty word without whitespace splits into itself |
| ArabicText.SplitWordsKeepsAllText | src/lib/arabic-utils.ts:46-48 | the tokens, concatenated, are the input with its whitespace removed: nothing else is lost or reordered |
| ArabicText.RemoveAlefs | src/lib/arabic-utils.ts:35 | the interior rewrite is the input with every alef removed and every other character kept, in order |
| ArabicText.StripInternalAlefs | src/lib/arabic-utils.ts:32-36 | words of at most two characters are unchanged; a longer word becomes its first character, its interior with every alef removed, then its last character |
| ArabicText.StripInternalAlefsIdempotent | src/lib/arabic-utils.ts:32-36 | stripping interior alefs twice equals stripping once |
| ArabicText.WordsMatchIsStripEquality | src/lib/arabic-utils.ts:39-43 | wordsMatch(a, b) holds exactly when the stripped forms are equal |
| ArabicText.WordsMatchIsEquivalence | src/lib/arabic-utils.ts:39-43 | wordsMatch is reflexive, symmetric and transitive |
| ArabicText.InteriorAlefTolerated | src/lib/arabic-utils.ts:32-43 | a word and the same word without an interior alef match |
| ArabicText.FinalAlefNotTolerated | src/lib/arabic-utils.ts:35 | a word-final alef is kept, so a word and the same word without its final alef do not match |
| FuzzyCompare.WordsMatchReflexiveSymmetric | src/lib/arabic-utils.ts:39-43 | the word equality compareTexts uses is reflexive and symmetric, the two facts the trace proofs need |
| FuzzyCompare.Dp | src/lib/arabic-utils.ts:160-170 | a table cell is at most the length of either prefix |
| FuzzyCompare.Reconstruct | src/lib/arabic-utils.ts:172-184 | the backwards walk returns exactly dp[m][n] words |
| FuzzyCompare.DpSteps | src/lib/arabic-utils.ts:162-170 | each cell is at least its upper and left neighbour and at most one more |
| FuzzyCompare.ReconstructAligned | src/lib/arabic-utils.ts:172-184 | the positions the walk takes words from increase on both sides and match pairwise |
| FuzzyCompare.ReconstructWords | src/lib/arabic-utils.ts:176 | each word of the result is the word of `a` at its position |
| FuzzyCompare.DpIsLongest | src/lib/arabic-utils.ts:162-170 | no matching sequence of increasing index pairs is longer than the table entry |
| FuzzyCompare.LcsIsLongestCommon | src/lib/arabic-utils.ts:157-187 | fuzzyLCS has length dp[m][n] <= min(m, n), is a subsequence of `a` matched elementwise in `b`, and no common subsequence is longer |
| FuzzyCompare.FillTable | src/lib/arabic-utils.ts:160-170 | the nested loops fill every cell with the recurrence's value |
| FuzzyCompare.FuzzyLcs | src/lib/arabic-utils.ts:157-187 | the method (table fill and backwards walk with unshift) returns the reference LCS |
| FuzzyCompare.SkipToFinds | src/lib/arabic-utils.ts:73-74 | an inner trace loop stops at the first word from its cursor on that matches, or at the end |
| FuzzyCompare.TraceInvariant | src/lib/arabic-utils.ts:70-81 | after l iterations the marks are increasing, lie before the cursors, come in equal numbers on both sides and number at most l |
| FuzzyCompare.TraceStepKeepsInv | src/lib/arabic-utils.ts:72-81 | one trace iteration keeps that invariant and marks at most one word per side |
| FuzzyCompare.Flags | src/lib/arabic-utils.ts:66-67 | the matched array is true exactly at the marked indices |
| FuzzyCompare.TraceMarksLcs | src/lib/arabic-utils.ts:70-81 | with a reflexive, symmetric equality the trace marks exactly as many words per side as the LCS has |
| FuzzyCompare.LcsPositions | src/lib/arabic-utils.ts:157-187 | the LCS matches words of both inputs at increasing positions, which the greedy trace needs to mark every LCS word |
| FuzzyCompare.UnmatchedFacts | src/lib/arabic-utils.ts:87-97 | the collected deletions (additions) are exactly the unmarked indices, in increasing order, with their raw word or '' past the end |
| FuzzyCompare.CountFlags | src/lib/arabic-utils.ts:66-81 | distinct in-range marks set exactly that many flags |
| FuzzyCompare.Closest | src/lib/arabic-utils.ts:103-112 | a found addition is unused, at distance <= 2, strictly closer than every earlier unused one and no farther than every later one |
| FuzzyCompare.PairOne | src/lib/arabic-utils.ts:101-128 | a deletion becomes a substitution taking an unused addition's word and marking it used, or a deletion with actual '' using nothing |
| FuzzyCompare.PairingShape | src/lib/arabic-utils.ts:100-129 | one error per deletion, in order, keeping its word index and expected word; used indices are valid additions |
| FuzzyCompare.PairingUsesDistinct | src/lib/arabic-utils.ts:100-129 | each substitution uses its own addition: used additions number exactly the substitutions |
| FuzzyCompare.LeftoversAreAdditions | src/lib/arabic-utils.ts:132-141 | every leftover is an addition with expected '' reporting one of the pending input words |
| FuzzyCompare.LeftoversInOrder | src/lib/arabic-utils.ts:132-141 | leftover additions keep input order |
| FuzzyCompare.LeftoversCount | src/lib/arabic-utils.ts:132-141 | every pending addition is either used or left over, never both |
| FuzzyCompare.ErrorListLayout | src/lib/arabic-utils.ts:99-141 | the error list is one substitution-or-deletion per deletion in order, followed only by additions |
| FuzzyCompare.ErrorListPaired | src/lib/arabic-utils.ts:143 | the non-addition errors number exactly the deletions |
| FuzzyCompare.PendingCounts | src/lib/arabic-utils.ts:87-97 | the pending words per side are the words the trace did not mark |
| FuzzyCompare.ReportScore | src/lib/arabic-utils.ts:143-146 | totalWords is the original word count, correctWords the marked words = total minus non-addition errors, and the score is round(100 * correct / total) in [0, 100], 100 for no words |
| FuzzyCompare.CompareScore | src/lib/arabic-utils.ts:143-146 | the same for the whole comparison |
| FuzzyCompare.CorrectWordsIsLcsLength | src/lib/arabic-utils.ts:63-143 | correctWords is the length of the fuzzy LCS, dp[m][n] |
| FuzzyCompare.DeletionsFirst | src/lib/arabic-utils.ts:99-129 | the errors start with one substitution or deletion per unmatched original word, in original order |
| FuzzyCompare.AdditionsLast | src/lib/arabic-utils.ts:131-141 | after those come only additions, in increasing input order |
| FuzzyCompare.AdditionsBalance | src/lib/arabic-utils.ts:99-141 | substitutions plus additions equal the unmatched input words: each is used once or reported once |
| FuzzyCompare.NoOrderErrors | src/lib/arabic-utils.ts:153 | the declared 'order' kind is never produced |
| FuzzyCompare.CompareIdentical | src/lib/arabic-utils.ts:51-147 | comparing a word list with itself gives no errors, every word correct and score 100 |
| FuzzyCompare.CompareEmptyInput | src/lib/arabic-utils.ts:51-147 | an empty recitation gives one deletion per original word, in order, and score 0 |
| FuzzyCompare.CompareExtraWord | src/lib/arabic-utils.ts:51-147 | a correct recitation plus one unmatched word gives exactly one addition and keeps score 100 |
| FuzzyCompare.CompareTextsIdentical | src/lib/arabic-utils.ts:51-147 | compareTexts(T, T) has no errors, score 100 and every word correct |
| FuzzyCompare.CompareTextsEmptyInput | src/lib/arabic-utils.ts:51-147 | compareTexts(T, '') reports each original word as a deletion with its raw form, and score 0 when T has words |
| FuzzyCompare.TraceMatches | src/lib/arabic-utils.ts:66-81 | the trace loop leaves origMatched and inputMatched equal to the flags of the reference trace |
| FuzzyCompare.Mark | src/lib/arabic-utils.ts:76-77 | setting one matched flag adds that index to the marks |
| FuzzyCompare.Advance | src/lib/arabic-utils.ts:73-74 | the inner while loop stops where the reference skip does |
| FuzzyCompare.CollectUnmatched | src/lib/arabic-utils.ts:87-97 | the collection loop returns the reference list of unmatched words |
| FuzzyCompare.ClosestAddition | src/lib/arabic-utils.ts:103-112 | the scan loop returns the reference closest addition |
| FuzzyCompare.PairDeletions | src/lib/arabic-utils.ts:100-129 | the pairing loop returns the reference errors and used set |
| FuzzyCompare.AppendLeftovers | src/lib/arabic-utils.ts:132-141 | the leftover loop appends exactly the reference leftovers |
| FuzzyCompare.CompareWords | src/lib/arabic-utils.ts:62-146 | the imperative comparison on word lists returns the reference result |
| FuzzyCompare.CompareTexts | src/lib/arabic-utils.ts:51-147 | compareTexts(original, input) returns the reference comparison of the normalised and raw word lists |
| ErrorTracker.ErrorLog.constructor | src/lib/error-tracker.ts:6-8 | a fresh log is empty |
| ErrorTracker.ErrorLog.AddErrors | src/lib/error-tracker.ts:10-13 | the stored log becomes the old log followed by the new entries, with no deduplication |
| ErrorTracker.ErrorLog.ClearErrors | src/lib/error-tracker.ts:164-166 | the stored log becomes empty |
| ErrorTracker.LatestIsMax | src/lib/error-tracker.ts:81-82 | the last element of the sorted timestamps is one of them and no timestamp is greater in string order |
| ErrorTracker.LogStep | src/lib/error-tracker.ts:19-35 | appending an entry extends exactly its ayah's timestamps, word timestamps and word set |
| ErrorTracker.Tally | src/lib/error-tracker.ts:19-35 | one loop iteration bumps the ayah's summary (count + 1, latest date, word count + 1) or starts it, keeping the table equal to the reference summaries |
| ErrorTracker.TallyAll | src/lib/error-tracker.ts:17-35 | the loop builds one summary per ayah with errors, in first-seen order |
| ErrorTracker.SummaryBumped | src/lib/error-tracker.ts:22-25 | a further error of a known ayah adds one to its count and to its word's count and keeps the later timestamp |
| ErrorTracker.SummaryStarted | src/lib/error-tracker.ts:26-33 | the first error of an ayah starts its summary at count 1, its timestamp and that word at 1 |
| ErrorTracker.SummaryUnchanged | src/lib/error-tracker.ts:19-35 | an error of another ayah leaves a summary unchanged |
| ErrorTracker.ErrorLog.GetAyahErrorSummaries | src/lib/error-tracker.ts:15-38 | the method returns the reference summaries: first-seen order, then stably sorted by count |
| ErrorTracker.SummariesCount | src/lib/error-tracker.ts:15-38 | there are as many summaries as distinct ayahs in the log |
| ErrorTracker.SummariesAreSummaries | src/lib/error-tracker.ts:15-38 | every summary belongs to an ayah with errors and is that ayah's summary |
| ErrorTracker.SummariesCoverAyahs | src/lib/error-tracker.ts:15-38 | every ayah with an error has its summary in the list |
| ErrorTracker.SummariesDistinct | src/lib/error-tracker.ts:17-20 | no ayah has two summaries |
| ErrorTracker.SummariesSorted | src/lib/error-tracker.ts:37 | summaries come by non-increasing totalErrors |
| ErrorTracker.SummariesTotal | src/lib/error-tracker.ts:15-38 | the totalErrors add up to the length of the log |
| ErrorTracker.CountsSumToLog | src/lib/error-tracker.ts:19-35 | the per-ayah error counts add up to the length of the log |
| ErrorTracker.SummaryDate | src/lib/error-tracker.ts:24-31 | lastErrorDate is one of the ayah's timestamps and none is later in string order |
| ErrorTracker.SummaryWords | src/lib/error-tracker.ts:25-32 | errorWords has exactly the word indices that have errors |
| ErrorTracker.SummaryWordsSum | src/lib/error-tracker.ts:25-32 | the errorWords counts add up to the summary's totalErrors |
| ErrorTracker.WeakAyahs | src/lib/error-tracker.ts:40-42 | exactly the summaries with totalErrors >= minErrors; with the argument omitted, those with at least 3 errors |
| ErrorTracker.FindSummary | src/lib/error-tracker.ts:46-48 | find returns a summary of the given ayah from the list, and nothing only when the list has none |
| ErrorTracker.FindSummaryOfAyah | src/lib/error-tracker.ts:44-49 | an ayah without errors has no summary; otherwise find returns its summary |
| ErrorTracker.SortByTieBreak | src/lib/error-tracker.ts:50-51 | the stable sort by count of ascending indices equals the sort by count then index |
| ErrorTracker.WeakWordsFacts | src/lib/error-tracker.ts:50-52 | the sorted indices are exactly the map's keys, each once, by non-increasing count |
| ErrorTracker.WeakWordIndicesIs | src/lib/error-tracker.ts:44-53 | no errors gives []; otherwise the summary's errorWords keys sorted by count |
| ErrorTracker.WeakWordIndicesWords | src/lib/error-tracker.ts:44-53 | the result is [] for an ayah without errors, else exactly its erroneous word indices, each once |
| ErrorTracker.WeakWordIndicesOrder | src/lib/error-tracker.ts:50-51 | the indices come by non-increasing count, ties in ascending index |
| ErrorTracker.WordGroups | src/lib/error-tracker.ts:68-77 | every word group has a positive count equal to its number of timestamps |
| ErrorTracker.WordGroupsStep | src/lib/error-tracker.ts:69-77 | an entry of the ayah adds to its word's group; others leave the groups alone |
| ErrorTracker.GroupWord | src/lib/error-tracker.ts:70-76 | one grouping iteration gives the reference update |
| ErrorTracker.GroupWords | src/lib/error-tracker.ts:68-77 | the grouping loop over an ayah's errors gives the reference groups |
| ErrorTracker.ColourWords | src/lib/error-tracker.ts:84-97 | the colouring loop gives the reference colours |
| ErrorTracker.ErrorLog.GetWordErrorStatuses | src/lib/error-tracker.ts:59-100 | the method returns the reference word colours of the ayah |
| ErrorTracker.WordStatusesDomain | src/lib/error-tracker.ts:59-100 | word colours exist exactly for the word indices with errors, so {} for an error-free ayah |
| ErrorTracker.WordStatusMeaning | src/lib/error-tracker.ts:85-96 | yellow iff one error; orange iff several and the word's latest is before the ayah's latest; red otherwise; never none |
| ErrorTracker.OlderThanSome | src/lib/error-tracker.ts:88-89 | the word's latest is below the ayah's latest exactly when some ayah timestamp is later than all of the word's |
| ErrorTracker.AyahStatusFromWords | src/lib/error-tracker.ts:103-110 | the ayah is red iff some word is red, yellow iff none is red and some is yellow, orange iff all words are orange |
| ErrorTracker.AyahNeverOrange | src/lib/error-tracker.ts:103-110 | the ayah status is none iff it has no errors, and it is never orange: the word holding the latest error is not orange |
| ErrorTracker.GroupEntry | src/lib/error-tracker.ts:120-135 | one iteration of the batch grouping keeps each ayah's timestamps and word groups equal to the reference |
| ErrorTracker.GroupAyahs | src/lib/error-tracker.ts:119-135 | the batch grouping loop groups the whole log |
| ErrorTracker.AyahFlags | src/lib/error-tracker.ts:141-155 | hasRed, hasYellow and allOrange hold exactly when some colour is red, some is yellow, all are orange |
| ErrorTracker.FlagsRollUp | src/lib/error-tracker.ts:156-158 | at least one flag is set, and the flag chain gives the same colour as getAyahErrorStatus's roll-up |
| ErrorTracker.ColoursNeverNone | src/lib/error-tracker.ts:84-97 | every word group gets a colour and none is 'none' |
| ErrorTracker.AyahStatus | src/lib/error-tracker.ts:140-158 | the per-ayah batch computation always sets a status, equal to the roll-up of the word colours |
| ErrorTracker.ColourStep | src/lib/error-tracker.ts:140-158 | one iteration adds one more ayah with its rolled-up colour |
| ErrorTracker.ColourAyahs | src/lib/error-tracker.ts:138-159 | the batch loop gives each grouped ayah its rolled-up colour |
| ErrorTracker.RolledUpIsAll | src/lib/error-tracker.ts:114-162 | the batch result equals getAyahErrorStatus for every ayah with errors and has no other keys |
| ErrorTracker.ErrorLog.GetAllAyahErrorStatuses | src/lib/error-tracker.ts:114-162 | the batch method returns exactly what getAyahErrorStatus gives each ayah with errors |
| Mastery.DetermineLevel | src/lib/mastery-engine.ts:19-27 | mastered iff attempts > 0 and a last score >= 90; practicing iff attempts > 0 otherwise; new iff no attempts; totalErrors plays no part |
| Mastery.ReviewInterval | src/lib/mastery-engine.ts:30-44 | the interval is between 1 and 30 days, at most 14 below score 90 and exactly 1 below 70 (an absent score counts as 0) |
| Mastery.IntervalGrowsWithAttempts | src/lib/mastery-engine.ts:37-43 | more attempts never shorten the interval |
| Mastery.IntervalGrowsWithScore | src/lib/mastery-engine.ts:37-43 | a higher score never shortens the interval |
| Mastery.IntervalCaps | src/lib/mastery-engine.ts:38-40 | from five attempts on, the interval sits at its cap: 30 days at score >= 90, 14 at 70-89 |
| Mastery.RecordsOf | src/lib/mastery-engine.ts:193 | Object.values lists the record of each stored key, in insertion order |
| Mastery.SyncedRecord | src/lib/mastery-engine.ts:55-69 | after a sync the record carries the summary's totalErrors; a new one starts at level new with no attempts and no history; an existing one keeps its drill data and has its level recomputed |
| Mastery.SyncStepFresh | src/lib/mastery-engine.ts:54-56 | with distinct summary keys, the next summary's ayah still has the record it had before the sync |
| Mastery.SyncStep | src/lib/mastery-engine.ts:54-70 | one iteration of the sync loop extends the synced state by that summary's record |
| Mastery.SyncSummaries | src/lib/mastery-engine.ts:54-70 | the sync loop writes the synced record of every summary and adds newly seen keys at the end of the order |
| Mastery.SyncKeepsWellKept | src/lib/mastery-engine.ts:54-70 | a sync keeps every record coherent (level equals determineLevel of its drills) and each key listed once |
| Mastery.SyncWithLog | src/lib/mastery-engine.ts:50-75 | after a sync every ayah with errors has a record whose totalErrors is its error count, and every other record is unchanged; no record is deleted |
| Mastery.SyncIdempotent | src/lib/mastery-engine.ts:50-75 | a second sync on the same summaries changes no record and no order |
| Mastery.Drilled | src/lib/mastery-engine.ts:91-111 | an existing record gains one attempt and one history entry and keeps totalErrors; a missing one starts with one attempt, that entry and the drill's error count; the last score is the new score, the level is never new and is mastered iff score >= 90, and the next review is 1-30 days ahead |
| Mastery.DrillStepsExisting | src/lib/mastery-engine.ts:92-97 | the statements that update an existing record, applied in order, give the drilled record |
| Mastery.DrillStepsNew | src/lib/mastery-engine.ts:99-110 | the new record, given its review date, is the drilled record of an ayah with no record |
| Mastery.DrilledExisting | src/lib/mastery-engine.ts:91-97 | a drill on an existing record updates exactly the fields recordDrillResult assigns |
| Mastery.DrillKeepsCoherent | src/lib/mastery-engine.ts:91-111 | a drill keeps the record coherent |
| Mastery.DrillKeepsWellKept | src/lib/mastery-engine.ts:78-115 | a drill keeps the whole store well kept |
| Mastery.DueForReview | src/lib/mastery-engine.ts:118-131 | exactly the non-mastered records and the mastered ones due by today, as a permutation of the filter, sorted new before practicing before mastered, then by more errors |
| Mastery.DrillOrder | src/lib/mastery-engine.ts:137-145 | exactly the non-mastered records, as a permutation of the filter, in the same priority order |
| Mastery.Weakest | src/lib/mastery-engine.ts:134-147 | a prefix of that order: for count >= 0 exactly min(count, number of non-mastered records) records, all non-mastered, sorted; all of them when count covers the list |
| Mastery.WeakestFirst | src/lib/mastery-engine.ts:137-146 | no non-mastered record left out has higher priority than one chosen |
| Mastery.StatsAddUp | src/lib/mastery-engine.ts:191-201 | new + practicing + mastered = total |
| Mastery.BreakdownAddsUp | src/lib/mastery-engine.ts:177-188 | the four kind counts add up to the number of log entries, every entry having one of the four kinds |
| Mastery.CountErrorTypes | src/lib/mastery-engine.ts:177-188 | the counting loop gives each kind the number of entries of that kind |
| Mastery.AyahMasteryLevel | src/lib/mastery-engine.ts:204-208 | a level exactly for ayahs with a record, equal to determineLevel of its drills |
| Mastery.MasteryStore.constructor | src/lib/mastery-engine.ts:7-9 | an empty store with no sync date is well kept |
| Mastery.MasteryStore.Sync | src/lib/mastery-engine.ts:50-75 | syncing with the log's summaries keeps the store well kept and sets lastSyncDate |
| Mastery.MasteryStore.RecordDrill | src/lib/mastery-engine.ts:78-115 | only the drilled ayah's record changes, to the drilled record; the previous level is the stored one or new; the new level is the stored level and is not new |
| Mastery.MasteryStore.WeakestForDrill | src/lib/mastery-engine.ts:134-147 | getWeakestForDrill syncs first and returns the weakest records of the synced store; with the count omitted, the first min(5, n) of them |
| Mastery.MasteryStore.Stats | src/lib/mastery-engine.ts:191-201 | getMasteryStats syncs first and counts the synced store's records by level |
| WordHide.HideTarget | src/lib/word-hide.ts:5-25 | the target is floor(n/4), floor(n/2) or floor(3n/4) for easy, medium, hard: the largest whole number not above the ratio times n |
| WordHide.FirstValidFacts | src/lib/word-hide.ts:31-36 | the valid weak indices, taken once each in the given order, are exactly those in (0, n) |
| WordHide.WeakPicksFacts | src/lib/word-hide.ts:29-37 | the weak-word loop hides as many valid weak indices as its quota, all of them valid |
| WordHide.PickWeakStep | src/lib/word-hide.ts:29-37 | one more weak index is added exactly when it is valid and new, and the hidden set grows by it |
| WordHide.PickWeakDone | src/lib/word-hide.ts:31-34 | when the size check stops the loop, the words hidden are the weak picks |
| WordHide.PickWeak | src/lib/word-hide.ts:29-37 | the loop with its size check after each insertion hides the first min(max(target, 1), k) distinct valid weak indices |
| WordHide.Candidates | src/lib/word-hide.ts:40 | the candidate list is 1..n-1 (empty for no words) |
| WordHide.AvailableFacts | src/lib/word-hide.ts:40-41 | the available list holds each not-yet-hidden index of 1..n-1 once |
| WordHide.FillRandom | src/lib/word-hide.ts:43-47 | the random fill, whatever index it draws, keeps the hidden set, adds only indices in 1..n-1 and stops at max(size so far, min(target, n-1)) |
| WordHide.HiddenCountFacts | src/lib/word-hide.ts:29-47 | a positive target hides exactly min(target, n-1) words; a target of 0 hides at most one, and one exactly when a valid weak index exists |
| WordHide.GenerateHiddenWords | src/lib/word-hide.ts:18-55 | one entry per word with its word and index and revealed false; word 0 is never hidden; the weak picks are hidden; the number hidden is the hidden count above |
| DayProgress.CompletedIffBoth | src/hooks/useProgress.ts:113-128 | a day is completed iff it is memorized and tested; a day without a record is neither and has no score |
| DayProgress.Memorized | src/hooks/useProgress.ts:16-23 | the day's record becomes memorized with the new date and repetitions and keeps its score, test type, notes and tested flag |
| DayProgress.MemorizedIdempotent | src/hooks/useProgress.ts:16-23 | memorizing a day twice on the same date leaves the same record as once |
| DayProgress.MarkedMemorized | src/hooks/useProgress.ts:14-31 | markMemorized marks the day memorized and keeps its tested flag and score; other days, currentDay and startDate are unchanged |
| DayProgress.AfterLastCompleted | src/hooks/useProgress.ts:53-58 | one more than the largest fully completed day (1 when none is): above every completed day, and the day before it is completed unless it is 1 |
| DayProgress.MarkedTested | src/hooks/useProgress.ts:34-69 | the score becomes the best of the new and previous score; tested is set once the score reaches 80 and never cleared; memorized is unchanged; other days are unchanged; the day's number, repetitions and notes are those of the earlier record (0 and none without one); currentDay becomes max(currentDay, largest completed day + 1) when this day ends up complete and is unchanged otherwise |
| DayProgress.AfterLastRecorded | src/hooks/useProgress.ts:83 | one more than the largest recorded day (1 when none is): above every recorded day, and the day before it is recorded unless it is 1 |
| DayProgress.CompletedDay | src/hooks/useProgress.ts:72-91 | completeDay overwrites the day's record in full: day number, today's date, the repetitions and score given, no test type, no notes, memorized, and tested iff a score of at least 80 is given; other days are unchanged; currentDay becomes max(currentDay, largest recorded day + 1) |
| DayProgress.MemorizeAll | src/hooks/useProgress.ts:95-104 | the loop memorizes each listed day, keeping its other fields, and leaves every unlisted day alone |
| DayProgress.ProgressStore.constructor | src/lib/progress-calculator.ts:62-67 | the hook starts from emptyProgress |
| DayProgress.ProgressStore.MarkMemorized | src/hooks/useProgress.ts:14-31 | the stored progress becomes markMemorized's result |
| DayProgress.ProgressStore.MarkTested | src/hooks/useProgress.ts:34-69 | the stored progress becomes markTested's result |
| DayProgress.ProgressStore.CompleteDay | src/hooks/useProgress.ts:72-91 | the stored progress becomes completeDay's result |
| DayProgress.ProgressStore.CompleteDays | src/hooks/useProgress.ts:93-111 | every listed day becomes memorized as markMemorized would leave it, unlisted days are unchanged, and only completedDays and lastActiveDate change |
| ProgressCalculator.CompletedCount | src/lib/progress-calculator.ts:20-23 | the count is the number of stored days that are memorized and tested, at most the number of records |
| ProgressCalculator.CompletedRecords | src/lib/progress-calculator.ts:20-23 | filtering Object.values by memorized && tested keeps one record per completed day |
| ProgressCalculator.JuzProgress | src/lib/progress-calculator.ts:12-18 | round(100 * completed / days) in [0, 100] for a non-empty list, 0 for an empty one |
| ProgressCalculator.JuzProgressExtremes | src/lib/progress-calculator.ts:12-18 | 0 when no listed day is complete, 100 when every listed day of a non-empty list is |
| ProgressCalculator.CompletionDates | src/lib/progress-calculator.ts:26-27 | the mapped dates are exactly the completion dates of the stored records |
| ProgressCalculator.RunAtMostDates | src/lib/progress-calculator.ts:39-49 | a run of consecutive completion days is no longer than the number of distinct completion dates |
| ProgressCalculator.StreakUnique | src/lib/progress-calculator.ts:25-50 | the streak rule determines a single value |
| ProgressCalculator.CountRun | src/lib/progress-calculator.ts:39-47 | the loop over descending dates counts the run of consecutive days ending at the latest, skipping repeats and stopping at the first gap |
| ProgressCalculator.CalculateStreak | src/lib/progress-calculator.ts:25-50 | 0 without completions or when the latest is more than a day before today; otherwise the length n >= 1, at most the number of distinct dates, of the run of consecutive dates ending at the latest |
| ProgressCalculator.Ranked | src/lib/progress-calculator.ts:53-54 | every stored record once, by descending dayNumber |
| ProgressCalculator.RecentCompletions | src/lib/progress-calculator.ts:52-56 | a prefix of the ranked records of length min(count, records) |
| ProgressCalculator.RecentAreStored | src/lib/progress-calculator.ts:52-56 | the records returned are stored ones in descending dayNumber order, and all of them when count covers the store |
| ProgressCalculator.RecentAreLatest | src/lib/progress-calculator.ts:52-56 | no record left out has a higher dayNumber than one returned |
| ProgressCalculator.EmptyProgress | src/lib/progress-calculator.ts:62-67 | no completed day, no completion date, currentDay 1 |
| ReviewEngine.NearReview | src/lib/review-engine.ts:13-20 | a near task without a juz whose days are getNearReviewDays(currentDay) and whose description counts them |
| ReviewEngine.WeeklyReview | src/lib/review-engine.ts:49-58 | exactly the plan days with max(1, currentDay - 6) <= dayNumber < currentDay |
| ReviewEngine.NearWithinWeekly | src/lib/review-engine.ts:13-58 | every near-review day is also a weekly-review day |
| ReviewEngine.FindDay | src/lib/review-engine.ts:25 | find gives a plan day with that number, and nothing only when no plan day has it |
| ReviewEngine.JuzOf | src/lib/review-engine.ts:23-27 | the set holds exactly the juz of the plan days found for the recorded keys |
| ReviewEngine.CollectJuz | src/lib/review-engine.ts:23-27 | the loop fills the set with exactly those juz |
| ReviewEngine.RecordedDays | src/lib/review-engine.ts:24 | the keys of completedDays, each once |
| ReviewEngine.RecordedPlanDayHasJuz | src/lib/review-engine.ts:23-30 | when some recorded day is a plan day, the juz set is not empty |
| ReviewEngine.FarReview | src/lib/review-engine.ts:22-47 | null iff no recorded day is a plan day; otherwise the juz at (number of recorded days mod count) of the ascending juz list, a juz holding a recorded day, with the plan days whose number is one of that juz's day numbers, in plan order |
| ReviewEngine.FarDaysAreJuzDays | src/lib/review-engine.ts:38-39 | with unique day numbers, those are exactly the plan days of the target juz |
| ReviewEngine.FarDaysInPlanOrder | src/lib/review-engine.ts:38-39 | with unique day numbers, the far-review days are the plan filtered by juz, in plan order |
| PlanUtils.DayNumbers | src/lib/plan-utils.ts:15 | the day numbers of the days, in order |
| PlanUtils.DaysForRange | src/lib/plan-utils.ts:4-6 | the plan filtered to the days with start <= dayNumber <= end, in plan order |
| PlanUtils.NearReviewDays | src/lib/plan-utils.ts:8-12 | exactly the plan days in [max(1, cur - 5), cur - 1], in plan order, as getDaysForRange gives them; none when cur <= 1 |
| PlanUtils.NearReviewAtMostFive | src/lib/plan-utils.ts:8-12 | with unique day numbers there are at most five |
| PlanUtils.JuzDayNumbers | src/lib/plan-utils.ts:14-16 | the day numbers of the plan days of that juz, in plan order |
| PlanUtils.DayRangeText | src/lib/plan-utils.ts:18-30 | '' exactly for no days; one day reads 'name (start–end)'; several days within one surah read 'name (first start–last end)'; otherwise 'first name (first start) – last name (last end)' |
| PlanUtils.EndsDecideText | src/lib/plan-utils.ts:24-29 | for two or more days only the first and the last day decide the text |
| PlanUtils.SameSurahReadsAsOneDay | src/lib/plan-utils.ts:20-28 | when the first and last day share a surah, the text is that of one day from the first start ayah to the last end ayah |
| JuzBoundaries.TableOrdered | src/data/juz-boundaries.ts:7-38 | the table lists juz 1 to 30 in order, each start not after its end and each end before the next start |
| JuzBoundaries.FindFrom | src/data/juz-boundaries.ts:41-50 | the search returns the juz of the first entry containing the position, or 1 when none does |
| JuzBoundaries.JuzForAyah | src/data/juz-boundaries.ts:40-51 | the juz of an entry containing (surah, ayah), 1 when none does, always in 1..30 |
| JuzBoundaries.ContainedIn | src/data/juz-boundaries.ts:40-51 | the containing entry is unique: its juz is the one returned |
| JuzBoundaries.JuzMonotone | src/data/juz-boundaries.ts:7-51 | over covered positions the juz never decreases as the position advances |
| JuzBoundaries.PastEndIsFirst | src/data/juz-boundaries.ts:50 | a position after the last ayah of the table falls back to juz 1 |
| JuzBoundaries.SpotValues | src/data/juz-boundaries.ts:7-50 | (1,1) is juz 1, (2,142) juz 2, (114,6) juz 30 and (114,7) falls back to 1 |
| Certificates.CertificateStore.constructor | src/lib/certificates.ts:6-8 | the stored list starts empty |
| Certificates.CertificateStore.AddCertificate | src/lib/certificates.ts:10-14 | the new certificate is first and the old list follows unchanged |
| Certificates.CertificatesByJuz | src/lib/certificates.ts:16-18 | exactly the certificates of that juz |
| Certificates.ByJuzKeepsOrder | src/lib/certificates.ts:16-18 | the filter keeps list order: it distributes over concatenation |
| Certificates.AddedFirstInJuz | src/lib/certificates.ts:10-18 | after an addition its juz lists it first, before the previous ones in order, and other juz are unchanged |
| Certificates.MaxScore | src/lib/certificates.ts:23 | Math.max of a non-empty list is one of its elements and no element exceeds it |
| Certificates.Scores | src/lib/certificates.ts:23 | the scores of the certificates, in order |
| Certificates.BestScore | src/lib/certificates.ts:20-24 | undefined iff the day has no certificate; otherwise the highest score among the day's certificates |
| Certificates.BestScoreAfterAdd | src/lib/certificates.ts:10-24 | a certificate for the day raises its best score to the new score when higher; one for another day leaves it alone |
| Sessions.AddSession | src/hooks/useSessionHistory.ts:9-11 | the new session is first and the old list follows |
| Sessions.RecentSessions | src/hooks/useSessionHistory.ts:13-15 | a prefix of the list of length min(count, length), count defaulting to 10 |
| Sessions.AddedIsMostRecent | src/hooks/useSessionHistory.ts:9-15 | after an addition the recent sessions are the new one followed by the previous count - 1 |
| Sessions.SessionsByType | src/hooks/useSessionHistory.ts:17-19 | exactly the sessions of that type |
| Sessions.ByTypeKeepsOrder | src/hooks/useSessionHistory.ts:17-19 | the type filter keeps order: it distributes over concatenation |
| Sessions.TotalTime | src/hooks/useSessionHistory.ts:21-23 | 0 for no sessions, and never negative when no duration is |
| Sessions.TotalTimeAfterAdd | src/hooks/useSessionHistory.ts:9-23 | adding a session adds its duration to the total |
| Sessions.TypesPartitionTime | src/hooks/useSessionHistory.ts:17-23 | the total times of the seven session types add up to the total time |
| JuzProgressGrid.StatusOf | src/components/dashboard/JuzProgressGrid.tsx:13-39 | total is the number of days; memorized and tested lie in [0, total]; both percentages lie in [0, 100]; everything is 0 for no days |
| JuzProgressGrid.GetJuzStatus | src/components/dashboard/JuzProgressGrid.tsx:13-39 | the counting loop gives memorized days, tested days (memorized or not), the rounded mean score of tested days with a non-zero score and the two rounded percentages |
| JuzProgressGrid.AvgScoreInRange | src/components/dashboard/JuzProgressGrid.tsx:24-35 | with scores in [0, 100] the mean score is too |
| JuzProgressGrid.TestedPctAtLeastJuzProgress | src/components/dashboard/JuzProgressGrid.tsx:36 | the tested percentage is at least calculateJuzProgress, which also demands memorized |
| AudioPlayer.Starts | src/hooks/useAudioPlayer.ts:10-17 | entry i is the sum of the ayah counts of the surahs before i |
| AudioPlayer.SurahStarts | src/hooks/useAudioPlayer.ts:10-17 | the accumulating loop builds those prefix sums |
| AudioPlayer.LocateFrom | src/hooks/useAudioPlayer.ts:21-27 | the reverse scan finds the last surah whose start is below the number, and the ayah is the distance from that start; nothing when no start is below |
| AudioPlayer.AbsoluteToCode | src/hooks/useAudioPlayer.ts:20-29 | the reverse loop returns the reference code |
| AudioPlayer.LocateInRange | src/hooks/useAudioPlayer.ts:20-29 | for 1 <= a <= total ayahs the surah is in range, the ayah is between 1 and that surah's count, and the surah's start plus the ayah is a |
| AudioPlayer.NonPositiveIsFirstAyah | src/hooks/useAudioPlayer.ts:28 | a number <= 0 gives '001001' |
| AudioPlayer.Pad3Value | src/hooks/useAudioPlayer.ts:25 | padStart(3, '0') of a number below 1000 has three digits that read back as the number |
| AudioPlayer.CodeRoundTrip | src/hooks/useAudioPlayer.ts:20-29 | the six-digit code reads back as the located surah and ayah |
| AudioPlayer.At | src/hooks/useAudioPlayer.ts:125-157 | a playlist entry, or undefined past the end |
| AudioPlayer.Ended | src/hooks/useAudioPlayer.ts:108-168 | ayah repeat below the limit replays the entry with repeat + 1; otherwise the next entry from repeat 1; at the end range repeat below the limit restarts at 0 with repeat + 1, else playback stops with no ayah and repeat 1; 0 means no limit |
| AudioPlayer.PlayRange | src/hooks/useAudioPlayer.ts:199-206 | an empty list changes nothing; otherwise the list plays from index 0 at repeat 1 |
| AudioPlayer.Stop | src/hooks/useAudioPlayer.ts:219-234 | nothing plays, no ayah, the playlist is cleared |
| AudioPlayer.SkipNext | src/hooks/useAudioPlayer.ts:244-254 | repeat resets to 1; the next entry plays, or past the last one the player stops |
| AudioPlayer.SkipPrev | src/hooks/useAudioPlayer.ts:256-264 | repeat resets to 1; the previous entry plays, and at index 0 nothing else changes |
| AudioPlayer.TransitionsKeepValid | src/hooks/useAudioPlayer.ts:108-264 | every transition keeps the index on the playlist and the counter at least 1 |
| AudioPlayer.AyahRepeatsInPlace | src/hooks/useAudioPlayer.ts:117-131 | in ayah mode, n endings below the limit replay the same entry and raise the counter by n |
| AudioPlayer.PlaysThrough | src/hooks/useAudioPlayer.ts:133-147 | without repeat, n endings advance n entries |
| AudioPlayer.RangePlaysOnceAndStops | src/hooks/useAudioPlayer.ts:133-206 | without repeat a range plays each entry in turn and stops after the last |
| AudioPlayer.AudioPlayerState.constructor | src/hooks/useAudioPlayer.ts:53-76 | the player starts idle with an empty playlist, repeat off and count 1 |
| AudioPlayer.AudioPlayerState.UpdateConfig | src/hooks/useAudioPlayer.ts:266-275 | the given repeat settings replace the old ones and nothing else changes |
| AudioPlayer.AudioPlayerState.PlayAyah | src/hooks/useAudioPlayer.ts:87-96 | the given ayah is current and playing |
| AudioPlayer.AudioPlayerState.OnEnded | src/hooks/useAudioPlayer.ts:108-168 | the handler's updates give the reference transition |
| AudioPlayer.AudioPlayerState.PlayRangeOf | src/hooks/useAudioPlayer.ts:199-206 | the method gives the reference transition |
| AudioPlayer.AudioPlayerState.StopPlayback | src/hooks/useAudioPlayer.ts:219-234 | the method gives the reference transition |
| AudioPlayer.AudioPlayerState.SkipToNext | src/hooks/useAudioPlayer.ts:244-254 | the method gives the reference transition |
| AudioPlayer.AudioPlayerState.SkipToPrev | src/hooks/useAudioPlayer.ts:256-264 | the method gives the reference transition |
| PlanParser.SplitOn | scripts/parse-plan.js:52 | split('\|') gives at least one piece and no piece holds the separator |
| PlanParser.SplitJoin | scripts/parse-plan.js:52 | joining the pieces with the separator gives back the line |
| PlanParser.JoinSplit | scripts/parse-plan.js:52 | splitting pieces that hold no separator after joining them gives back the pieces |
| PlanParser.TrimAll | scripts/parse-plan.js:52 | map(c => c.trim()) trims each piece and keeps the count |
| PlanParser.Cells | scripts/parse-plan.js:52 | the kept cells are non-empty, hold no '\|' and start and end with a non-space |
| PlanParser.CellsOfRow | scripts/parse-plan.js:52 | a table row written from trimmed cells without '\|' reads back as exactly those cells |
| PlanParser.DigitsEnd | scripts/parse-plan.js:43 | the run of digits from i ends at the first non-digit |
| PlanParser.SpacesEnd | scripts/parse-plan.js:43 | the run of whitespace (\s*) from i ends at the first non-space |
| PlanParser.ParseIntOfDecimal | scripts/parse-plan.js:81-87 | parseInt of a decimal numeral followed by a non-digit is that number |
| PlanParser.JuzHeaderFrom | scripts/parse-plan.js:43 | the header regex matches iff some position from i on starts a match, and the number is the one captured at a matching position |
| PlanParser.MonthFrom | scripts/parse-plan.js:70 | the month regex matches iff some position from i on starts a match, and the number is the one captured there |
| PlanParser.RemoveDoubleStars | scripts/parse-plan.js:84 | replace(/\*\*/g, '') never lengthens the text |
| PlanParser.RemoveDoubleStarsComplete | scripts/parse-plan.js:84 | the result holds no '**' |
| PlanParser.RemoveDoubleStarsKeeps | scripts/parse-plan.js:84 | a name without '**' is unchanged |
| PlanParser.RemoveDoubleStarsSkips | scripts/parse-plan.js:84 | text before the first '**' is kept and that '**' is dropped, then the rest is rewritten |
| PlanParser.BoldNameRead | scripts/parse-plan.js:84 | a surah name set in bold, '**name**', reads as the name |
| PlanParser.SurahNumberOf | scripts/parse-plan.js:92 | surahNumbers[name] \|\| 0 is non-zero iff the name is in the table with a non-zero number |
| PlanParser.DayRow | scripts/parse-plan.js:81-106 | a day is kept iff the day number, start and end cells parse; it takes their parsed values, the current juz, the seventh cell as near review, the second cell without '**' and trimmed as name, the table's number or 0, and ayahCount from the fifth cell when it parses, else end - start + 1 |
| PlanParser.Step | scripts/parse-plan.js:41-107 | one line either sets the juz (header), adds a Friday review after the last day, adds a monthly review, adds a day, or changes nothing |
| PlanParser.ParsePlan | scripts/parse-plan.js:36-107 | the loop over the lines gives the days, Friday reviews and monthly reviews of the reference fold |
| PlanParser.StepKeepsCoherent | scripts/parse-plan.js:41-107 | after each line every day carries the juz of the nearest header above it, and every review points to the last day before it |
| PlanParser.ParseLinesCoherent | scripts/parse-plan.js:41-107 | the whole parse is coherent in that sense |
| PlanParser.ParseLinesExtends | scripts/parse-plan.js:41-107 | the parse of a prefix of the lines is a prefix of the parse of all lines (the lists only grow) |
| PlanParser.RowStep | scripts/parse-plan.js:50-106 | a row whose first cell is a number is handled as a day row |
| PlanParser.DecimalIsPlain | scripts/parse-plan.js:81 | a written day number is a plain cell starting with a digit and parseInt reads it back |
| PlanParser.DayCellsParse | scripts/parse-plan.js:81-106 | the cells written for a day parse back to that day |
| PlanParser.RowRead | scripts/parse-plan.js:50-52 | a table row of plain cells is split back into those cells and is no juz header |
| PlanParser.ShortRowIgnored | scripts/parse-plan.js:53 | a table row with fewer than seven cells changes nothing |
| PlanParser.HeaderRowIgnored | scripts/parse-plan.js:58 | the table header and the separator row change nothing |
| PlanParser.FridayLineReadBack | scripts/parse-plan.js:61-66 | a Friday row adds a Friday review after the last day, in the current juz, and changes nothing before the first day |
| PlanParser.MonthCellRead | scripts/parse-plan.js:70 | the month pattern finds month m in the cell written for it |
| PlanParser.MonthlyCellsStep | scripts/parse-plan.js:69-78 | a monthly row whose month parses adds a monthly review after the last day, or after day 0 |
| PlanParser.MonthlyLineReadBack | scripts/parse-plan.js:69-78 | the monthly row written for month m adds exactly the monthly review of m after the last day |
| PlanParser.DayLineReadBack | scripts/parse-plan.js:41-106 | a table row written from a day is parsed back to that very day |
| PlanParser.NumberAtEnd | scripts/parse-plan.js:43 | after a space, a trailing run of digits is captured whole |
| PlanParser.HeaderLineMatches | scripts/parse-plan.js:43 | the header written for juz j matches with number j |
| PlanParser.HeaderLineReadBack | scripts/parse-plan.js:43-47 | a header line only sets the current juz to its number |
| PlanParser.EscapeQuotesAsWritten | scripts/parse-plan.js:116 | replace(/'/g, "\\'") never shortens the text |
| PlanParser.TrailingBackslashBreaksLiteral | scripts/parse-plan.js:116-117 | the near review '\\' is emitted unchanged and its literal does not read back: the backslash escapes the closing quote |
| PlanParser.EscapeLiteral | scripts/parse-plan.js:116 | the corrected escaping never shortens the text |
| PlanParser.EscapeLiteralReadBack | scripts/parse-plan.js:116-117 | the corrected body followed by the closing quote reads back as the text and the rest |
| PlanParser.QuoteReadBack | scripts/parse-plan.js:116-117 | the quoted corrected literal reads back as the text followed by whatever comes after |
| PlanParser.EscapingsAgree | scripts/parse-plan.js:116 | on texts without backslash or line break the corrected escaping equals the written one |
| PlanParser.NearReviewLiteral | scripts/parse-plan.js:116-117 | the emitted near-review literal reads back as the day's near review |
| Common.RoundDiv | src/components/dashboard/JuzProgressGrid.tsx:35-37 | Math.round(x / y): the integer nearest x / y, halves rounded up |
| Common.Percent | src/lib/arabic-utils.ts:144 | Math.round(part / whole * 100) lies in [0, 100] for 0 <= part <= whole, is 100 for the whole and 0 for none |
| Common.PercentFacts | src/components/dashboard/JuzProgressGrid.tsx:36-37 | the same bounds for the percentages of the juz grid |
| Common.SliceTo | src/hooks/useSessionHistory.ts:14 | slice(0, count) is a prefix of length min(count, length), or drops -count from the end when count is negative |
| Common.Filter | src/lib/certificates.ts:17 | filter keeps exactly the elements passing the test, in order |
| Common.FilterAppend | src/lib/certificates.ts:17 | filter distributes over concatenation |
| Common.SortBy | src/lib/error-tracker.ts:37 | the insertion sort is a permutation ordered by the key |
| Common.SortByStable | src/lib/error-tracker.ts:37 | the sort is stable: the elements of any one key keep their input order, as Array.prototype.sort guarantees |
| Common.SumOfSortBy | src/lib/error-tracker.ts:37 | sorting keeps the sum of any measure |
| Common.PadStart | src/hooks/useAudioPlayer.ts:25 | padStart(width, fill) keeps the text at the end, fills in front with `fill` and has length max(width, length) |
| Common.NatToString | src/hooks/useAudioPlayer.ts:25 | String(n) is a non-empty run of decimal digits |
| Common.NatToStringValue | src/hooks/useAudioPlayer.ts:25 | those digits read back as n |
| Common.Ascending | src/lib/review-engine.ts:30 | the juz set sorted ascending: strictly increasing and holding exactly the set |
| ProgressTypes.Records | src/lib/progress-calculator.ts:21 | Object.values(completedDays) lists one record per key |
| ProgressTypes.RecordsMembers | src/lib/progress-calculator.ts:21 | and lists exactly the stored records |
| ProgressTypes.CountWhere | src/lib/progress-calculator.ts:20-22 | counting the values that pass a test equals counting the keys whose value passes it |

## Left out

- Persistence (`getItem`/`setItem`, `localStorage`, `useLocalStorage`), React state and rendering: the stored values are class fields or parameters.
- `calculateOverallProgress` (src/lib/progress-calculator.ts:5-10): it rounds to one decimal place on floating-point values, so it is left out.
- `getNextDay` (src/lib/progress-calculator.ts:58-60) is a single field read.
- `getErrorTrends` (src/lib/mastery-engine.ts:150-174) works on calendar weeks of `Date` values and their labels, so it is left out.
- The next-review date in `calculateNextReview` is a day number, the current day plus the interval. The formatting through `Date` and `toISOString` is left out.
- Audio elements, loading, `timeupdate` and error events, retry timers, the auto-pause delay, playback speed, pause, resume and toggle: only the index and repeat state is modelled. Each event becomes a method call that gives the state after any delay.
- AudioPlayer.Pad3Value: states the round trip only for surah and ayah numbers below 1000. Larger numbers cannot occur in the Quran.
- PlanParser.ParseIntOfDecimal: `parseInt` is modelled as base ten. It skips leading whitespace, reads an optional sign and then the longest run of digits. A `0x` prefix and digits beyond JavaScript's exact integer range are not modelled, and the plan's cells hold neither.
- `PlanParser.ReadQuoted` reads a JavaScript single-quoted literal with the escapes `\n \r \t \b \f \v`, `\\`, `\'` and line continuation. `\x`, `\u`, `\0` and octal escapes are not modelled, and the written and corrected escapings never produce them.
- PlanParser.Step: the parser is modelled from the split lines on. Reading the file, the `console` output and the rest of the generated TypeScript (field layout, the day and review literals other than the near-review text) are left out. The `surahNumbers` literal (scripts/parse-plan.js:10-34) is data, so it is passed in as a map.
- Common.Percent: computes `Math.round(part / whole * 100)` on exact rationals. JavaScript computes it in floating point, and the results can differ by one when the exact value is a half. For part = 29 and whole = 200, JavaScript gives 14 (29 / 200 * 100 is 14.499999999999998) and the model gives 15. The bounds the contract states (0 to 100, 100 for the whole, 0 for none) hold for both.
- PlanParser.EscapeLiteral: the surah name is also written unescaped at scripts/parse-plan.js:117. Only the near-review quoting, which the script attempts, is corrected.
- The `notes` field of a day's progress and the ids and labels of sessions and certificates are carried along but not interpreted.

## Findings

| source | as written | input that shows it | evidently intended | confidence | as-written member | corrected member |
|---|---|---|---|---|---|---|
| scripts/parse-plan.js:116 | only `'` is escaped before the near review is placed between single quotes | a near-review cell ending in a backslash, `\` | the generated literal reads back as the near-review text | not executed | PlanParser.TrailingBackslashBreaksLiteral | PlanParser.QuoteReadBack |
