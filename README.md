# travel-mbti in Dafny

A model of the decision logic of the travel-mbti web application, a quiz that assigns one of the sixteen MBTI personality codes and shows the travel style stored for it. The model covers these parts:

- **The question catalog** (`Questions`). It has eighteen questions in four consecutive runs (EI, SN, TF, JP). Each answer option carries a value and a pole letter. The module also has the per-dimension groups.
- **The type table** (`MbtiTypes`). It has sixteen entries keyed by code, in declaration order. The data accessors over it are in `DataIndex`.
- **The calculator** (`MbtiCalculator`). It folds answers into four signed sums and counts and normalises them to averages. It then derives the four letters, the strength labels and the rounded confidence, and it validates a set of answers. The fold is a method with a loop, proved against a recursive specification function. `CatalogScoring` proves what the fold gives on answers recorded from the catalog.
- **The test session** (`MbtiTest.TestSession`). This is a class with the hook's state: the question index, the answers, the completion flag and the result. Its methods answer a question, navigate, compute the result and reset.
- **The keyboard shortcuts** of the navigation bar (`TestNavigation`).
- **Sharing** (`ShareUtils`). It covers `{{key}}` template substitution, the share text and title, the result link with its percent-encoding, and decoding that link on the results page. It also covers the share record's validation and the choice of sharing method.
- **The language provider** (`LanguageContext.LanguageProvider`). It covers the initial language from the saved preference, loading the tables with their fallback, the dotted-path lookup `t` (a loop over the key segments), and switching language.

The scores are exact reals. `Math.round` is `Floor(x + 1/2)`. The page origin, the fetched translation files, the translator function and the browser's capabilities are parameters.

### Scoring, as the code does it

An answer tagged E, N, F or P adds its value to its axis, and one tagged I, S, T or J subtracts it. A non-negative average picks E, N, F or P. In the catalog, the first-letter options (E, S, T, J) carry 2 or 0 and the second-letter options carry -2. So every catalog answer moves EI up and the other three axes down. `CatalogScoring.CatalogCodes` proves the consequence: every quiz result starts with E. On the other axes the letter is N, F or P exactly when every answer on that axis was the neutral option. The comment at `src/types/index.ts:70` says a positive score means the second letter. The code picks E, the first letter, for a non-negative EI score. The model follows the code.

## Model

| member | source | states |
|---|---|---|
| Builtins.Round | src/utils/mbtiCalculator.ts:151 | `Math.round` lands within one half of its argument |
| Builtins.RoundMonotone | src/utils/mbtiCalculator.ts:151 | rounding never reverses the order of two values |
| Builtins.Percent | src/utils/mbtiCalculator.ts:248 | the rounded percentage of a part is non-negative and at most 100 when the part does not exceed the whole |
| Builtins.Abs | src/utils/mbtiCalculator.ts:139-142 | the magnitude is non-negative and is the value or its negation |
| Builtins.Min | src/utils/mbtiCalculator.ts:149 | the minimum is below both arguments and is one of them |
| Builtins.Split | src/contexts/LanguageContext.tsx:84 | `split` on one character gives at least one piece, and no piece holds the separator |
| Builtins.JoinSplit | src/contexts/LanguageContext.tsx:84 | joining the pieces of a split with the separator restores the string |
| Builtins.SplitJoin | src/contexts/LanguageContext.tsx:84 | splitting a join of separator-free pieces gives those pieces back |
| Builtins.NatToStringInjective | src/data/questions.ts:3-461 | distinct numbers have distinct decimal spellings, which keeps the question ids distinct |
| Types.CodesListed | src/types/index.ts:192-208 | a string is a valid code (E/I, N/S, F/T, P/J) exactly when it is one of the sixteen members of the `MBTICode` union |
| Questions.FilterByDimension | src/data/questions.ts:464-469 | a filtered group is no longer than its input, and every question in it carries the tag |
| Questions.FilterMembership | src/data/questions.ts:464-469 | a question is in a group exactly when it is in the catalog and carries that group's tag |
| Questions.QuestionsByDimension | src/data/questions.ts:464-469 | every question in the group of a tag carries that tag |
| Questions.TotalQuestions | src/data/questions.ts:472 | the number of catalog questions; `Questions.GroupsAddUp` proves it is the sum of the four group sizes and `Questions.CatalogShape` that it is 18 |
| Questions.CatalogShape | src/data/questions.ts:3-461 | the catalog has 18 questions in four runs, each with three options of values 2, 0 and -2, the first two with the first pole of the tag and the last with the second |
| Questions.CatalogDimensions | src/data/questions.ts:3-461 | question k carries the tag of the run that holds position k |
| Questions.QuestionIds | src/data/questions.ts:3-461 | question k has id "q" followed by k+1 in decimal |
| Questions.QuestionIdsDistinct | src/data/questions.ts:3-461 | no two questions share an id |
| Questions.AnswerId | src/data/questions.ts:5-29 | option j of a question has the question's id followed by "a" and the digit j+1 |
| Questions.AnswerIdsUnique | src/data/questions.ts:3-461 | option ids extend their question's id, and no two options anywhere share an id |
| Questions.AnswerPolesMatchDimension | src/data/questions.ts:3-461 | every option's pole letter belongs to its question's dimension |
| Questions.FilterAppend | src/data/questions.ts:464-469 | filtering distributes over concatenation |
| Questions.FilterRuns | src/data/questions.ts:464-469 | filtering a sequence laid out like the catalog yields exactly the run of that tag |
| Questions.QuestionsByDimensionRuns | src/data/questions.ts:464-469 | the groups are questions 1-4, 5-9, 10-14 and 15-18 |
| Questions.GroupMembers | src/data/questions.ts:464-469 | a group holds exactly the catalog questions with its tag |
| Questions.GroupsAddUp | src/data/questions.ts:464-472 | the four group sizes add up to the total, so every question is in exactly one group |
| Questions.EachQuestionInItsGroup | src/data/questions.ts:464-469 | each catalog question is in the group of its own tag and in no other |
| MbtiTypes.KeyOrder | src/data/mbtiTypes.ts:3-540 | the key order lists the table's keys in declaration order |
| MbtiTypes.KeysDistinct | src/data/mbtiTypes.ts:3-540 | no key is declared twice |
| MbtiTypes.InTableIffListed | src/data/mbtiTypes.ts:3-540 | a string is a key of the table exactly when it is in the key order |
| MbtiTypes.KeysAreTheSixteenCodes | src/data/mbtiTypes.ts:3-540 | the table has sixteen distinct keys, and they are exactly the sixteen valid codes |
| MbtiTypes.EntryWellFormed | src/data/mbtiTypes.ts:3-540 | every entry's code equals its key, its image path is `/images/<lower-case code>-character.svg`, and it lists three preferences |
| MbtiTypes.EntjWellFormed | src/data/mbtiTypes.ts:5-32 | the ENTJ entry has its image path and three preferences |
| MbtiTypes.EntpWellFormed | src/data/mbtiTypes.ts:34-61 | the same for ENTP |
| MbtiTypes.IntjWellFormed | src/data/mbtiTypes.ts:63-93 | the same for INTJ |
| MbtiTypes.IntpWellFormed | src/data/mbtiTypes.ts:95-121 | the same for INTP |
| MbtiTypes.EnfjWellFormed | src/data/mbtiTypes.ts:124-163 | the same for ENFJ |
| MbtiTypes.EnfpWellFormed | src/data/mbtiTypes.ts:165-196 | the same for ENFP |
| MbtiTypes.InfjWellFormed | src/data/mbtiTypes.ts:198-233 | the same for INFJ |
| MbtiTypes.InfpWellFormed | src/data/mbtiTypes.ts:235-266 | the same for INFP |
| MbtiTypes.EstjWellFormed | src/data/mbtiTypes.ts:269-300 | the same for ESTJ |
| MbtiTypes.EsfjWellFormed | src/data/mbtiTypes.ts:302-337 | the same for ESFJ |
| MbtiTypes.IstjWellFormed | src/data/mbtiTypes.ts:339-370 | the same for ISTJ |
| MbtiTypes.IsfjWellFormed | src/data/mbtiTypes.ts:372-403 | the same for ISFJ |
| MbtiTypes.EstpWellFormed | src/data/mbtiTypes.ts:406-441 | the same for ESTP |
| MbtiTypes.EsfpWellFormed | src/data/mbtiTypes.ts:443-469 | the same for ESFP |
| MbtiTypes.IstpWellFormed | src/data/mbtiTypes.ts:471-506 | the same for ISTP |
| MbtiTypes.IsfpWellFormed | src/data/mbtiTypes.ts:508-539 | the same for ISFP |
| MbtiTypes.EntriesWellFormed | src/data/mbtiTypes.ts:3-540 | every value stored under a key has that key as its code and is well formed |
| DataIndex.ValidateMbtiCode | src/data/index.ts:12-14 | a code validates exactly when it is a key of the table, that is, exactly when it is one of the sixteen codes |
| DataIndex.GetMbtiType | src/data/index.ts:16-18 | lookup among the table's own keys succeeds exactly for the sixteen codes and returns the declared entry, whose code is the key |
| DataIndex.GetAllMbtiCodes | src/data/index.ts:20-22 | the list is the sixteen codes in declaration order (ENTJ, ENTP, INTJ, INTP, ENFJ, ENFP, INFJ, INFP, ESTJ, ESFJ, ISTJ, ISFJ, ESTP, ESFP, ISTP, ISFP); they are distinct, every valid code occurs, and each looks up |
| DataIndex.GetQuestionsByDimension | src/data/index.ts:25-29 | a group is the run of catalog questions with that tag, in catalog order, and holds every such question |
| DataIndex.GetQuestionCount | src/data/index.ts:31 | the catalog has 18 questions |
| MbtiCalculator.PolesArePairs | src/utils/mbtiCalculator.ts:45-78 | on each axis one pole adds the value and the other subtracts it, and together they are the axis's two letters |
| MbtiCalculator.Step | src/utils/mbtiCalculator.ts:45-78 | one answer's update of the tally; `MbtiCalculator.StepChangesOneAxis` states which sum and count it changes |
| MbtiCalculator.Accumulate | src/utils/mbtiCalculator.ts:41-79 | the fold of `Step` over the answers, the specification of the loop in `MbtiCalculator.CalculateMbtiScores`; `MbtiCalculator.AccumulatePerAxis` gives its sums and counts outright |
| MbtiCalculator.CalculateMbtiScores | src/utils/mbtiCalculator.ts:24-90 | the loop's result is the normalised fold of all the answers |
| MbtiCalculator.StepChangesOneAxis | src/utils/mbtiCalculator.ts:41-79 | an answer changes only the sum and count of its pole's axis; an unknown pole changes nothing |
| MbtiCalculator.AccumulatePerAxis | src/utils/mbtiCalculator.ts:41-79 | the fold's sum and count on an axis are the signed sum and the number of the answers on that axis |
| MbtiCalculator.UnansweredAxisSumsToZero | src/utils/mbtiCalculator.ts:41-79 | an axis with no answers has sum 0 |
| MbtiCalculator.NormalizedScore | src/utils/mbtiCalculator.ts:82-87 | a score is the axis sum over the axis count, or 0 when the axis has no answers |
| MbtiCalculator.StepsCommute | src/utils/mbtiCalculator.ts:41-79 | two answers give the same tally in either order |
| MbtiCalculator.AccumulateInsert | src/utils/mbtiCalculator.ts:41-79 | an answer anywhere in the list has the same effect as one at the end |
| MbtiCalculator.AccumulatePermutation | src/utils/mbtiCalculator.ts:41-79 | the fold is the same for any reordering of the answers |
| MbtiCalculator.ScoresPermutation | src/utils/mbtiCalculator.ts:24-90 | the scores are the same for any reordering of the answers |
| MbtiCalculator.AxisSumBounded | src/utils/mbtiCalculator.ts:41-79 | with values in [-2, 2], an axis sum lies within twice its count either way |
| MbtiCalculator.ScoresBounded | src/utils/mbtiCalculator.ts:82-87 | with values in [-2, 2], every score lies in [-2, 2] |
| MbtiCalculator.Letters | src/utils/mbtiCalculator.ts:99-104 | the code has four letters; letter i is the adding pole of axis i when its score is non-negative, else the subtracting pole |
| MbtiCalculator.PreferenceLetter | src/utils/mbtiCalculator.ts:99-104 | the letter of one axis by the sign of its score; `MbtiCalculator.Letters` and `MbtiCalculator.LettersSpelled` state which letter each sign picks |
| MbtiCalculator.LettersInTable | src/utils/mbtiCalculator.ts:106-112 | the four letters always spell a valid code that is a key of the table |
| MbtiCalculator.LettersSpelled | src/utils/mbtiCalculator.ts:99-104 | the code is E or I, then N or S, then F or T, then P or J, each chosen by the sign of its score |
| MbtiCalculator.DetermineMbtiType | src/utils/mbtiCalculator.ts:97-115 | the result is always the four letters, so the ENFP fallback is never taken, and it is a valid code |
| MbtiCalculator.EveryCodeReachable | src/utils/mbtiCalculator.ts:97-115 | every one of the sixteen codes is the result for some score vector |
| MbtiCalculator.ZeroScoresGiveEnfp | src/utils/mbtiCalculator.ts:99-104 | all-zero scores give ENFP |
| MbtiCalculator.StrengthCategory | src/utils/mbtiCalculator.ts:122-129 | slight below 0.3, moderate in [0.3, 0.7), clear in [0.7, 1.3), very clear from 1.3, each as an if-and-only-if |
| MbtiCalculator.StrengthMonotone | src/utils/mbtiCalculator.ts:122-129 | a larger magnitude never gets a weaker label |
| MbtiCalculator.MeanMagnitude | src/utils/mbtiCalculator.ts:138-146 | the mean of the four magnitudes is non-negative |
| MbtiCalculator.CalculateConfidence | src/utils/mbtiCalculator.ts:136-152 | confidence is in [0, 100] and within one half of min(100, mean magnitude × 50) |
| MbtiCalculator.ConfidenceMonotone | src/utils/mbtiCalculator.ts:136-152 | a larger mean magnitude never lowers the confidence |
| MbtiCalculator.ConfidenceExtremes | src/utils/mbtiCalculator.ts:136-152 | zero scores give 0, and scores of magnitude 2 on every axis give 100 |
| MbtiCalculator.ConfidenceUncapped | src/utils/mbtiCalculator.ts:149 | for scores in [-2, 2] the cap at 100 never applies |
| MbtiCalculator.GetMbtiTypeData | src/utils/mbtiCalculator.ts:159-161 | lookup among the table's own keys succeeds exactly for valid codes and returns the entry with that code |
| MbtiCalculator.Details | src/utils/mbtiCalculator.ts:184-209 | four details in axis order, each with its axis, its score, the letter the code has there, and the strength of its magnitude |
| MbtiCalculator.ProcessMbtiTest | src/utils/mbtiCalculator.ts:168-216 | fails exactly on an empty list; otherwise the scores, code, confidence and details agree with the functions above, and each detail's letter is the code's letter |
| MbtiCalculator.ProcessOrderIndependent | src/utils/mbtiCalculator.ts:168-216 | reordering the answers does not change the result |
| MbtiCalculator.Absent | src/utils/mbtiCalculator.ts:239-241 | the kept poles are exactly the required ones not seen |
| MbtiCalculator.MissingPoles | src/utils/mbtiCalculator.ts:237-245 | a pole is missing exactly when no answer carries it, and none is missing exactly when all eight appear |
| MbtiCalculator.InvalidCount | src/utils/mbtiCalculator.ts:251-257 | the number of answers outside [-2, 2] is 0 exactly when all values are valid |
| MbtiCalculator.CompletenessGate | src/utils/mbtiCalculator.ts:248-259 | the rounded percentage of 18 reaches 70 exactly from 13 answers (12 give 67, 13 give 72) |
| MbtiCalculator.ValidateAnswers | src/utils/mbtiCalculator.ts:224-266 | an empty list gives one issue and completeness 0; otherwise the issues are the missing poles and the invalid count, in that order; the answers are valid exactly when there are at least 13 of them, all eight poles appear and all values are in range |
| MbtiCalculator.GetTravelRecommendations | src/utils/mbtiCalculator.ts:273-276 | present exactly for valid codes, and then it is the declared entry's travel style |
| CatalogScoring.Record | src/hooks/useMBTITest.ts:164-169 | a recorded answer carries the question's id and the option's id |
| CatalogScoring.CatalogContribution | src/data/questions.ts:10-27 | a catalog answer's value is in [-2, 2]; it adds at least 0 to EI and at most 0 to the other axes; it adds 0 exactly when it is off the axis or neutral |
| CatalogScoring.CatalogAxisSum | src/utils/mbtiCalculator.ts:41-79 | over catalog answers the EI sum is at least 0 and the others at most 0; on the others the sum is 0 exactly when every answer there was neutral |
| CatalogScoring.AxisScoreSign | src/utils/mbtiCalculator.ts:82-87 | over catalog answers a score is non-negative exactly on EI or on an axis with only neutral answers |
| CatalogScoring.CatalogCodes | src/utils/mbtiCalculator.ts:97-115 | every code from catalog answers starts with E, and its letter on SN, TF or JP is N, F or P exactly when every answer on that axis was neutral |
| CatalogScoring.NoHitsNeutral | src/utils/mbtiCalculator.ts:83-86 | an axis with no answers counts as neutral |
| MbtiTest.Total | src/hooks/useMBTITest.ts:76 | the session's question count is the catalog's 18 |
| MbtiTest.WithoutQuestion | src/hooks/useMBTITest.ts:159-161 | the kept answers are exactly those for other questions |
| MbtiTest.WithoutQuestionAppend | src/hooks/useMBTITest.ts:159-161 | removal distributes over concatenation |
| MbtiTest.WithoutQuestionIdempotent | src/hooks/useMBTITest.ts:159-161 | removing twice is removing once |
| MbtiTest.WithoutQuestionUnique | src/hooks/useMBTITest.ts:159-161 | removal keeps question ids unique |
| MbtiTest.ReplaceSpec | src/hooks/useMBTITest.ts:157-177 | a re-answer ends the list, no earlier answer has its question, the other answers are kept, and unique question ids stay unique |
| MbtiTest.Replace | src/hooks/useMBTITest.ts:157-171 | the answers without the question's earlier answer, followed by the new one; `MbtiTest.ReplaceSpec` states its contents |
| MbtiTest.ReanswerReorders | src/hooks/useMBTITest.ts:171 | answering q1, then q2, then q1 again leaves q2's answer before q1's |
| MbtiTest.FindOption | src/hooks/useMBTITest.ts:149-151 | the option is found exactly when one has that id, and it is that option |
| MbtiTest.FindFrom | src/hooks/useMBTITest.ts:149-151 | the same search over a list of options |
| MbtiTest.TestSession.constructor | src/hooks/useMBTITest.ts:10-15 | a new session is on question 0 with no answers, not completed and without a result, and satisfies the invariant |
| MbtiTest.TestSession.CurrentQuestion | src/hooks/useMBTITest.ts:70-72 | there is a current question exactly when the index is in range, and it is catalog question "q" + (index+1) |
| MbtiTest.TestSession.GetProgress | src/hooks/useMBTITest.ts:75-89 | 18 questions, the answered count, the 1-based position and the completion percentage |
| MbtiTest.TestSession.CompletionPercentage | src/hooks/useMBTITest.ts:96-98 | non-negative, and at least 70 exactly when 13 or more questions are answered |
| MbtiTest.TestSession.CanGoBack | src/hooks/useMBTITest.ts:92 | going back is possible off the first question; `MbtiTest.TestSession.Flags` relates it to the other flags |
| MbtiTest.TestSession.CanGoForward | src/hooks/useMBTITest.ts:93 | going forward is possible before the last question; `MbtiTest.TestSession.Flags` shows it excludes being on the last question |
| MbtiTest.TestSession.IsLastQuestion | src/hooks/useMBTITest.ts:94-95 | the index is the last one, 17, as `MbtiTest.TestSession.Flags` states |
| MbtiTest.TestSession.HasAnsweredCurrentQuestion | src/hooks/useMBTITest.ts:100-105 | an answered current question needs a question on screen and at least one recorded answer |
| MbtiTest.TestSession.Flags | src/hooks/useMBTITest.ts:92-95 | going forward and being on the last question exclude each other; on a question one of them holds; going back is possible exactly off the first question; the last question is index 17 |
| MbtiTest.TestSession.AnswerQuestion | src/hooks/useMBTITest.ts:144-187 | without a current question or a matching option nothing changes; otherwise the answer replaces any earlier one for the question and goes last; the invariant is kept |
| MbtiTest.TestSession.GoToPreviousQuestion | src/hooks/useMBTITest.ts:190-195 | the index drops by one but not below 0, and it stays put exactly when going back was not possible |
| MbtiTest.TestSession.GoToNextQuestion | src/hooks/useMBTITest.ts:198-206 | the index rises by one but not above 17, and it stays put exactly when going forward was not possible |
| MbtiTest.TestSession.GoToQuestion | src/hooks/useMBTITest.ts:209-216 | an index in range is taken, and any other is ignored |
| MbtiTest.Evaluate | src/hooks/useMBTITest.ts:222-243 | fails exactly below 13 answers; otherwise it gives the calculator's result and the table entry for its code |
| MbtiTest.TestSession.CalculateResult | src/hooks/useMBTITest.ts:219-261 | fails exactly below 13 answers and then changes nothing; otherwise it completes the session with the table entry of the computed code; from a valid session that code starts with E |
| MbtiTest.CatalogResultStartsWithE | src/hooks/useMBTITest.ts:236 | the result for answers recorded from the catalog starts with E |
| MbtiTest.TestSession.ResetTest | src/hooks/useMBTITest.ts:264-273 | the session returns to its initial state |
| TestNavigation.InertWhileBusy | src/components/test/TestNavigation.tsx:38 | while disabled or submitting, no key does anything |
| TestNavigation.HandleKeyDown | src/components/test/TestNavigation.tsx:37-67 | a key runs a callback only with the default suppressed, nothing is suppressed while disabled or submitting, Submit needs the last question and a selected answer, and Next needs a selected answer, a next question and not the last one |
| TestNavigation.PreviousRule | src/components/test/TestNavigation.tsx:41-46 | Previous happens exactly on Ctrl+ArrowLeft when going back is allowed and the bar is idle |
| TestNavigation.ArrowRightRule | src/components/test/TestNavigation.tsx:47-56 | Ctrl+ArrowRight acts exactly when the bar is idle, going on is allowed and an answer is selected, and it never goes back |
| TestNavigation.ArrowRightNeverSubmits | src/components/test/TestNavigation.tsx:47-56 | when going on is allowed exactly off the last question, Ctrl+ArrowRight never submits |
| TestNavigation.EnterRule | src/components/test/TestNavigation.tsx:57-67 | Enter is handled exactly with an answer selected and no Shift; it then submits on the last question and otherwise goes on if allowed |
| TestNavigation.OtherKeysIgnored | src/components/test/TestNavigation.tsx:40-67 | every other key is ignored |
| TestNavigation.PreviousDisabled | src/components/test/TestNavigation.tsx:103 | Previous is disabled while the bar is disabled or submitting, and without a previous question |
| TestNavigation.SubmitDisabled | src/components/test/TestNavigation.tsx:161 | Submit is disabled while the bar is disabled or submitting, and without a selected answer |
| TestNavigation.NextDisabled | src/components/test/TestNavigation.tsx:195-197 | Next is disabled while the bar is disabled or submitting, and whenever Submit would be |
| TestNavigation.ShortcutsAgreeWithButtons | src/components/test/TestNavigation.tsx:103 | a shortcut only does what its on-screen button would allow (previous at line 103, submit at line 161, next at lines 195-197) |
| ShareUtils.WordRun | src/utils/shareUtils.ts:18 | the run of word characters at the front is maximal |
| ShareUtils.PlaceholderAt | src/utils/shareUtils.ts:18 | a recognised placeholder is `{{`, a non-empty run of word characters, then `}}` |
| ShareUtils.ReplaceTemplate | src/utils/shareUtils.ts:14-21 | the result is empty exactly when the template is |
| ShareUtils.ReplaceWithoutValues | src/utils/shareUtils.ts:14-21 | with no non-empty value, the template comes back unchanged |
| ShareUtils.ReplaceNonEmpty | src/utils/shareUtils.ts:14-21 | a non-empty template never gives an empty string |
| ShareUtils.PlainPrefix | src/utils/shareUtils.ts:14-21 | text without `{` passes through |
| ShareUtils.PlaceholderFirst | src/utils/shareUtils.ts:18-20 | a leading placeholder becomes its non-empty value or stays as written |
| ShareUtils.NotRescanned | src/utils/shareUtils.ts:18-20 | a lone placeholder whose value is non-empty becomes exactly that value, even when the value holds placeholders itself: inserted text is not scanned again |
| ShareUtils.TemplatesMatchFallbacks | src/utils/shareUtils.ts:39-50 | filling the default templates with a code and a name gives exactly the English fallback text and title |
| ShareUtils.EchoingTranslatorAgrees | src/utils/shareUtils.ts:39-50 | a translator that returns its fallbacks produces the same text and title as no translator |
| ShareUtils.GenerateShareText | src/utils/shareUtils.ts:33-53 | without a translator, the English text is the default text template filled with the type's code and name |
| ShareUtils.ShareTitle | src/utils/shareUtils.ts:112-131 | without a translator, the English title is the default title template filled with the type's code and name |
| ShareUtils.HexRoundTrip | src/utils/shareUtils.ts:59 | a hex digit reads back as its value |
| ShareUtils.PercentBytes | src/utils/shareUtils.ts:59 | percent-encoding uses three characters per byte, all of them `%` or unreserved |
| ShareUtils.EncodeUriComponent | src/utils/shareUtils.ts:59 | the encoding contains only `%` and unreserved characters |
| ShareUtils.EncodeUnreservedIdentity | src/utils/shareUtils.ts:59 | a string of unreserved characters is encoded as itself |
| ShareUtils.CreateShareableUrl | src/utils/shareUtils.ts:56-60 | the link is the origin and `/results?type=`, followed only by escapes and unreserved characters |
| ShareUtils.ShareableUrlOfCode | src/utils/shareUtils.ts:56-60 | the link for a code is the origin, `/results?type=` and the code |
| ShareUtils.DecodeEncode | src/utils/shareUtils.ts:59 | decoding an encoded ASCII string gives it back |
| ShareUtils.SearchParam | src/pages/results-page.tsx:46 | a parameter is found only in a link with a query |
| ShareUtils.SharedResult | src/pages/results-page.tsx:46-54 | a shared link shows a type only when its `type` parameter is that type's valid code |
| ShareUtils.SharedLinkParam | src/pages/results-page.tsx:46 | the `type` parameter of a shared link is the encoded code |
| ShareUtils.SharedLinkRoundTrip | src/pages/results-page.tsx:46-53 | opening the link for a code loads the same entry as looking that code up |
| ShareUtils.CreateShareData | src/utils/shareUtils.ts:105-139 | the record holds the share text, the title, the link for the code, the code and the planning style |
| ShareUtils.ValidateShareData | src/utils/shareUtils.ts:238-245 | a record is valid exactly when its title, text, link and code are all non-empty |
| ShareUtils.ShareDataValid | src/utils/shareUtils.ts:238-245 | a record built from a type is valid exactly when the type's code is non-empty, for a translator that keeps non-empty fallbacks non-empty |
| ShareUtils.TableEntriesShareable | src/utils/shareUtils.ts:105-139 | the record built for each of the sixteen entries is valid |
| ShareUtils.GetOptimalSharingMethod | src/utils/shareUtils.ts:228-233 | the web share is chosen exactly when it is supported and the platform is mobile |
| LanguageContext.InitialLanguage | src/contexts/LanguageContext.tsx:15-32 | Korean exactly when "ko" was saved; a saved "en" or "ko" is kept |
| LanguageContext.SavedLanguageRestored | src/contexts/LanguageContext.tsx:15-32 | a language that was saved comes back |
| LanguageContext.OrKey | src/contexts/LanguageContext.tsx:91 | an empty fallback gives the key, otherwise the fallback |
| LanguageContext.Walk | src/contexts/LanguageContext.tsx:87-93 | a walk steps only into own keys of tables, so a string ends every walk |
| LanguageContext.Translate | src/contexts/LanguageContext.tsx:80-96 | `t` returns the string its key's segments lead to, or else the fallback or the key |
| LanguageContext.WalkSnoc | src/contexts/LanguageContext.tsx:87-93 | a walk along a longer path is the shorter walk plus one step |
| LanguageContext.WalkStuck | src/contexts/LanguageContext.tsx:87-93 | a walk that cannot take a step fails |
| LanguageContext.WalkNest | src/contexts/LanguageContext.tsx:87-93 | a path of nested tables leads to its leaf |
| LanguageContext.TranslateFound | src/contexts/LanguageContext.tsx:80-96 | a key whose segments lead to a string translates to it, even to an empty one |
| LanguageContext.TranslateMissingSegment | src/contexts/LanguageContext.tsx:87-93 | a missing segment gives the fallback, or the key when the fallback is empty |
| LanguageContext.TranslateSubTable | src/contexts/LanguageContext.tsx:95 | a path that ends at a table gives the fallback or the key |
| LanguageContext.TranslateEmpty | src/contexts/LanguageContext.tsx:81 | before loading, every key gives the fallback or the key |
| LanguageContext.FlatFallback | src/contexts/LanguageContext.tsx:60-70 | every key of the fallback table contains a dot |
| LanguageContext.FlatFallbackUnreachable | src/contexts/LanguageContext.tsx:60-70 | `t` over the fallback table, as written, always returns the fallback or the key |
| LanguageContext.HeroTableLookup | src/contexts/LanguageContext.tsx:80-96 | a table nested along `home.hero` returns its title and highlight for the two keys |
| LanguageContext.NestedFallbackReachable | src/contexts/LanguageContext.tsx:60-70 | with the fallback nested, both keys give their text in each language |
| LanguageContext.LanguageProvider.constructor | src/contexts/LanguageContext.tsx:15-38 | starts in the saved language, with empty tables, loading |
| LanguageContext.LanguageProvider.FinishLoading | src/contexts/LanguageContext.tsx:41-77 | after loading the tables are the fetched ones, or the flat fallback tables as written when fetching failed (so `t` then gives the fallback or the key, by `LanguageContext.FlatFallbackUnreachable`); loading ends and the language is unchanged |
| LanguageContext.LanguageProvider.T | src/contexts/LanguageContext.tsx:80-96 | the loop's result is the lookup of the key in the current language's table |
| LanguageContext.LanguageProvider.SetLanguage | src/contexts/LanguageContext.tsx:99-104 | the language is set and its storage code is returned; the tables are unchanged |

## Left out

- Rendering, animation, routing and the page components. Only the keyboard handler of the navigation bar is modelled.
- `localStorage` and `sessionStorage`: saving, loading and clearing the session (`saveProgress`, `loadProgress`, the removal in `resetTest`), and removing an invalid saved language (`src/contexts/LanguageContext.tsx:25-27`). The saved language is a parameter of the provider's constructor, and the stored code is the result of `SetLanguage`.
- `fetch` and JSON parsing of the translation files: the outcome is the parameter of `FinishLoading`.
- Timers: the 500 ms auto-advance after an answer is not modelled. `GoToNextQuestion` is the step it would take.
- `Date`: the completion time stored by `calculateResult`.
- Console warnings and errors.
- IEEE-754 doubles: scores are exact reals, so rounding at ties and sums of many values can differ from the browser.
- `t` looks keys up with `in`, which also finds keys inherited from `Object.prototype`. The model uses own keys only.
- DataIndex.GetMbtiType: `mbtiTypes[code] || null` also finds keys inherited from `Object.prototype`, so "constructor" or "toString" gives a function rather than null. The model looks up own keys only, so it returns None for them.
- MbtiCalculator.GetMbtiTypeData: the same lookup as `getMBTIType`, with the same difference for inherited keys.
- ShareUtils.ReplaceTemplate: `variables[key] || match` also reads inherited keys, so `{{constructor}}` or `{{toString}}` becomes the source text of an `Object` method. The model reads only the variables given, so such a placeholder stays as written. `ShareUtils.SharedResult` inherits the lookup difference of `DataIndex.GetMbtiType`.
- MbtiTypes.EntryWellFormed: does not state that each entry lists exactly five characteristics (src/data/mbtiTypes.ts:10-16), because the characteristics texts are not part of the model; keeping all sixteen lists in the literal table would make every proof over it much more expensive.
- The descriptions, characteristics, destinations, activities, budget and accommodation texts of the sixteen entries, and the texts of questions and answers. Only the fields the logic reads are kept.
- `DIMENSION_WEIGHTS` (`src/data/index.ts:34-39`): it is exported but never read, and its signs disagree with the calculator.
- The `typeof a.value !== "number"` test in `validateAnswers`: answer values are always numbers here.
- Percent-decoding is modelled for ASCII text only. UTF-8 sequences outside ASCII are encoded but not decoded.
- The translator, `isWebShareSupported` and `detectPlatform` are parameters.
- Issue messages are a datatype. `Message` renders them, but their exact wording is not stated.
- `calculateResult` returns the calculator's result spread together with the type entry. The model returns the two as a pair.
- The `isLoading` flag is kept as state, but what the pages show while loading is not modelled.
- `MbtiTest.TestSession.AnswerQuestion`: the auto-advance that follows an answer is not part of the method, because it runs later from a timer.

## Findings

| source | as written | input that shows it | evidently intended | confidence | as-written member | corrected member |
|---|---|---|---|---|---|---|
| src/contexts/LanguageContext.tsx:60-70 | when loading fails, the fallback tables use the flat keys "home.hero.title" and "home.hero.titleHighlight", but `t` splits every key on "." and walks nested tables, so it can never reach a flat dotted key | `t("home.hero.title")` after a failed fetch returns "home.hero.title" instead of "Discover Your" | the fallback texts nested under `home` and `hero`, so that the two hero keys find them | high (not executed) | LanguageContext.FlatFallbackUnreachable | LanguageContext.NestedFallbackReachable |
