# Kidoova core rules in Dafny

This project models the rule-carrying core of Kidoova, a parenting app that
builds a child's confidence through daily challenges grouped into five
pillars. The app is a React front end and a Cloudflare Pages/Workers back end
on D1, plus scripts that turn the challenge CSV into SQL seed files. Each core
source file becomes one Dafny module:

- **Seed encoders** (`SeedRows`, `MergeSeedScript`, `FullSeedScript`,
  `InsertScript`, `TsSeedScript`, with `Json` and `Text`). These model the
  quoting and escaping of each field, the steps column, the separators and
  terminators, and one statement per CSV row.
- **Chatbot** (`ChatbotApi`, `ChatbotRoutes`, `ChatbotView`). These model
  pillar detection, age ranges, pillar names, challenge formatting, the
  `NOT IN` placeholder list, the rewriting and extraction of challenge tags,
  the message list and the Start button.
- **Progress and rewards** (`ConfidenceTrend`, `AgeUtils`, `RpgTraitPanel`,
  `RewardEngine`, `ConfidenceStar`, `TrophyCase`, with `Dates`, the calendar
  day shared with `CalendarPage`). These model the trend
  message, the age bucket, levels and XP bars, reward thresholds over a set of
  granted rewards, star fill, and the trophy sections.
- **Challenge lists** (`Lists`, `ChallengeTypes`, `GroupedChallenges`,
  `ExpandedPillar`, `AllChallengesPage`, `ChallengeCard`). These model
  grouping, sorting, paging, dedupe, filtering and card labels.
- **Screens as state machines** (`OnboardingState`, `FamilyChildScreen`,
  `PracticePage`, `UniversalChallengeModal`, `TodayChallengeCards`,
  `CalendarPage`, `PrivateRoute`, `AuthContext`, with `Fetch`, how one
  awaited request ends). React state becomes the
  fields of a class, and each handler becomes a method that states the
  whole new state.
- **Back-end helpers** (`Jwt`, `PracticeProgress`, `BearerAuth`, `Flags`,
  `BillingStatus`, `MediaCreateUrl`). These model base64url decoding, the
  certificate cache, the token checks, the completed-steps list, feature
  flags, billing status, and upload names.

Some things the code gets from outside become parameters of the model:

- the network answers (whether a request succeeded, a status, the rows a
  query returns). In the screens, each awaited request ends in a
  `Fetch.Reply`: a response with its `ok` flag, or a rejection carrying the
  message the handler's `catch` shows;
- the parsers (`json.loads`, `JSON.parse`, `atob`, the CSV reader);
- signature checks;
- the clock and random bytes.

A JavaScript value that may be missing is an `Option`, and its truthiness is
modelled explicitly: `""` and `0` are falsy.

## Model

| member | source | states |
|---|---|---|
| MergeSeedScript.CleanText | convert_csv_to_sql.py:4-8 | a falsy text, None or empty, gives the empty string |
| MergeSeedScript.CleanTextNoNewline | convert_csv_to_sql.py:8 | the result of `clean_text` holds no newline |
| MergeSeedScript.CleanTextUndouble | convert_csv_to_sql.py:8 | collapsing the doubled quotes of `clean_text(t)` gives t with newlines turned into spaces, stripped |
| MergeSeedScript.CleanTextIdentity | convert_csv_to_sql.py:8 | text with no quote, no newline and no outer whitespace is returned unchanged |
| MergeSeedScript.Iterate | convert_csv_to_sql.py:28 | iterating the parsed steps: an array yields its items; null, a boolean or a number raises |
| MergeSeedScript.QuoteStep | convert_csv_to_sql.py:28 | one element raises exactly when it is truthy and not a string; a string element becomes its quoted `clean_text` |
| MergeSeedScript.QuoteSteps | convert_csv_to_sql.py:28 | the generator succeeds iff every element does, giving one quoted text per element, in order |
| MergeSeedScript.StepsJsonArray | convert_csv_to_sql.py:22-28 | a bracketed steps text that parses as an array of strings becomes `json_array(...)` of the elements in order, each cleaned, quoted and comma-separated |
| MergeSeedScript.StepsFallback | convert_csv_to_sql.py:22-34 | a steps text that is not bracketed or not JSON becomes one quoted `clean_text` literal, well quoted, and the run goes on |
| MergeSeedScript.ParseIntOfIntToString | convert_csv_to_sql.py:56 | `int(str(n)) == n` for every integer n |
| MergeSeedScript.RowValues | convert_csv_to_sql.py:37-59 | ten values; the steps text fifth, the pillar id as a bare integer eighth, the difficulty quoted tenth |
| MergeSeedScript.CleanWellQuoted | convert_csv_to_sql.py:49-58 | every quoted `clean_text` value is a well-formed SQL string literal |
| MergeSeedScript.PillarMustBeInteger | convert_csv_to_sql.py:56 | a row raises iff `int()` rejects its pillar_id; otherwise its statement is the INSERT of its ten values |
| MergeSeedScript.OneInsertPerRow | convert_csv_to_sql.py:20-60 | one INSERT per row, in row order, each the statement of its row; a stop is at the first row that raises |
| MergeSeedScript.ConvertCsvToSql | convert_csv_to_sql.py:10-60 | the two DELETE statements come first, challenge_logs then challenges, followed by the INSERTs of the row loop |
| SeedRows.WellQuotedEvenQuotes | src/backend/scripts/convert_csv_to_sql.py:7 | a well-formed SQL literal holds an even number of quotes |
| SeedRows.QuotedDoubleWellQuoted | src/backend/scripts/convert_csv_to_sql.py:7 | quoting text with its quotes doubled always gives a well-formed literal |
| SeedRows.OddQuotesBreakLiteral | src/backend/scripts/convert-csv-to-sql.ts:39 | quoting text that has an odd number of quotes, unescaped, never gives a well-formed literal |
| SeedRows.Run | convert_csv_to_sql.py:20-60 | the row loop prints at most one statement per row, and it stops early exactly when a row raises |
| SeedRows.RunOnePerRow | src/backend/scripts/convert_csv_to_sql.py:26-51 | each printed statement is the statement of its row; the exception comes from the row after the last one printed |
| SeedRows.PrintRows | convert_csv_to_sql.py:20-60 | the loop prints what `Run` describes and ends with its exception |
| SeedRows.PrintEach | src/backend/scripts/insert_challenges.py:24-46 | a loop in which no row raises prints one statement per row, in order |
| FullSeedScript.EscapeSqlString | src/backend/scripts/convert_csv_to_sql.py:4-7 | None gives exactly `NULL`; any text gives a well-formed quoted literal |
| FullSeedScript.EscapeRoundTrip | src/backend/scripts/convert_csv_to_sql.py:7 | dropping the outer quotes and collapsing doubled quotes recovers the text |
| FullSeedScript.EscapeLength | src/backend/scripts/convert_csv_to_sql.py:7 | the literal is the text's length plus 2 plus the number of quotes in the text |
| FullSeedScript.Values | src/backend/scripts/convert_csv_to_sql.py:31-42 | exactly ten values per row |
| FullSeedScript.ValuesQuoting | src/backend/scripts/convert_csv_to_sql.py:31-42 | every value except pillar_id and difficulty_level is a literal or NULL; those two are copied raw |
| FullSeedScript.StepsReserialised | src/backend/scripts/convert_csv_to_sql.py:28-45 | steps that `json.loads` rejects stop the run; otherwise the tuple holds `json.dumps` of the parsed value as one literal |
| FullSeedScript.SeparatedComplete | src/backend/scripts/convert_csv_to_sql.py:45-51 | for n >= 1 rows the tuples are joined by ",\n" and only the last gets ";\n"; no rows give nothing |
| FullSeedScript.WriteTuples | src/backend/scripts/convert_csv_to_sql.py:26-51 | the loop writes each tuple followed by its separator, up to the first row that raises |
| FullSeedScript.ConvertCsvToSql | src/backend/scripts/convert_csv_to_sql.py:9-51 | the DELETE and the INSERT header are written before any tuple |
| FullSeedScript.CompleteFile | src/backend/scripts/convert_csv_to_sql.py:25-51 | when no row raises, there is one tuple per row, in order, separated and terminated as above |
| InsertScript.CleanText | src/backend/scripts/insert_challenges.py:4-8 | None stays None and any text stays text |
| InsertScript.CleanTextRoundTrip | src/backend/scripts/insert_challenges.py:8 | collapsing the doubled `"` and then the doubled `'` recovers the text |
| InsertScript.CleanTextCounts | src/backend/scripts/insert_challenges.py:8 | the result has twice as many `'` and twice as many `"` as the input |
| InsertScript.CleanTextWellQuoted | src/backend/scripts/insert_challenges.py:8 | the quoted result is a well-formed literal |
| InsertScript.ConvertSteps | src/backend/scripts/insert_challenges.py:10-19 | empty or missing steps give None, and so does any text `json.loads` rejects |
| InsertScript.ConvertStepsQuotes | src/backend/scripts/insert_challenges.py:15-17 | on success only `'` is doubled: the `"` count equals that of `json.dumps`, and collapsing `''` gives `json.dumps` back |
| InsertScript.Show | src/backend/scripts/insert_challenges.py:42-44 | f-string interpolation shows text as itself |
| InsertScript.Values | src/backend/scripts/insert_challenges.py:42-44 | exactly ten values per statement |
| InsertScript.NoneIsText | src/backend/scripts/insert_challenges.py:42-43 | a None field appears as the quoted text `'None'`, not as NULL |
| InsertScript.RawColumns | src/backend/scripts/insert_challenges.py:33-35 | pillar_id and difficulty_level appear raw and unquoted, and a missing pillar_id is the bare word None |
| InsertScript.GenerateInsertStatements | src/backend/scripts/insert_challenges.py:21-46 | exactly one statement per row, in row order |
| TsSeedScript.Values | src/backend/scripts/convert-csv-to-sql.ts:36-49 | exactly ten values per statement |
| TsSeedScript.EscapeWellQuoted | src/backend/scripts/convert-csv-to-sql.ts:30-34 | an escaped field quotes to a well-formed literal, and collapsing the doubled quotes recovers it |
| TsSeedScript.EscapedFields | src/backend/scripts/convert-csv-to-sql.ts:30-45 | title, description, goal, example_dialogue and tip are placed escaped |
| TsSeedScript.UnescapedFields | src/backend/scripts/convert-csv-to-sql.ts:39-48 | id, steps and age_range are quoted unescaped, so an odd number of quotes breaks the literal; pillar_id and difficulty_level are placed raw |
| TsSeedScript.StatementsInOrder | src/backend/scripts/convert-csv-to-sql.ts:29 | one statement per record, in record order |
| TsSeedScript.OutputAppend | src/backend/scripts/convert-csv-to-sql.ts:53 | statements are joined by a blank line, with nothing after the last |
| TsSeedScript.OutputEnds | src/backend/scripts/convert-csv-to-sql.ts:53 | the file ends with the last record's statement |
| Json.EscapeChar | src/backend/scripts/convert_csv_to_sql.py:36 | `json.dumps` keeps a character exactly when it is printable ASCII other than `"` and `\`; every escape is printable ASCII |
| Json.QuoteString | src/backend/scripts/convert_csv_to_sql.py:36 | a string dumps to printable ASCII between double quotes |
| Json.Dumps | src/backend/scripts/convert_csv_to_sql.py:36 | the output is non-empty printable ASCII; a string starts with `"`, an array is bracketed, an object braced |
| Json.DumpsStringFirst | src/backend/scripts/insert_challenges.py:17 | an array of strings dumps to text that starts with `["`, so `"` reaches the SQL undoubled |
| Text.UndoubleDouble | src/backend/scripts/convert_csv_to_sql.py:7 | collapsing doubled quotes undoes doubling them |
| Text.DoubleCounts | src/backend/scripts/convert_csv_to_sql.py:7 | doubling a character adds one character per occurrence and doubles its count |
| Text.StripDouble | convert_csv_to_sql.py:8 | trimming after doubling quotes equals doubling after trimming, since a quote is not whitespace |
| Text.Split | src/backend/api/practice_progress.ts:38 | `split` of a one-character separator gives at least one piece, and no piece holds the separator |
| Text.JoinSplit | src/backend/api/practice_progress.ts:38-46 | joining the pieces of a split with the separator gives the text back |
| Text.SplitJoin | src/backend/api/practice_progress.ts:38-46 | splitting the join of separator-free pieces gives the pieces back |
| Text.LowerIdempotent | src/backend/api/chatbot.ts:11 | lower-casing twice is lower-casing once |
| Text.ParseDecimalNatToString | src/backend/lib/jwt.ts:73-74 | reading the decimal digits of a number back gives the number |
| ChatbotApi.DetectPillarId | src/backend/api/chatbot.ts:10-18 | the pillar is always in 1..5 |
| ChatbotApi.DetectIgnoresCase | src/backend/api/chatbot.ts:11 | a message and its lower-cased form get the same pillar |
| ChatbotApi.FearWins | src/backend/api/chatbot.ts:12 | a fear keyword, in any case, gives 5 whatever else the message holds |
| ChatbotApi.SocialBeforeTheRest | src/backend/api/chatbot.ts:13 | without a fear keyword, a social keyword in any case gives 3 |
| ChatbotApi.NoKeywordIsGrowth | src/backend/api/chatbot.ts:17 | a message with none of the keywords maps to 2 |
| ChatbotApi.GetAgeRange | src/backend/api/chatbot.ts:21-26 | "3-5" exactly for 3..5, "10-13" exactly for 10..13, "6-9" for every other age |
| ChatbotApi.PillarName | src/backend/api/chatbot.ts:29-38 | ids 1..5 get their table name; the Growth Mindset name is given exactly for 2 and every id outside 1..5 |
| ChatbotApi.DetectedPillarIsNamed | src/backend/api/chatbot.ts:137-138 | the detected pillar always has its own table entry |
| ChatbotApi.Bullets | src/backend/api/chatbot.ts:41-45 | one bullet line per challenge (of the `formatChallenges` helper, which the handler does not call; its inline list at lines 153-155 is not modelled) |
| ChatbotApi.FormatChallenges | src/backend/api/chatbot.ts:41-45 | no challenges give the empty text, and otherwise the text starts with the first challenge's bullet |
| ChatbotApi.FormatOneLinePerChallenge | src/backend/api/chatbot.ts:41-45 | with newline-free fields the text splits back into exactly the bullet lines, in input order |
| ChatbotApi.PlaceholdersShape | src/backend/api/chatbot.ts:147 | the NOT IN list has exactly one `?` per id, comma-separated |
| ChatbotApi.OnePlaceholderPerBinding | src/backend/api/chatbot.ts:145-150 | the pillar and age are bound first, then one completed id per `?`, in order |
| ChatbotApi.TagAt | src/backend/api/chatbot.ts:208 | a tag found at the front is `[challenge:` + a non-empty id without `]` + `]` |
| ChatbotApi.ExtractTags | src/backend/api/chatbot.ts:214 | every extracted id is non-empty and holds no `]` |
| ChatbotApi.NoTagsUnchanged | src/backend/api/chatbot.ts:207-214 | a reply from which no tag is extracted is left unchanged by the rewriting, whatever the link prefix |
| ChatbotApi.ReplaceTags | src/backend/api/chatbot.ts:207-210 | a reply from which no tag is extracted is left unchanged |
| ChatbotApi.ApiResponse | src/backend/api/chatbot.ts:204-215 | with no ids reported the reply is returned as the model wrote it; every reported id is non-empty and holds no `]` |
| ChatbotApi.NoTagUnchanged | src/backend/api/chatbot.ts:207-214 | a reply without `[` is not rewritten and yields no id |
| ChatbotApi.TagInPlainTextReplaced | src/backend/api/chatbot.ts:207-210 | a tag after plain text becomes `https://kidoova.com/challenges/` + its id |
| ChatbotApi.TagInPlainTextExtracted | src/backend/api/chatbot.ts:214 | that tag's id is reported first, taken from the reply as the model wrote it |
| ChatbotRoutes.AgreesWithEndpoint | src/backend/routes/chatbot.ts:8-16 | the route's classifier agrees with the endpoint's on every message |
| ChatbotRoutes.FirstMatch | src/backend/routes/chatbot.ts:8-16 | the result is the default 2 or the pillar of one of the rules |
| ChatbotRoutes.DetectPillarId | src/backend/routes/chatbot.ts:8-16 | the route's pillar is always in 1..5 |
| ChatbotRoutes.Handle | src/backend/routes/chatbot.ts:44-53 | 400 exactly when the message is missing or empty; otherwise the pillar is in 1..5 and named by the shared table |
| ChatbotRoutes.AgeRangeDefault | src/backend/routes/chatbot.ts:49 | the child's age range when set, else "6-9" |
| ChatbotView.ExtractChallengeIds | src/frontend/src/components/Chatbot.tsx:166-169 | every id is non-empty and holds no `]` |
| ChatbotView.NoBracketNoIds | src/frontend/src/components/Chatbot.tsx:166-169 | text without `[` yields no id |
| ChatbotView.FrontFindsTag | src/frontend/src/components/Chatbot.tsx:167 | `[challenge:ID]` or `[challenge ID]` in any case after plain text yields ID first |
| ChatbotView.ReplyMessage | src/frontend/src/components/Chatbot.tsx:72-99 | one assistant message: the reply and its ids on success, the 503 text, the generic text, or the thrown message |
| ChatbotView.Chatbot.constructor | src/frontend/src/components/Chatbot.tsx:42 | the list starts with exactly the welcome message |
| ChatbotView.Chatbot.SetInput | src/frontend/src/components/Chatbot.tsx:264 | typing sets the input and leaves the messages and loading state alone |
| ChatbotView.Chatbot.HandleSendMessage | src/frontend/src/components/Chatbot.tsx:53-103 | blank input or a request in flight changes nothing; otherwise one user message with the trimmed text and one reply message are appended, and the input is cleared |
| ChatbotView.StartTarget | src/frontend/src/components/Chatbot.tsx:178-191 | as written: a button iff an assistant message's own text yields an id, and it opens the first |
| ChatbotView.RewrittenReplyLosesButton | src/frontend/src/components/Chatbot.tsx:178 | a reply whose tag the endpoint already rewrote reports id "7" yet gets no button |
| ChatbotView.StartTargetFromIds | src/frontend/src/components/Chatbot.tsx:187-191 | corrected: a button iff an assistant message carries a non-empty `challengeIds` |
| ChatbotView.StartFromIdsOpensFirstTag | src/frontend/src/components/Chatbot.tsx:191 | corrected: the button opens the first tag of the model's reply |
| ConfidenceTrend.ReversedFeelings | src/frontend/src/utils/confidenceTrend.ts:9 | the feelings of a reversed copy: same length, entry i is feeling n-1-i, and the input is not touched |
| ConfidenceTrend.Deltas | src/frontend/src/utils/confidenceTrend.ts:10-14 | n-1 deltas, delta i being entry i+1 minus entry i |
| ConfidenceTrend.Classify | src/frontend/src/utils/confidenceTrend.ts:16-20 | upward exactly when the average exceeds 0.2, dipped exactly when it is below -0.2, steady otherwise |
| ConfidenceTrend.Telescopes | src/frontend/src/utils/confidenceTrend.ts:12-16 | the deltas sum to the last minus the first |
| ConfidenceTrend.SummaryOfEnds | src/frontend/src/utils/confidenceTrend.ts:9-20 | the outcome is the classification of data[0] minus data[n-1] over n-1 |
| ConfidenceTrend.OnlyEndsMatter | src/frontend/src/utils/confidenceTrend.ts:12-20 | two series of one length with the same first and last feelings get the same message |
| ConfidenceTrend.SummaryMessages | src/frontend/src/utils/confidenceTrend.ts:7-20 | fewer than two entries, and only they, keep tracking; otherwise one of the three trend messages |
| ConfidenceTrend.GetConfidenceSummary | src/frontend/src/utils/confidenceTrend.ts:6-21 | the loop over the array returns the specified summary |
| AgeUtils.Age | src/backend/utils/ageUtils.ts:3-9 | the age is the number of whole years: the birthday of that age is not after today and the next one is after today |
| AgeUtils.Bucket | src/backend/utils/ageUtils.ts:11-21 | the five bands below 2, below 5, below 8, below 12 and 12 or more |
| AgeUtils.CalculateAgeRange | src/backend/utils/ageUtils.ts:11-21 | the result is one of the five age-range labels |
| AgeUtils.LabelsByAge | src/backend/utils/ageUtils.ts:11-21 | each label is given exactly for its band of ages |
| AgeUtils.AlwaysALabel | src/backend/utils/ageUtils.ts:11-21 | the result is always one of the five labels and never empty |
| AgeUtils.AgeMonotone | src/backend/utils/ageUtils.ts:3-9 | an earlier birthdate never gives a smaller age |
| AgeUtils.BucketMonotone | src/backend/utils/ageUtils.ts:3-21 | an earlier birthdate never gives a younger band |
| AgeUtils.FutureBirth | src/backend/utils/ageUtils.ts:11-12 | a birthdate after today gives a negative age and "0-2 years" |
| RpgTraitPanel.GetLevel | src/frontend/src/components/dashboard/RPGTraitPanel.tsx:23-28 | the level is in 0..3, so both tables are indexed in range |
| RpgTraitPanel.LevelRange | src/frontend/src/components/dashboard/RPGTraitPanel.tsx:23-28 | a score has reached its level's threshold and, below level 3, not the next one; level 0 exactly below 25 |
| RpgTraitPanel.LevelMonotone | src/frontend/src/components/dashboard/RPGTraitPanel.tsx:23-28 | a higher score never gives a lower level |
| RpgTraitPanel.TotalXPBoundsScores | src/frontend/src/components/dashboard/RPGTraitPanel.tsx:63 | with no negative score the total is non-negative and at least every score |
| RpgTraitPanel.ProfileHeader | src/frontend/src/components/dashboard/RPGTraitPanel.tsx:63-66 | the shown level is in 1..4 with its name, the next threshold is positive, and the bar is at most 100 |
| RpgTraitPanel.HeaderBar | src/frontend/src/components/dashboard/RPGTraitPanel.tsx:63-66 | below the top level the total is under the next threshold and the bar under 100; the bar is full exactly when the total reaches the threshold |
| RpgTraitPanel.Bar | src/frontend/src/components/dashboard/RPGTraitPanel.tsx:109-110 | a trait bar is at most 100 and equals the score up to 100, with a level name from the table |
| RewardEngine.ThresholdRequestsIff | src/backend/lib/rewardEngine.ts:32-37 | a milestone or streak value v is requested exactly when the count is at least v |
| RewardEngine.BelowEveryThreshold | src/backend/lib/rewardEngine.ts:63-68 | a count below every threshold requests nothing |
| RewardEngine.PillarRequestsIff | src/backend/lib/rewardEngine.ts:81-85 | a pillar reward with criteria 3 is requested exactly for each pillar whose count is at least 3 |
| RewardEngine.GrantAllGrows | src/backend/lib/rewardEngine.ts:88-123 | granting never removes a row: the old rows are a prefix of the new |
| RewardEngine.GrantAllContents | src/backend/lib/rewardEngine.ts:97-122 | a row is present afterwards iff it was before or it is this child's reward for some request whose reward exists |
| RewardEngine.GrantAllNoDuplicates | src/backend/lib/rewardEngine.ts:108-122 | no (child, reward) pair is ever inserted twice |
| RewardEngine.GrantAllAlreadyGranted | src/backend/lib/rewardEngine.ts:114 | when every existing reward is already granted, nothing changes |
| RewardEngine.GrantAllIdempotent | src/backend/lib/rewardEngine.ts:108-122 | a second identical evaluation leaves the granted rows unchanged |
| RewardEngine.NoRewardNoRow | src/backend/lib/rewardEngine.ts:103-106 | with no matching reward row nothing is inserted |
| RewardEngine.GrantStep | src/backend/lib/rewardEngine.ts:88-123 | one grant keeps every row and adds at most one: this child's reward, exactly when the reward exists and was not yet granted |
| RewardEngine.ChildRewards.constructor | src/backend/lib/rewardEngine.ts:110-121 | the `child_rewards` table starts with the given rows |
| RewardEngine.ChildRewards.GrantRewardIfNew | src/backend/lib/rewardEngine.ts:88-123 | the rows after one call are one grant step on the rows before |
| RewardEngine.ChildRewards.GrantThresholds | src/backend/lib/rewardEngine.ts:32-37 | the loop grants exactly the threshold requests, in order |
| RewardEngine.ChildRewards.GrantPillars | src/backend/lib/rewardEngine.ts:81-85 | the loop grants exactly the pillar requests, in order |
| RewardEngine.ChildRewards.EvaluateAndGrantRewardsAsWritten | src/backend/lib/rewardEngine.ts:20-86 | as written: the milestone and streak rewards are granted, then iterating the query result object throws |
| RewardEngine.ChildRewards.EvaluateAndGrantRewards | src/backend/lib/rewardEngine.ts:20-86 | corrected: the rows get the milestone, streak and pillar requests, in that order |
| RewardEngine.PillarRewardNeverGranted | src/backend/lib/rewardEngine.ts:81 | a child with three challenges of pillar 1 gets no pillar reward as written, and gets it when the loop reads `.results` |
| RewardEngine.Find | src/backend/lib/rewardEngine.ts:258 | `find` gives a value of the list above the total, or none when no value is above it |
| RewardEngine.NextMilestone | src/backend/lib/rewardEngine.ts:258 | the next milestone is one of 5, 10 and 20, above the total unless it is the last one |
| RewardEngine.NextMilestoneIsSmallestAbove | src/backend/lib/rewardEngine.ts:257-258 | the next milestone is the smallest of 5, 10, 20 above the total, else 20 |
| RewardEngine.OrZero | src/backend/lib/rewardEngine.ts:267-268 | a null streak reads as 0 |
| RewardEngine.ChildProgress | src/backend/lib/rewardEngine.ts:140-271 | no child row throws; an empty age range is "Child not found"; otherwise the totals, the streaks defaulted to 0 and the next milestone |
| Lists.SortBySorted | src/frontend/src/components/challenges/GroupedChallenges.tsx:29-30 | sorting with a total preorder (the `localeCompare` comparator) gives a sorted permutation of the input |
| Lists.StrLeTotalPreorder | src/frontend/src/components/challenges/GroupedChallenges.tsx:30 | the string order used for `localeCompare` is total, reflexive and transitive |
| Lists.FilterMembers | src/frontend/src/pages/AllChallengesPage.tsx:91-95 | an element survives `filter` exactly when it is in the input and the predicate holds of it |
| Lists.FilterOrder | src/frontend/src/pages/AllChallengesPage.tsx:91-95 | `filter` keeps the input order: its result is a subsequence of the input |
| Lists.DistinctByUnique | src/frontend/src/components/pillars/ExpandedPillar.tsx:75-80 | the first-of-each-key reduce never keeps two elements with the same key |
| Lists.DistinctByCovers | src/frontend/src/components/pillars/ExpandedPillar.tsx:75-80 | every key of the input is the key of some kept element |
| Lists.DistinctByFirst | src/frontend/src/components/pillars/ExpandedPillar.tsx:76-77 | the first element with a given key is the one kept |
| Lists.DistinctByOrder | src/frontend/src/components/pillars/ExpandedPillar.tsx:75-80 | the kept elements appear in input order |
| Lists.DistinctByTwice | src/frontend/src/components/pillars/ExpandedPillar.tsx:75-80 | deduplicating twice is the same as deduplicating once |
| GroupedChallenges.GroupByTitle | src/frontend/src/components/challenges/GroupedChallenges.tsx:19-26 | the reduce yields one key per distinct title, in order of first appearance, and under each title exactly the challenges with that title, in input order |
| GroupedChallenges.TitlesInOrderCovers | src/frontend/src/components/challenges/GroupedChallenges.tsx:19-29 | the keys in order of first appearance: every challenge's title is a key, and every key is some challenge's title |
| GroupedChallenges.NoTitleNoGroup | src/frontend/src/components/challenges/GroupedChallenges.tsx:21-24 | a title no earlier challenge has collects nothing, so a freshly created group starts empty |
| GroupedChallenges.SortedGroups | src/frontend/src/components/challenges/GroupedChallenges.tsx:29-30 | one (title, group) entry per key |
| GroupedChallenges.TitlesDistinct | src/frontend/src/components/challenges/GroupedChallenges.tsx:19-26 | no title is a key of the grouped object twice |
| GroupedChallenges.SortedGroupsOrdered | src/frontend/src/components/challenges/GroupedChallenges.tsx:29-30 | the entries are in strictly increasing title order |
| GroupedChallenges.SortedGroupsMembers | src/frontend/src/components/challenges/GroupedChallenges.tsx:19-30 | a group holds only challenges of the input, each with the group's title |
| GroupedChallenges.SortedGroupsCover | src/frontend/src/components/challenges/GroupedChallenges.tsx:19-30 | every challenge is in the group of its own title |
| GroupedChallenges.TotalPages | src/frontend/src/components/challenges/GroupedChallenges.tsx:33 | `Math.ceil(count / itemsPerPage)`: the pages hold all items, and one page fewer would not |
| GroupedChallenges.Page | src/frontend/src/components/challenges/GroupedChallenges.tsx:34-36 | a page slice has at most itemsPerPage entries |
| GroupedChallenges.PagesPartition | src/frontend/src/components/challenges/GroupedChallenges.tsx:33-36 | pages 1 to totalPages, concatenated, are exactly the sorted groups: none lost, none repeated |
| GroupedChallenges.PagesNonEmpty | src/frontend/src/components/challenges/GroupedChallenges.tsx:33-36 | every page from 1 to totalPages has between 1 and itemsPerPage entries |
| GroupedChallenges.PaginationShownIff | src/frontend/src/components/challenges/GroupedChallenges.tsx:33-61 | the pagination controls appear exactly when there are more groups than fit on one page |
| GroupedChallenges.Pager.constructor | src/frontend/src/components/challenges/GroupedChallenges.tsx:16 | the page counter starts at 1 |
| GroupedChallenges.Pager.Previous | src/frontend/src/components/challenges/GroupedChallenges.tsx:64 | Previous goes back one page but never below 1 |
| GroupedChallenges.Pager.Next | src/frontend/src/components/challenges/GroupedChallenges.tsx:61-76 | Next, shown only with two pages or more, goes forward one page but never past totalPages |
| ExpandedPillar.UniqueChallenges | src/frontend/src/components/pillars/ExpandedPillar.tsx:75-80 | the loop keeps a challenge exactly when no earlier kept challenge has its title (the first-of-each-title list) |
| ExpandedPillar.UniqueChallengesProps | src/frontend/src/components/pillars/ExpandedPillar.tsx:75-80 | the kept titles are distinct, every input title is kept, the first challenge of each title is the one kept, order is preserved, and deduplicating again changes nothing |
| ExpandedPillar.RenderedChallenges | src/frontend/src/components/pillars/ExpandedPillar.tsx:141-145 | collapsed, no challenge type is listed; expanded, the unique challenges are |
| AllChallengesPage.FilteredChallenges | src/frontend/src/pages/AllChallengesPage.tsx:91-95 | filtering never adds challenges |
| AllChallengesPage.NoSelectionKeepsAll | src/frontend/src/pages/AllChallengesPage.tsx:92-93 | with no pillar and no difficulty selected (falsy), every challenge is kept |
| AllChallengesPage.FilterExact | src/frontend/src/pages/AllChallengesPage.tsx:91-95 | a challenge is kept exactly when it is in the list and matches each selected filter; the order is kept |
| AllChallengesPage.AutoSelected | src/frontend/src/pages/AllChallengesPage.tsx:38-41 | a family with exactly one child has that child selected; otherwise the selection is unchanged |
| AllChallengesPage.PageView | src/frontend/src/pages/AllChallengesPage.tsx:108-135 | as written: once loaded, the empty message shows exactly when the unfiltered list is empty and the grid shows the unfiltered list |
| AllChallengesPage.SelectionsIgnored | src/frontend/src/pages/AllChallengesPage.tsx:121-127 | as written, the page does not depend on the pillar or difficulty selected |
| AllChallengesPage.NonMatchingChallengeShown | src/frontend/src/pages/AllChallengesPage.tsx:121-127 | a challenge of pillar 2 is shown with pillar 1 selected; the filtered page shows the empty message |
| AllChallengesPage.FilteredPageView | src/frontend/src/pages/AllChallengesPage.tsx:91-135 | once loaded, the empty message shows exactly when no challenge matches, and the grid shows the filtered list; otherwise the page is as written |
| AllChallengesPage.FilteredCardsMatch | src/frontend/src/pages/AllChallengesPage.tsx:91-133 | every card of the filtered grid is a loaded challenge that matches every selected filter |
| TrophyCase.Trophies | src/frontend/src/components/rewards/TrophyCase.tsx:9-15 | the placeholder shows exactly when the rewards are missing or empty |
| TrophyCase.Section | src/frontend/src/components/rewards/TrophyCase.tsx:17-27 | a section holds only rewards of its type, and no more entries than the input |
| TrophyCase.ComparatorsArePreorders | src/frontend/src/components/rewards/TrophyCase.tsx:19-27 | both comparators, by criteria value and by pillar id with a missing id as 0, are total preorders |
| TrophyCase.SectionIsPermutation | src/frontend/src/components/rewards/TrophyCase.tsx:17-27 | a section is a permutation of the rewards of its type: a reward is in it exactly when it is a reward of that type |
| TrophyCase.SectionsSorted | src/frontend/src/components/rewards/TrophyCase.tsx:17-27 | milestones and streaks are in ascending criteria value, pillar rewards in ascending pillar id |
| TrophyCase.SectionsPartition | src/frontend/src/components/rewards/TrophyCase.tsx:17-27 | each section holds exactly the rewards of its type |
| TrophyCase.SectionsDisjoint | src/frontend/src/components/rewards/TrophyCase.tsx:17-27 | no reward appears in two sections |
| OnboardingState.WithoutIndex | src/frontend/src/components/onboarding/OnboardingState.tsx:43-45 | removing by index never lengthens the list |
| OnboardingState.WithoutIndexSplices | src/frontend/src/components/onboarding/OnboardingState.tsx:43-45 | filtering out position `index` removes exactly that element when it is in range and changes nothing otherwise |
| OnboardingState.AddThenRemoveLast | src/frontend/src/components/onboarding/OnboardingState.tsx:39-45 | removing the child just added restores the previous list |
| OnboardingState.Onboarding.constructor | src/frontend/src/components/onboarding/OnboardingState.tsx:30-33 | onboarding starts at step 1 with empty user, family and child data |
| OnboardingState.Onboarding.SetCurrentStep | src/frontend/src/components/onboarding/OnboardingState.tsx:30-55 | sets the step and nothing else |
| OnboardingState.Onboarding.SetUserData | src/frontend/src/components/onboarding/OnboardingState.tsx:31-56 | sets the user name and email and nothing else |
| OnboardingState.Onboarding.SetFamilyData | src/frontend/src/components/onboarding/OnboardingState.tsx:32-57 | sets the family name and nothing else |
| OnboardingState.Onboarding.AddChild | src/frontend/src/components/onboarding/OnboardingState.tsx:39-41 | appends the child, keeping the earlier children in order, and changes nothing else |
| OnboardingState.Onboarding.RemoveChild | src/frontend/src/components/onboarding/OnboardingState.tsx:43-45 | removes the child at `index` when it exists, leaves the list as it was otherwise, and changes nothing else |
| FamilyChildScreen.AppendFreshName | src/frontend/src/components/onboarding/FamilyChildScreen.tsx:77-82 | appending a child whose name is not taken keeps the names distinct |
| FamilyChildScreen.ChildRequests | src/frontend/src/components/onboarding/FamilyChildScreen.tsx:40-48 | one create-child request per child, in list order |
| FamilyChildScreen.FirstFailure | src/frontend/src/components/onboarding/FamilyChildScreen.tsx:40-51 | the loop stops at the first child whose request fails, or after the last child |
| FamilyChildScreen.FirstFailureAt | src/frontend/src/components/onboarding/FamilyChildScreen.tsx:50 | when child k fails and all before it succeed, the loop stops at k |
| FamilyChildScreen.Submitted | src/frontend/src/components/onboarding/FamilyChildScreen.tsx:17-70 | reaching the dashboard leaves no error; when no request is rejected with an empty message, the dashboard is reached exactly when no error is set |
| FamilyChildScreen.SubmittedErrors | src/frontend/src/components/onboarding/FamilyChildScreen.tsx:24-67 | the error is the no-token text, or the first failing request's rejection message, or that step's own text after a non-ok response |
| FamilyChildScreen.SubmittedOrder | src/frontend/src/components/onboarding/FamilyChildScreen.tsx:25-64 | completion is posted only after the family and every child were created, in that order; the dashboard opens exactly when the token exists and every request succeeds |
| FamilyChildScreen.SignedInSubmitFindsNoToken | src/frontend/src/components/onboarding/FamilyChildScreen.tsx:24-25 | as written, a user signed in by `login` (token under `token`, no `jwt` entry) gets the no-token error and no request is sent |
| FamilyChildScreen.SignedInSubmitProceeds | src/frontend/src/components/onboarding/FamilyChildScreen.tsx:24-64 | reading the `token` key, a signed-in user's submit sends the family request first and reaches the dashboard exactly when every request succeeds |
| FamilyChildScreen.Screen.constructor | src/frontend/src/components/onboarding/FamilyChildScreen.tsx:7-15 | the form starts empty, with no error and not submitting |
| FamilyChildScreen.Screen.HandleAddChild | src/frontend/src/components/onboarding/FamilyChildScreen.tsx:72-84 | an empty name does nothing; a taken name sets the duplicate error; otherwise the child is appended and the form cleared; distinct names stay distinct |
| FamilyChildScreen.Screen.HandleSubmit | src/frontend/src/components/onboarding/FamilyChildScreen.tsx:17-70 | with the button enabled (at least one child), the token is read from the key sign-in writes; the requests, error and navigation are those of `Submitted` (each failure shows a rejection's own message or the step's text), the first child request follows the family request, and submitting ends |
| PracticePage.Advance | src/frontend/src/pages/PracticePage.tsx:61-68 | the next position stays within the modules and never moves to an earlier module or, within the module, an earlier step |
| PracticePage.AdvanceForward | src/frontend/src/pages/PracticePage.tsx:61-97 | moving on never goes backwards, and stays put exactly at the last step of the last module |
| PracticePage.AdvanceInBounds | src/frontend/src/pages/PracticePage.tsx:61-97 | from a valid position, with no empty module, the next position is valid |
| PracticePage.ProgressPercent | src/frontend/src/pages/PracticePage.tsx:157 | for a valid step the bar is above 0 and at most 100, full exactly at the last step |
| PracticePage.Practice.constructor | src/frontend/src/pages/PracticePage.tsx:13-19 | the page starts at module 0, step 0, with nothing selected, no reflection and no error |
| PracticePage.Practice.HandleOptionSelect | src/frontend/src/pages/PracticePage.tsx:40-203 | without a child or module nothing happens; otherwise the option is selected, the progress is posted, and the position advances (clearing the selection when it moves) or the update error is set |
| PracticePage.Practice.HandleReflectionSubmit | src/frontend/src/pages/PracticePage.tsx:75-101 | without a child or module nothing happens; otherwise the progress is posted, then the position advances (clearing the reflection when it moves) or the update error is set |
| UniversalChallengeModal.Cards | src/frontend/src/components/challenges/UniversalChallengeModal.tsx:60-96 | six cards, the reflection card last and only last |
| UniversalChallengeModal.Back | src/frontend/src/components/challenges/UniversalChallengeModal.tsx:190 | Back never goes below the first card and otherwise moves one card back |
| UniversalChallengeModal.Next | src/frontend/src/components/challenges/UniversalChallengeModal.tsx:226 | Next never goes past the last card and otherwise moves one card on |
| UniversalChallengeModal.BackNextClamp | src/frontend/src/components/challenges/UniversalChallengeModal.tsx:190-226 | Back and Next stay within the cards, Back stops at the first and Next at the last, and each undoes the other away from the ends |
| UniversalChallengeModal.Modal.constructor | src/frontend/src/components/challenges/UniversalChallengeModal.tsx:54-57 | the modal opens on the first card with the middle feeling (3), no reflection and nothing sent |
| UniversalChallengeModal.Modal.PressBack | src/frontend/src/components/challenges/UniversalChallengeModal.tsx:190-220 | moves one card back, never before the first, and changes nothing else |
| UniversalChallengeModal.Modal.PressNext | src/frontend/src/components/challenges/UniversalChallengeModal.tsx:226 | before the reflection card, moves exactly one card on and changes nothing else |
| UniversalChallengeModal.Modal.PickFace | src/frontend/src/components/challenges/UniversalChallengeModal.tsx:157-160 | on the reflection card, where the faces are drawn, the face at position i sets the feeling to i+1 and changes nothing else |
| UniversalChallengeModal.Modal.FeelingLabel | src/frontend/src/components/challenges/UniversalChallengeModal.tsx:171 | the label shown is always one of the five confidence labels |
| UniversalChallengeModal.Modal.HandleReflectionSubmit | src/frontend/src/components/challenges/UniversalChallengeModal.tsx:98-146 | from the reflection card, where the button is drawn: the reflection is posted with a feeling in 1..5; the challenge log is posted only if that succeeded; `onComplete` and `onClose` run only if both succeeded; submitting ends |
| TodayChallengeCards.StepAt | src/frontend/src/components/dashboard/TodayChallengeCards.tsx:122-142 | step k is shown when the challenge has a k-th step, and is missing otherwise |
| TodayChallengeCards.Cards | src/frontend/src/components/dashboard/TodayChallengeCards.tsx:114-157 | the tip, steps 1 to 3, the example dialogue and the completion card, in that order; only the last is the completion card |
| TodayChallengeCards.Render | src/frontend/src/components/dashboard/TodayChallengeCards.tsx:103-219 | no challenge gives the placeholder; otherwise the stack is the cards from the current one on, and the top card has Next exactly when it is not the last |
| TodayChallengeCards.TodayCards.constructor | src/frontend/src/components/dashboard/TodayChallengeCards.tsx:42-46 | starts on the first card, completed as the challenge says, with no reflection modal, no error and nothing sent; `isCompleting` is false and every handler keeps it false |
| TodayChallengeCards.TodayCards.PressNext | src/frontend/src/components/dashboard/TodayChallengeCards.tsx:213-216 | Next, shown only below the last card, moves one card on; completion, the modal, the requests, the error and the completion count are unchanged |
| TodayChallengeCards.TodayCards.HandleMarkComplete | src/frontend/src/components/dashboard/TodayChallengeCards.tsx:99-101 | opens the reflection modal; the card, completion, the requests, the error and the completion count are unchanged |
| TodayChallengeCards.TodayCards.CloseReflection | src/frontend/src/components/dashboard/TodayChallengeCards.tsx:235-238 | closes the reflection modal; the card, completion, the requests, the error and the completion count are unchanged |
| TodayChallengeCards.TodayCards.HandleReflectionSubmit | src/frontend/src/components/dashboard/TodayChallengeCards.tsx:50-97 | without a token nothing is posted; the log is posted only after the reflection saved; the challenge becomes completed only when both succeeded; the error is the no-token text, or the first failing request's rejection message, or that step's own text after a non-ok response; the modal closes |
| PrivateRoute.Decide | src/frontend/src/components/PrivateRoute.tsx:16-40 | signed out goes home; no user yet shows loading; an onboarded user on an onboarding page goes to the dashboard; a user not onboarded on the dashboard goes to onboarding; access is granted exactly in the remaining cases |
| PrivateRoute.RedirectsSettle | src/frontend/src/components/PrivateRoute.tsx:16-37 | following a redirect once, a signed-in user is granted the target; a signed-out user is sent home again |
| AuthContext.ResolveSelection | src/frontend/src/contexts/AuthContext.tsx:113-129 | the selection is the current one, the stored one, the backend's or the first child's, and whatever is written to storage is what is selected |
| AuthContext.ResolveSelectionOrder | src/frontend/src/contexts/AuthContext.tsx:116-129 | a stored id of a known child wins and is not rewritten; else the backend's id is selected and stored; else the first child is selected and stored; with no children the selection is unchanged |
| AuthContext.WriteSelection | src/frontend/src/contexts/AuthContext.tsx:123-128 | writing the selection sets only the selected-child key |
| AuthContext.SelectionStoredWhenChosen | src/frontend/src/contexts/AuthContext.tsx:113-129 | whenever the selection changes to some child, storage then holds that child's id |
| AuthContext.Auth.constructor | src/frontend/src/contexts/AuthContext.tsx:71-75 | signed out, loading, with no user, token or selection |
| AuthContext.Auth.FetchUserData | src/frontend/src/contexts/AuthContext.tsx:77-141 | on success sets the user and resolves the selection; on failure removes the token and signs out, and rethrows; loading ends either way |
| AuthContext.Auth.RestoreSession | src/frontend/src/contexts/AuthContext.tsx:143-161 | with no stored token nothing changes; otherwise the stored token is used and a stored child id is selected first; the session ends signed in with the profile and the selection resolved from that stored id (and written to storage when it changes), or signed out with the token removed and the stored selection kept |
| AuthContext.Auth.Login | src/frontend/src/contexts/AuthContext.tsx:163-170 | the new token is stored and the user loaded, with the selection resolved and written after the token; on failure the token is removed again, the selection is unchanged, the user is signed out and the error rethrown |
| AuthContext.Auth.Logout | src/frontend/src/contexts/AuthContext.tsx:183-188 | removes the token and the selected child from storage and clears the session |
| AuthContext.Auth.SetSelectedChildId | src/frontend/src/contexts/AuthContext.tsx:191-216 | a child id is stored, selected and sent to the backend when signed in; no id clears the stored and selected child |
| Jwt.ToBase64Chars | src/backend/lib/jwt.ts:42 | each `-` becomes `+`, each `_` becomes `/`, nothing else changes, and no URL-safe character remains |
| Jwt.Pad | src/backend/lib/jwt.ts:44 | padding with `=` to the next multiple of four, fewer than four added, a multiple of four unchanged |
| Jwt.Base64UrlDecode | src/backend/lib/jwt.ts:40-46 | input that is already padded standard base64 (no `-` or `_`, length a multiple of four) is handed to `atob` unchanged |
| Jwt.DecodeJwtFirstTwo | src/backend/lib/jwt.ts:49-54 | only the first two dot-separated parts, header and payload, are decoded; the signature is ignored |
| Jwt.DecodeJwt | src/backend/lib/jwt.ts:49-54 | a token without a `.` has no payload segment and fails |
| Jwt.DigitPrefix | src/backend/lib/jwt.ts:73 | the `\d+` match: the longest run of digits at the front |
| Jwt.DigitPrefixOf | src/backend/lib/jwt.ts:73 | digits followed by a non-digit give exactly those digits |
| Jwt.MaxAgeMatch | src/backend/lib/jwt.ts:73 | a match is a non-empty digit string that occurs after `max-age=` in the header |
| Jwt.MaxAgeMatchLeftmost | src/backend/lib/jwt.ts:73 | there is no match exactly when the header holds no `max-age=` followed by a digit; a match captures the digits at the leftmost such directive |
| Jwt.MaxAgeMatchAt | src/backend/lib/jwt.ts:73 | at a directive with none before it, the capture is the run of digits after `max-age=` |
| Jwt.MaxAgeMatchFront | src/backend/lib/jwt.ts:73 | a header starting `max-age=` and digits matches exactly those digits |
| Jwt.Expiry | src/backend/lib/jwt.ts:74 | the expiry is never before now |
| Jwt.ExpiryFromMaxAge | src/backend/lib/jwt.ts:72-74 | a header whose first `max-age` directive is `max-age=n`, after any prefix, gives now + n seconds; a header with no such directive, or no header, gives now + one hour |
| Jwt.ExpiryPublicMaxAge | src/backend/lib/jwt.ts:72-74 | Google's `public, max-age=n, …` form gives now + n seconds |
| Jwt.CheckPayload | src/backend/lib/jwt.ts:121-138 | a payload is accepted, unchanged, exactly when `aud` or `azp` names the client and no present e-mail is unverified; a wrong audience gives "Invalid audience" and an unverified e-mail is rejected; the errors are the two the source throws |
| Jwt.GoogleVerifier.constructor | src/backend/lib/jwt.ts:57 | the certificate cache starts empty |
| Jwt.GoogleVerifier.FetchGoogleCerts | src/backend/lib/jwt.ts:59-86 | a cache still fresh is returned with no fetch; otherwise one fetch, and a good response replaces the cache with its keys and expiry while a bad one fails and leaves it |
| Jwt.GoogleVerifier.VerifyGoogleToken | src/backend/lib/jwt.ts:88-147 | succeeds exactly when the keys are available, the signature check passes and the payload checks pass, returning that payload; every failure is reported as `Invalid token`; a fresh cache is used with no fetch, otherwise one fetch is made and a good answer replaces the cache |
| PracticeProgress.AddStepSplits | src/backend/api/practice_progress.ts:38-47 | a step already listed leaves the list as it was; a new step is appended at the end |
| PracticeProgress.AddStepIdempotent | src/backend/api/practice_progress.ts:38-41 | recording the same step twice is the same as recording it once |
| PracticeProgress.AddStepKeepsEntries | src/backend/api/practice_progress.ts:38-47 | recording a step never drops or reorders the steps already listed |
| PracticeProgress.ProgressTable.constructor | src/backend/api/practice_progress.ts:31-34 | the table holds the given rows |
| PracticeProgress.ProgressTable.RecordStep | src/backend/api/practice_progress.ts:17-66 | a missing field gives 400 and no change; a database failure gives 500 and no change; otherwise an existing row gets the step added and a new row starts with the step alone, and the rest of the table is untouched |
| BearerAuth.BearerTokenOf | src/backend/api/flags.ts:8-16 | `Bearer t` with no space in t passes the header check, and splitting on the space gives back t |
| Flags.FlagsFor | src/backend/api/flags.ts:24-34 | the journal is always on; every other flag is on exactly when the user is premium |
| Flags.GetFlags | src/backend/api/flags.ts:8-45 | a header not starting `Bearer ` gives 401 and only then; with one, the flags are returned exactly when the token verifies and the subscription query answers, and 500 is returned exactly when either fails; the flags are premium exactly when the latest subscription is active |
| Flags.FreeFlags | src/backend/api/flags.ts:20-34 | no subscription, or one not active, gives the journal alone |
| BillingStatus.GetBillingStatus | src/backend/api/billing_status.ts:8-81 | a missing or empty child id gives 400 and only then; a query that throws gives 500 and only then; no child, no selecting user or no subscription gives the free answer; otherwise active exactly when the status is `active`, cancel-at-period-end exactly when the flag is 1, with the plan and period end passed through |
| MediaCreateUrl.ExtensionOf | src/backend/api/media_create_url.ts:31 | the extension is the part after the slash |
| MediaCreateUrl.AllowedExtensions | src/backend/api/media_create_url.ts:23-31 | the accepted types give the extensions jpeg, png and gif |
| MediaCreateUrl.HexString | src/backend/api/media_create_url.ts:32 | `toString('hex')`: two hex digits per byte |
| MediaCreateUrl.Filename | src/backend/api/media_create_url.ts:32 | 32 hex digits, a dot, then the extension |
| MediaCreateUrl.CreateUploadUrl | src/backend/api/media_create_url.ts:6-61 | corrected: 401 exactly without a bearer header; 500 when the token does not verify; for a verified user, 400 exactly for a type outside the three images and otherwise an upload with a one-hour lifetime, the random file name with the type's extension, and a key under the verified user's folder |
| MediaCreateUrl.CreateUploadUrlAsWritten | src/backend/api/media_create_url.ts:2-68 | as written, with `jwt` never imported: every request is 401 or 500 |
| MediaCreateUrl.MissingImportRejectsUpload | src/backend/api/media_create_url.ts:19 | a well-formed PNG request fails with 500 as written, while the corrected handler answers with an upload URL |
| MediaCreateUrl.UploadKeyShape | src/backend/api/media_create_url.ts:31-33 | for a verified user and an accepted type the key is `uploads/<user>/<filename>` and the filename ends in `.jpeg`, `.png` or `.gif` |
| ConfidenceStar.JsRem | src/frontend/src/components/rewards/ConfidenceStar.tsx:90 | JavaScript `%`: for a non-negative dividend it is the usual remainder below the divisor; for a negative one it lies between minus the divisor and 0 |
| ConfidenceStar.XpFill | src/frontend/src/components/rewards/ConfidenceStar.tsx:90 | for non-negative XP the fill is in [0, 1) and is empty exactly at a multiple of 150 |
| ConfidenceStar.StarFill | src/frontend/src/components/rewards/ConfidenceStar.tsx:83-92 | when every stored fill of pillars 1 to 5 is missing or zero and pillar progress exists, each of the five pillars gets its XP fill; otherwise the stored fill (or none) is used |
| ConfidenceStar.ComputeStarFill | src/frontend/src/components/rewards/ConfidenceStar.tsx:83-92 | the loop over pillars 1 to 5 computes exactly that fill |
| ConfidenceStar.FallbackFillRange | src/frontend/src/components/rewards/ConfidenceStar.tsx:86-91 | with non-negative XP the fallback fill of every pillar lies in [0, 1) |
| ConfidenceStar.PointsFrom | src/frontend/src/components/rewards/ConfidenceStar.tsx:117-128 | from a given pillar on, the points drawn are exactly the pillars with a non-zero fill, each with its fill, in increasing pillar order |
| ConfidenceStar.DrawnPoints | src/frontend/src/components/rewards/ConfidenceStar.tsx:117-128 | a star point is drawn for exactly the pillars 1 to 5 whose fill is non-zero (a missing fill counts as 0), in pillar order |
| ConfidenceStar.StarsLabel | src/frontend/src/components/rewards/ConfidenceStar.tsx:103 | the label starts with the count and ends in a plural `s` exactly when the count is not 1 |
| ConfidenceStar.Render | src/frontend/src/components/rewards/ConfidenceStar.tsx:72-128 | nothing is rendered exactly when there is no progress; otherwise the drawn points and the completed-stars label (count `|| 0`) |
| ChallengeCard.PillarLabel | src/frontend/src/components/challenges/ChallengeCard.tsx:66-70 | pillars 1 to 4 get their names; any other id shows `Courage` |
| ChallengeCard.DifficultyLabel | src/frontend/src/components/challenges/ChallengeCard.tsx:73-75 | levels 1 and 2 are Easy and Medium; any other level shows `Hard` |
| ChallengeCard.LabelsDistinguish | src/frontend/src/components/challenges/ChallengeCard.tsx:66-75 | within the five pillars and three levels, two labels are equal exactly when the ids are |
| ChallengeCard.ExpandedContent | src/frontend/src/components/challenges/ChallengeCard.tsx:112-162 | the details show exactly when the card is expanded: the goal, one item per step in order (one for a plain-text step), the dialogue and tip exactly when not empty, and the complete button exactly when expanded and not completed, disabled and relabelled while completing |
| ChallengeCard.Card.constructor | src/frontend/src/components/challenges/ChallengeCard.tsx:10-12 | collapsed, not completing, with no error |
| ChallengeCard.Card.ToggleExpanded | src/frontend/src/components/challenges/ChallengeCard.tsx:95 | flips the expanded state and changes nothing else |
| ChallengeCard.Card.HandleMarkComplete | src/frontend/src/components/challenges/ChallengeCard.tsx:14-51 | a completed challenge does nothing; otherwise the log is posted exactly when a token exists, success marks the challenge completed with no error, each failure leaves it and sets an error: a rejection's own message, or after a non-ok response the message of a body that cannot be read, else the server's error, else the default; completing ends; on an expanded card the complete button then disappears exactly when the post succeeded, and is never left disabled |
| CalendarPage.DaysInMonth | src/frontend/src/pages/CalendarPage.tsx:87 | `new Date(year, month + 1, 0)`: between 28 and 31 days, and February has 29 exactly in a leap year |
| CalendarPage.MakeDate | src/frontend/src/pages/CalendarPage.tsx:150-157 | the Date constructor's normalisation: the month carries into the year; a day that fits is kept, one past the month's end rolls into the next month |
| CalendarPage.ShiftMonthAsWritten | src/frontend/src/pages/CalendarPage.tsx:150-157 | as written, `setMonth(getMonth() ± 1)` keeps the day of the month and gives a valid date |
| CalendarPage.ShiftMonthAsWrittenMoves | src/frontend/src/pages/CalendarPage.tsx:150-157 | as written, the step moves by exactly one month exactly when the day exists in the target month, and by two otherwise |
| CalendarPage.MonthStepSkipsShortMonth | src/frontend/src/pages/CalendarPage.tsx:150-157 | from 31 January 2025 Next shows March (3 March), and from 31 March Previous shows March again; the corrected step shows February in both cases |
| CalendarPage.ShiftMonth | src/frontend/src/pages/CalendarPage.tsx:150-157 | corrected: the first of the month exactly delta months on |
| CalendarPage.ShiftMonthRoundTrip | src/frontend/src/pages/CalendarPage.tsx:150-157 | corrected: Next then Previous, or Previous then Next, returns to the same month |
| CalendarPage.DaysGridShape | src/frontend/src/pages/CalendarPage.tsx:83-101 | one blank per weekday before the first, then the days 1 to the last in order |
| CalendarPage.GetDaysInMonth | src/frontend/src/pages/CalendarPage.tsx:83-101 | the two loops build exactly that grid for the month's length |
| CalendarPage.Calendar.constructor | src/frontend/src/pages/CalendarPage.tsx:26-30 | shows today's month with nothing being scheduled and no error |
| CalendarPage.Calendar.StepMonth | src/frontend/src/pages/CalendarPage.tsx:150-157 | moves the shown month exactly one month back or on, and changes nothing else |
| CalendarPage.Calendar.DayClick | src/frontend/src/pages/CalendarPage.tsx:194-198 | a day not in the past, with scheduling enabled, becomes the day being scheduled; otherwise nothing changes |
| CalendarPage.Calendar.SelectPillar | src/frontend/src/pages/CalendarPage.tsx:224 | sets the chosen pillar and nothing else |
| CalendarPage.Calendar.Cancel | src/frontend/src/pages/CalendarPage.tsx:236-239 | clears the day and pillar being scheduled |
| CalendarPage.Calendar.HandleSchedulePillar | src/frontend/src/pages/CalendarPage.tsx:52-81 | without a day and pillar nothing happens; otherwise the request is sent, and the form is reset only when both the request and the refresh succeed; a failure sets the rejection's own message, or after a non-ok response the failing step's text |

## Left out

- I/O and plumbing are not modelled. This covers file reads and writes in the seed scripts, HTTP request and response objects, SQL text, D1 and fetch calls, and `localStorage` access. Each query result or response status is a parameter, and `localStorage` is a `map` field. A rejected request is a `Fetch.Rejected` carrying the thrown `Error`'s message; a thrown value that is not an `Error`, which would show the handler's default text, is not modelled, as `fetch` and `response.json()` reject with `Error`s.
- The CSV reader is not modelled. Rows arrive already parsed, with a missing field as `None`.
- `json.loads`, `JSON.parse` and `atob` are not modelled. Each is a function parameter that returns a value or a failure.
- JSON numbers are integers only. Floating-point literals in the steps column are not modelled.
- Signature checks are not modelled: jose `jwtVerify`, `jsonwebtoken.verify` and the S3 presigner. Each becomes a parameter (its verified payload or user id). The presigned URL itself is not modelled.
- The OpenAI call in the chatbot endpoint is not modelled. Its reply is an input.
- The streak query (a recursive SQL expression) in `rewardEngine.ts` is not modelled. The current streak is an input.
- `Date.now()`, `new Date()` and `randomBytes` are parameters: now, today, the first weekday of the month and 16 random bytes.
- The 1.5-second `setTimeout` in `PracticePage.tsx` is not modelled. The advance it schedules happens at once.
- `localeCompare` is modelled as code-point order, not locale collation.
- JavaScript numbers are modelled as unbounded integers where the code only counts, and as exact reals where it divides. Rounding is not modelled.
- The SVG geometry of the confidence star (`ConfidenceStar.tsx:26-69`) is not modelled. The model keeps which points are drawn and with what fill.
- In `Chatbot.tsx`, removing the tags and inserting the HTML in `renderMessage` are not modelled. Only the id extraction and the Start button are.
- ChallengeCard.Card.HandleMarkComplete holds the challenge as a field of the card. The parent's copy of the same object, which `challenge.is_completed = true` also changes, is not modelled.
- CalendarPage.Calendar.StepMonth uses the corrected month step (see Findings). The as-written step is modelled separately as `CalendarPage.ShiftMonthAsWritten`.
- JSX layout, styling and pure presentation are not modelled.
- Text.Lower lowers only the ASCII capitals, KELVIN SIGN and LATIN CAPITAL LETTER I WITH DOT ABOVE; other capitals stay as they are, where `toLowerCase` would lower them. These are the only characters whose lower case contains an ASCII letter, so matching the ASCII keywords is unaffected.
- MergeSeedScript.ParseInt accepts ASCII digits only. Python's `int` also accepts the other Unicode decimal digits, such as Arabic-Indic digits; they do not occur in the seed CSV.
- GroupedChallenges.GroupByTitle keys the groups by title in a `map`. The special keys of a JavaScript object, such as a title `__proto__`, are not modelled.
- FamilyChildScreen.Screen.HandleSubmit reads the token from the `token` key (see Findings). The key as written, `jwt`, is modelled by `FamilyChildScreen.SignedInSubmitFindsNoToken`. `CreateFamilyForm.tsx:21` reads the same key and is not part of this model.
- The seed script `convert_csv_to_sql.py` is modelled as Python 3.12 or later runs it: its line 28 nests an f-string that reuses the outer quote character, which earlier versions reject as a syntax error before printing anything.
- Flags.GetFlags and BillingStatus.GetBillingStatus model each database query as a lookup that answers or throws. The SQL itself is not modelled.

## Findings

| source | as written | input that shows it | evidently intended | confidence | as-written member | corrected member |
|---|---|---|---|---|---|---|
| src/frontend/src/components/Chatbot.tsx:178 | the Start button looks for tags in the message text, which the endpoint has already turned into links | a reply the endpoint rewrote from `[challenge:7]` to a link, with `challengeIds` `["7"]` | the button opens the first of the ids the endpoint returns | not executed | ChatbotView.RewrittenReplyLosesButton | ChatbotView.StartFromIdsOpensFirstTag |
| src/backend/lib/rewardEngine.ts:81 | the loop iterates the D1 result object, not its `.results` rows, so it throws after the milestone and streak grants | a child with three completed challenges of pillar 1 | a pillar reward for every pillar with at least three completions | not executed | RewardEngine.PillarRewardNeverGranted | RewardEngine.ChildRewards.EvaluateAndGrantRewards |
| src/frontend/src/pages/AllChallengesPage.tsx:121 | the empty message and the grid use `challenges`, so `filteredChallenges` is never shown | one challenge of pillar 2 with pillar 1 selected: it is still shown | the grid and the empty test use the filtered list | not executed | AllChallengesPage.NonMatchingChallengeShown | AllChallengesPage.FilteredCardsMatch |
| src/backend/api/media_create_url.ts:19 | `jwt.verify` is called but `jwt` is never imported, so the call throws inside the `try` | any request with `Bearer t` and type `image/png` gets 500 | a verified user gets an upload URL | not executed | MediaCreateUrl.MissingImportRejectsUpload | MediaCreateUrl.CreateUploadUrl |
| src/frontend/src/pages/CalendarPage.tsx:157 | `setMonth(getMonth() + 1)` keeps the day, so a day missing from the next month rolls over | 31 January 2025: Next shows March; 31 March: Previous shows March | move exactly one month back or on | not executed | CalendarPage.MonthStepSkipsShortMonth | CalendarPage.ShiftMonthRoundTrip |
| src/frontend/src/components/onboarding/FamilyChildScreen.tsx:24 | the submit reads the token from `localStorage` key `jwt`, but sign-in (`AuthContext.tsx:165`) stores it under `token`, and no modelled file writes `jwt` | a user who signed in with `login`: Complete Setup shows "No authentication token found" and sends nothing | read the `token` key that sign-in writes | not executed; medium (a file outside this model could write `jwt`) | FamilyChildScreen.SignedInSubmitFindsNoToken | FamilyChildScreen.SignedInSubmitProceeds |
