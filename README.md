# match_meds: medication-name reconciliation, modelled in Dafny

`ces-metadata/match_meds.py` reconciles a country's drug list (the SSA
list) with two reference vocabularies: the locally curated HUM drug list
and the CIEL concept dictionary. It works in three stages.

1. **The HUM stage** cleans every SSA drug name and scores it against the
   cleaned HUM names. A line whose best score is strictly above 80 becomes
   a match.
2. **The CIEL stage** does the same with the remaining lines against the
   CIEL names, using token-sort ratio and a limit of 70.
3. **The operator's stage** handles whatever is still left, one line at a
   time:
   - the operator is shown the two best HUM names, the best CIEL name by
     token-sort ratio and the six best CIEL names;
   - the operator types a number to pick one of them, or to pick nothing;
   - after every decided line, checkpoint files are rewritten.

Each stage writes its matches and its remainder to files. On a later run,
`main` skips a stage whose files are already there and resumes from the
checkpoint.

The model has one module per concern:

| module | what it models |
|---|---|
| `Text` | the parts of Python's `str` the normalisers use, over ASCII: `isspace`, `lower`, `strip`, `split()[0]` and `int()` |
| `Names` | `clean_csv_list` and the three `clean_*_drug_name` normalisers; each `re.split(p, s)[0]` is the prefix of `s` before the earliest match of `p` |
| `Fuzzy` | the fuzzywuzzy calls, over an abstract scorer: a dict comprehension (a later duplicate key replaces the value but keeps the key's place), `extractOne` (the first entry with the highest score) and `extract(limit)` (the `limit` best entries with distinct keys, best first, equal scores in dict order) |
| `Records` | the SSA line tuple, the match row, the CIEL items and the two reference mappings |
| `AutoMatch` | `extract_good_matches_hum` and `extract_good_matches_ciel` |
| `Files` | the output and intermediate files, as a store from path to contents (a `class` whose map field the writes update) |
| `Choice` | `extract_user_chosen_matches`: a specification on values (`ChoiceRun`), and the imperative loop against the store (`AskOperator`), proved equal to it |
| `Pipeline` | `main`: each stage as a function and as a method on the store, and the resume decisions |

The modelling choices that shape the whole project:

- **Scorers are parameters.** A scorer is any function from a query and a
  candidate name to a score in 0..100. `wratio` stands for fuzzywuzzy's
  default scorer; `tokenSort` stands for `fuzz.token_sort_ratio`.
- **Operator input is data.** What the operator types is a sequence of
  lines, and `input()` raising `EOFError` is running out of that sequence.
  The input is one stream: two prompts read from it, in program order.
  - The `Enter 'p'` prompt of every `save_matches_and_unmatched` call reads
    one line.
  - The choice prompts read the rest.
- **Crashes are outcomes.** The ways a run can stop are:
  - `extractOne` on an empty mapping, which returns `None` and causes a
    `TypeError`;
  - running out of input;
  - a number naming a slot past a short candidate list, an `IndexError`;
  - reading a file that is not there.

  Each is modelled as an outcome, not a precondition, because each
  depends on the files or on the input. Only these facts about the input
  are preconditions:
  - each row has the columns `main` indexes;
  - each SSA name has a word.

Three places where the code does less than its own comments and messages
say. The model follows the code in each, and the Findings below pair the
behaviour as written with a corrected version:

- **The CIEL stage's skip test.** Line 55 tests only the CIEL matches
  file, while the messages at lines 56-57 report both CIEL files as
  found. `Pipeline.MatchMeds` tests the matches file alone, as line 55
  does.
- **The operator's remainder.** The comment at line 248 and the
  docstring promise the lines with no match. Lines 249-251 compare clean
  names with display names, which keeps chosen lines in the remainder.
  `Choice.ExtractUserChosenMatches` and `Pipeline.ChoiceEnding` use that
  filter as written. For the automatic stages, lines are conserved
  (`AutoMatch.AutoStagePartition`, `AutoMatch.TwoStagesConserveLines`).
- **Resumed choices.** A resumed run starts `choice_matches` empty
  (line 192), so the final matches file holds only the last session's
  choices.

A number in 1..9 whose slot lies past the end of a short candidate list
raises `IndexError` (lines 231-238); only numbers outside 1..9 mean "no
choice". `Choice.Choose` follows this.

## Model

| member | source | states |
|---|---|---|
| Text.LowerChar | ces-metadata/match_meds.py:293 | the result is never an ASCII capital, anything else is unchanged, and whitespace stays whitespace |
| Text.IsSpace | ces-metadata/match_meds.py:294 | a whitespace character is no digit, no capital, and none of the delimiters `,`, `-` and `(` |
| Text.Lower | ces-metadata/match_meds.py:293 | `lower()` keeps the length and lower-cases each character in place |
| Text.LeadingSpace | ces-metadata/match_meds.py:294 | the count is exactly the whitespace run that opens the string |
| Text.TrailingSpace | ces-metadata/match_meds.py:294 | the index starts exactly the whitespace run that closes the string |
| Text.Strip | ces-metadata/match_meds.py:294 | `strip()` is the slice after the leading whitespace, followed by nothing but whitespace, that neither starts nor ends with whitespace; it is empty iff the string is all whitespace, and a string with no whitespace at either end is returned unchanged |
| Text.WordLength | ces-metadata/match_meds.py:302 | the length of the run of non-whitespace characters that opens the string |
| Text.FirstWord | ces-metadata/match_meds.py:302 | `split()[0]` is a non-empty slice starting at the first non-whitespace character, with no whitespace in it, followed by whitespace or the end |
| Text.DigitChar | ces-metadata/match_meds.py:208 | a digit below 10 prints as the digit character with that value |
| Text.ParseInt | ces-metadata/match_meds.py:225-227 | `int()` accepts only text holding at least one digit |
| Text.NatToDecimal | ces-metadata/match_meds.py:208 | a printed natural number is a non-empty string of digits |
| Text.IntToDecimal | ces-metadata/match_meds.py:208 | a printed integer is a string of digits, after a `-` when it is negative |
| Text.DecimalRoundTrip | ces-metadata/match_meds.py:208 | reading back a printed natural number gives that number |
| Text.ParsePrintedInt | ces-metadata/match_meds.py:207-227 | `int(str(n)) == n` for every integer |
| Names.NonBlank | ces-metadata/match_meds.py:285 | the kept rows are rows of the input, none of them blank, and they number the input minus its blank rows |
| Names.NonBlankAppend | ces-metadata/match_meds.py:285 | dropping blank rows distributes over concatenation, so the input order is kept |
| Names.AllBlank | ces-metadata/match_meds.py:285 | a list of blank rows cleans to nothing |
| Names.CleanCsvList | ces-metadata/match_meds.py:283-285 | the result rows are non-blank input rows, and there are as many as the non-blank rows minus the header, or none when every row is blank |
| Names.CleanCsvListDropsHeader | ces-metadata/match_meds.py:283-285 | when row `h` is the first non-blank row, the result is exactly the non-blank rows after it, in order |
| Names.CleanCielDrugName | ces-metadata/match_meds.py:288-289 | the CIEL clean name has the same length, no ASCII capital, and every other character unchanged |
| Names.FirstHumDelimFrom | ces-metadata/match_meds.py:294 | finds the earliest comma or digit, or the end when there is none |
| Names.FirstHumDelimUnique | ces-metadata/match_meds.py:294 | the earliest HUM delimiter position is unique |
| Names.CleanHumDrugName | ces-metadata/match_meds.py:292-295 | the HUM clean name has no comma, no digit and no capital, and neither starts nor ends with whitespace |
| Names.CleanHumDrugNameIsStrippedHead | ces-metadata/match_meds.py:292-295 | the HUM clean name is the stripped lower-cased text before the first comma or digit, and the whole stripped lower-cased name when there is neither |
| Names.FirstSsaDelimFrom | ces-metadata/match_meds.py:300 | finds the earliest `,`, `de`, `-`, `(` or digit, or the end when there is none |
| Names.FirstSsaDelimUnique | ces-metadata/match_meds.py:300 | the earliest SSA delimiter position is unique |
| Names.PrefixSliceHasNoSsaDelim | ces-metadata/match_meds.py:300 | a slice ending at or before the first delimiter holds no delimiter, not even a `de` that straddles its end |
| Names.SsaHeadHasNoDelim | ces-metadata/match_meds.py:300 | the stripped text before the first SSA delimiter holds no delimiter |
| Names.CleanSsaDrugName | ces-metadata/match_meds.py:298-307 | on a name with a word, the SSA clean name is never empty and has no capital |
| Names.CleanSsaDrugNameIsHeadOrFirstWord | ces-metadata/match_meds.py:298-307 | a non-empty stripped head before the first delimiter is the SSA clean name and is free of delimiters; an empty head gives way to the first word of the lower-cased name; with no delimiter the result is the whole stripped lower-cased name |
| Names.FirstWordKeepsChars | ces-metadata/match_meds.py:302 | the first word takes its characters from the string |
| Names.StripKeepsChars | ces-metadata/match_meds.py:294 | stripping adds no character |
| Names.LowerHasNoUpper | ces-metadata/match_meds.py:293 | a lower-cased string holds no ASCII capital |
| Names.LowerKeepsWords | ces-metadata/match_meds.py:299-302 | a name with a word still has a word after lower-casing, so `split()[0]` cannot fail on it |
| Fuzzy.IndexOfCode | ces-metadata/match_meds.py:102 | the position of the first entry with the code, or the end when no entry has it |
| Fuzzy.Insert | ces-metadata/match_meds.py:102 | `d[code] = name` puts the new pair in the dict; a code already there keeps its place and every other entry stays where it was; a new code goes at the end |
| Fuzzy.BuildMapping | ces-metadata/match_meds.py:102 | a dict comprehension holds each code once, and exactly the codes of its pairs |
| Fuzzy.InsertFacts | ces-metadata/match_meds.py:102 | `d[code] = name` keeps codes unique, adds the code, and keeps every entry with another code |
| Fuzzy.BuildMappingLastWins | ces-metadata/match_meds.py:102 | every entry of the dict is the last pair with its code |
| Fuzzy.ArgMax | ces-metadata/match_meds.py:106 | the position of the first entry with the highest score: no entry scores above it, and every entry before it scores below it |
| Fuzzy.ExtractOne | ces-metadata/match_meds.py:106 | `extractOne` returns an entry of the mapping with its own score, and no entry scores above it |
| Fuzzy.RemoveAt | ces-metadata/match_meds.py:196-204 | removing position `i` shifts the later entries down by one |
| Fuzzy.TopK | ces-metadata/match_meds.py:196-204 | `extract(limit=k)` returns `min(k, size)` entries of the mapping with their scores and distinct codes, higher scores first and equal scores in dict order; every entry left out scores lower than each one returned, or the same and comes later in the dict |
| Fuzzy.TopKCons | ces-metadata/match_meds.py:196-204 | the best entry in front of the best of the others is again a valid top list |
| Fuzzy.RemoveAtSubset | ces-metadata/match_meds.py:196-204 | removing an entry leaves only entries of the mapping |
| Fuzzy.ConsScoredFrom | ces-metadata/match_meds.py:196-204 | the best entry in front of candidates from the others are all candidates from the mapping |
| Fuzzy.RestBelowBest | ces-metadata/match_meds.py:196-204 | no candidate from the other entries scores above the best entry |
| Fuzzy.ConsNonIncreasing | ces-metadata/match_meds.py:196-204 | the best entry in front keeps the scores non-increasing |
| Fuzzy.ConsKeepsTheBest | ces-metadata/match_meds.py:196-204 | the best entry in front keeps every left-out entry below every returned one |
| Fuzzy.TopKStartsWithExtractOne | ces-metadata/match_meds.py:196-204 | the first of `extract` is `extractOne` with the same scorer |
| Fuzzy.TopKConsRank | ces-metadata/match_meds.py:196-204 | the first best entry in front of the ranked others keeps the ranking: higher scores first, equal scores in dict order |
| Fuzzy.ConsRanked | ces-metadata/match_meds.py:196-204 | a candidate ranked before all the others, in front of a ranked list, gives a ranked list |
| Fuzzy.RankHead | ces-metadata/match_meds.py:196-204 | no entry left after removing the first best one scores above it, and one that scores the same comes later in the dict |
| Fuzzy.RankTail | ces-metadata/match_meds.py:196-204 | removing an entry keeps the dict order of the others, so their ranking carries over |
| Fuzzy.BestComesFirst | ces-metadata/match_meds.py:106 | `max` returns the first best entry: every other entry scores lower, or the same and comes later |
| Fuzzy.TopKConsLeftOut | ces-metadata/match_meds.py:196-204 | putting the first best entry in front keeps every left-out entry ranked after every candidate |
| Fuzzy.ConsLeftOut | ces-metadata/match_meds.py:196-204 | an entry ranked after the head and after each of the others is ranked after the whole list |
| Fuzzy.LeftOutStep | ces-metadata/match_meds.py:196-204 | an entry left out of the ranked others stays ranked after them once the best entry is back in the dict |
| Fuzzy.RankedCodesDistinct | ces-metadata/match_meds.py:196-204 | ranked candidates drawn from a dict never repeat a code |
| Fuzzy.RemoveAtUnique | ces-metadata/match_meds.py:196-204 | removing an entry from a dict leaves a dict without that entry's code |
| Fuzzy.IndexOfCodeAt | ces-metadata/match_meds.py:102 | in a dict the position of an entry's code is the entry's own |
| Fuzzy.PositionAfterRemove | ces-metadata/match_meds.py:196-204 | an entry of the dict with one entry removed sits at the same place, or one place earlier when it came after the removed one |
| Fuzzy.EntryPosition | ces-metadata/match_meds.py:196-204 | a candidate drawn from a dict is the entry at its code's position, with that entry's score |
| Records.SsaLines | ces-metadata/match_meds.py:39 | one SSA line per row, carrying the row's code, name and moa, with a non-empty clean name |
| Records.HumMapping | ces-metadata/match_meds.py:102 | the HUM mapping holds each concept code once, exactly the codes of the rows, and is empty iff there are no rows |
| Records.HumMappingLastRowWins | ces-metadata/match_meds.py:102 | a duplicated HUM concept code keeps the clean name of its last row |
| Records.CielCode | ces-metadata/match_meds.py:135 | every CIEL code starts with `CIEL:` |
| Records.CielMapping | ces-metadata/match_meds.py:134-137 | the CIEL mapping holds each code once, exactly the codes of the items, and is empty iff there are no items |
| Records.CielMappingLastItemWins | ces-metadata/match_meds.py:134-137 | a duplicated CIEL id keeps the clean display name of its last item |
| AutoMatch.GoodLines | ces-metadata/match_meds.py:108 | the good lines are exactly the input lines whose best score is strictly above the limit |
| AutoMatch.NotGoodLines | ces-metadata/match_meds.py:108 | the other lines are exactly the input lines whose best score is at most the limit |
| AutoMatch.CleanNames | ces-metadata/match_meds.py:116 | the names list holds exactly the clean names of the lines |
| AutoMatch.WithoutNames | ces-metadata/match_meds.py:118 | the filter keeps exactly the lines whose clean name is not in the list |
| AutoMatch.MatchRows | ces-metadata/match_meds.py:111-113 | the `k`-th row is the `k`-th good line with its best candidate's code, name and score |
| AutoMatch.ExtractGoodMatches | ces-metadata/match_meds.py:105-120 | every match row has an automatic score strictly above the limit and names an entry of the mapping |
| AutoMatch.GoodMatchIffAboveLimit | ces-metadata/match_meds.py:108-113 | a line's row, built from its best candidate, is among the matches iff that candidate's score is strictly above the limit |
| AutoMatch.MatchRowsComeFromLines | ces-metadata/match_meds.py:105-113 | every match row is the formatted best candidate of a good input line |
| AutoMatch.SameCleanNameSameBest | ces-metadata/match_meds.py:106 | two lines with one clean name have one best candidate |
| AutoMatch.RemainderIsNotGood | ces-metadata/match_meds.py:116-118 | the clean-name filter leaves exactly the lines that are not good, in input order |
| AutoMatch.SuffixWithoutNames | ces-metadata/match_meds.py:116-118 | the same for every suffix of the input |
| AutoMatch.GoodAndNotGoodCount | ces-metadata/match_meds.py:108-118 | good lines and other lines number the input |
| AutoMatch.AutoStagePartition | ces-metadata/match_meds.py:105-120 | matches and remainder number the input, and the remainder holds exactly the lines that are not good |
| AutoMatch.AutoStageIdempotent | ces-metadata/match_meds.py:105-120 | running a stage again on its own remainder matches nothing and leaves the remainder as it is |
| AutoMatch.NotGoodFixed | ces-metadata/match_meds.py:108-118 | on lines none of which is good, nothing is good and everything remains |
| AutoMatch.ExtractGoodMatchesHum | ces-metadata/match_meds.py:89-120 | every HUM match scores strictly above 80 and carries the concept code of a HUM row |
| AutoMatch.ExtractGoodMatchesCiel | ces-metadata/match_meds.py:123-161 | every CIEL match scores strictly above 70 and carries the code of a CIEL item |
| AutoMatch.TwoStagesConserveLines | ces-metadata/match_meds.py:49-65 | HUM matches, CIEL matches and the CIEL remainder together number the SSA lines |
| Files.LinesIn | ces-metadata/match_meds.py:277-280 | reading a file of lines succeeds exactly when the file is there and holds lines, and gives those lines |
| Files.Saved | ces-metadata/match_meds.py:255-274 | saving adds the two paths, puts the matches in one and the remainder in the other, and changes no other file |
| Files.SavedWellKinded | ces-metadata/match_meds.py:271-274 | saving to a matches path and a lines path keeps every file holding the kind of rows its path gets |
| Files.Store.constructor | ces-metadata/match_meds.py:21-29 | the store starts with the given files |
| Files.Store.Write | ces-metadata/match_meds.py:315-318 | `write_to_csv` replaces that one file and leaves the others |
| Files.Store.SaveMatchesAndUnmatched | ces-metadata/match_meds.py:255-274 | the new files are `Saved` of the old ones |
| Choice.OptionsFor | ces-metadata/match_meds.py:196-204 | at most two HUM and six CIEL candidates, fewer only when the mapping is smaller; the token-sort candidate outscores every CIEL entry |
| Choice.Menus | ces-metadata/match_meds.py:193-204 | one menu per line, the options for that line |
| Choice.MenusSuffix | ces-metadata/match_meds.py:193-204 | the menus of a suffix of the lines are that suffix of the menus |
| Choice.Choose | ces-metadata/match_meds.py:230-238 | the slot table: 1-2 pick a HUM candidate, 3 picks the token-sort CIEL candidate, 4-9 pick a CIEL candidate (a slot past a short list is an `IndexError`), and any other integer picks nothing |
| Choice.PrintedLabelsSelectTheirCandidates | ces-metadata/match_meds.py:205-238 | typing back the number printed before a candidate selects that candidate, and 0 selects nothing |
| Choice.LabelsAreDistinct | ces-metadata/match_meds.py:205-220 | the printed numbers are all different and lie in 1..9 |
| Choice.Answers | ces-metadata/match_meds.py:222-229 | one answer, the result of `int()`, per input line |
| Choice.AnswerAt | ces-metadata/match_meds.py:225-227 | the `k`-th answer is `int()` of the `k`-th line |
| Choice.AnswersAppend | ces-metadata/match_meds.py:222-229 | the answers to more input extend the answers to less |
| Choice.Apply | ces-metadata/match_meds.py:230-242 | an integer either decides the line and leaves the rest of the input, or halts on a missing slot; it never runs out of input |
| Choice.Decide | ces-metadata/match_meds.py:221-242 | deciding a line consumes at least one answer |
| Choice.DecideFacts | ces-metadata/match_meds.py:221-242 | a chosen row keeps its line's code, name and moa with the score `-`, and the input runs out exactly when no answer is an integer |
| Choice.DecideSkips | ces-metadata/match_meds.py:221-229 | refused answers are skipped: input that `int()` refuses re-prompts without advancing |
| Choice.ChoiceRun | ces-metadata/match_meds.py:193-246 | one decision per line from the first; the session halts early exactly when it has fewer decisions than lines |
| Choice.DecisionsAreForTheirLines | ces-metadata/match_meds.py:239-242 | the `k`-th decision, when it chose something, is a row for the `k`-th line |
| Choice.SessionFor | ces-metadata/match_meds.py:193-246 | the same facts for the session the operator's input drives |
| Choice.ChosenRows | ces-metadata/match_meds.py:239-242 | `choice_matches` has at most one row per decision |
| Choice.ChosenRowsAreTheChoices | ces-metadata/match_meds.py:239-242 | a row is in `choice_matches` exactly when some decision chose it |
| Choice.ChosenRowsAppend | ces-metadata/match_meds.py:239-242 | appending in later decisions appends their rows |
| Choice.ChosenLines | ces-metadata/match_meds.py:249 | exactly the lines with a choice |
| Choice.UnchosenLines | ces-metadata/match_meds.py:251 | exactly the lines without a choice |
| Choice.ChosenAndUnchosenCount | ces-metadata/match_meds.py:249-251 | lines with and without a choice number the lines, and there are as many chosen rows as chosen lines |
| Choice.SsaNames | ces-metadata/match_meds.py:249 | the list holds one name per chosen row, and exactly the display names of the chosen rows |
| Choice.AsWrittenRemainder | ces-metadata/match_meds.py:249-251 | the remainder as written: exactly the lines whose clean name is the display name of no chosen row, at most as many as the lines |
| Choice.AsWrittenRemainderKeepsEveryLine | ces-metadata/match_meds.py:249-251 | as written, when no clean name is a display name, the remainder is every line: the lines the operator matched are in it too, so chosen rows and remainder outnumber the lines by the rows chosen |
| Choice.WithoutAbsentNames | ces-metadata/match_meds.py:251 | filtering by names no line has keeps every line |
| Choice.AsWrittenRemainderKeepsChosenLine | ces-metadata/match_meds.py:249-251 | as written, a line the operator matched stays in the remainder, because its display name is not its clean name |
| Choice.Remainder | ces-metadata/match_meds.py:248-251 | corrected filter (the comment at line 248): no line with a choice is in the remainder, and every line in it is a line without a choice |
| Choice.RemainderIsUnchosen | ces-metadata/match_meds.py:248-251 | with distinct clean names, the remainder is exactly the lines without a choice, in order, and chosen rows and remainder number the lines |
| Choice.SuffixWithoutChosen | ces-metadata/match_meds.py:251 | the same for every suffix of the lines |
| Choice.CheckpointFiles | ces-metadata/match_meds.py:239-246 | the checkpoint writes add only the two checkpoint files, the unmatched checkpoint once a line is decided, and the choice matches checkpoint only once a row was chosen |
| Choice.CheckpointHoldsUndecided | ces-metadata/match_meds.py:239-246 | once a line is decided, the unmatched checkpoint holds exactly the lines after it, the matches checkpoint every row chosen so far, and no other file changes |
| Choice.DecideAfterSkipped | ces-metadata/match_meds.py:221-229 | after answers that are all refused, only the later answers count |
| Choice.DecideBeforeMore | ces-metadata/match_meds.py:221-242 | extra input after a decided line is left for the next lines |
| Choice.ChoiceRunAppend | ces-metadata/match_meds.py:193-246 | a session that ran out of input, given more, continues from where it stopped |
| Choice.HaltedAtFirstLine | ces-metadata/match_meds.py:221-229 | a session that cannot decide its first line decides nothing, and more input starts it afresh |
| Choice.ResumeAfterEndOfInput | ces-metadata/match_meds.py:193-246 | a session that ran out of input, resumed on the undecided lines with more input, decides exactly what one session given all the input decides |
| Choice.ChoiceRunStep | ces-metadata/match_meds.py:193-246 | the session from line `i` is that line's decision followed by the session from line `i + 1` |
| Choice.CheckpointStep | ces-metadata/match_meds.py:239-246 | one more decided line rewrites the matches checkpoint when it chose something, then the unmatched checkpoint |
| Choice.CheckpointStepSkipped | ces-metadata/match_meds.py:245-246 | a line with no choice rewrites only the unmatched checkpoint |
| Choice.CheckpointStepChosen | ces-metadata/match_meds.py:239-246 | a chosen line rewrites both checkpoints |
| Choice.UpdateBoth | ces-metadata/match_meds.py:244-246 | writing both checkpoints again hides the earlier writes |
| Choice.ReadChoice | ces-metadata/match_meds.py:221-229 | the re-prompt loop stops at the first answer that is an integer, returning it, or at the end of the input |
| Choice.OneLine | ces-metadata/match_meds.py:221-246 | what the answer found by the re-prompt loop does to the session |
| Choice.SaveCheckpoint | ces-metadata/match_meds.py:239-246 | the chosen rows and the files after one more decided line |
| Choice.AskOperator | ces-metadata/match_meds.py:192-247 | the loop makes the decisions of `ChoiceRun`, collects their rows, and leaves the checkpoint files of those decisions |
| Choice.ExtractUserChosenMatches | ces-metadata/match_meds.py:164-252 | the chosen rows and the checkpoint files are those of the session `ChoiceRun` specifies, and the remainder is the filter of lines 249-251 as written |
| Pipeline.SaveStage | ces-metadata/match_meds.py:255-274 | saving a stage fails exactly when no input line is left for the `p` prompt; otherwise it writes the stage's files and consumes one line |
| Pipeline.HumStage | ces-metadata/match_meds.py:42-52 | the HUM stage is skipped iff both HUM files exist; it fails iff it runs with lines but no HUM rows, or with no input line left; when it goes on, both HUM files are there, the remainder it passes on is in the HUM remainder file, and one input line is used unless the stage was skipped |
| Pipeline.HumStageKeepsKinds | ces-metadata/match_meds.py:42-52 | the HUM stage keeps the files well kinded, and after a skip the HUM remainder file can be read |
| Pipeline.HumStageRuns | ces-metadata/match_meds.py:47-52 | a HUM stage that runs saves its matches and remainder and passes the remainder on |
| Pipeline.CielStage | ces-metadata/match_meds.py:59-68 | the CIEL stage fails on a missing file iff it has no HUM remainder and the HUM remainder file is not there; when it goes on, its remainder is in the CIEL remainder file and one input line is used |
| Pipeline.CielStageKeepsKinds | ces-metadata/match_meds.py:59-68 | the CIEL stage keeps the files well kinded |
| Pipeline.CielStageRuns | ces-metadata/match_meds.py:59-68 | a CIEL stage that runs on a HUM remainder saves its matches and remainder and passes the remainder on |
| Pipeline.ChoiceLines | ces-metadata/match_meds.py:72-79 | the operator's lines come from the choice checkpoint when it exists, else from the CIEL remainder passed on, else from the CIEL remainder file; reading a missing file is the failure |
| Pipeline.MainRun | ces-metadata/match_meds.py:35-86 | a run removes no file, and a completed run leaves the HUM files, the CIEL matches file and both final files |
| Pipeline.ChoiceEnding | ces-metadata/match_meds.py:81-86 | the operator's stage completes iff every line is decided and an input line is left for the last `p` prompt; then the choice matches file holds the chosen rows and the unmatched file the remainder of lines 249-251 as written; otherwise the files are the checkpoint files of the decisions made |
| Pipeline.ChoiceStage | ces-metadata/match_meds.py:81-86 | the operator's stage stops only for want of input or on a missing candidate, removes no file, and when it completes both final files are there |
| Pipeline.FinalStage | ces-metadata/match_meds.py:70-86 | the run fails on a missing file at the last stage exactly when no lines can be found for the operator; it removes no file, and when it completes both final files are there |
| Pipeline.CheckpointWellKinded | ces-metadata/match_meds.py:244-246 | the checkpoint writes keep the files well kinded |
| Pipeline.AsWrittenCielTestReadsMissingFile | ces-metadata/match_meds.py:54-79 | as written, with both HUM files and the CIEL matches file but no CIEL remainder file, the run reads the missing CIEL remainder file |
| Pipeline.FinalStageFindsLines | ces-metadata/match_meds.py:72-79 | with well-kinded files, and the CIEL remainder file present when no remainder is passed on, the operator's stage finds its lines |
| Pipeline.EveryStageFindsItsInput | ces-metadata/match_meds.py:42-86 | with the CIEL test on both files, a run from well-kinded files never reads a file that is not there |
| Pipeline.SkipsToOperator | ces-metadata/match_meds.py:42-79 | a run that finds the files of both automatic stages goes straight to the operator's stage with all of its input |
| Pipeline.ResumeFromCheckpoint | ces-metadata/match_meds.py:72-86 | with both automatic stages skipped and a checkpoint left, the whole input goes to an operator's stage over the checkpointed lines |
| Pipeline.RunsBothStages | ces-metadata/match_meds.py:59-86 | a run that does both automatic stages, with no checkpoint, hands the CIEL remainder to the operator's stage |
| Pipeline.InterruptedAfterLastChoice | ces-metadata/match_meds.py:239-246 | the files a run leaves when it is stopped after its session chose a row for the last line: well kinded, both automatic stages skipped on resume, no line left to decide |
| Pipeline.AsWrittenResumeDropsEarlierChoices | ces-metadata/match_meds.py:70-86 | as written, resuming from those files completes with an empty matches file although the checkpoint holds a chosen row |
| Pipeline.EmptyChoiceStage | ces-metadata/match_meds.py:81-86 | with no line left, the operator's stage completes and saves no row |
| Pipeline.CarriedRows | ces-metadata/match_meds.py:244 | the rows the choice matches checkpoint holds, none when there is no such file |
| Pipeline.CarriedRowsCompleteTheSession | ces-metadata/match_meds.py:192-246 | corrected (starting `choice_matches` from the checkpoint): an interrupted session's rows followed by the resumed session's rows are the rows one session given all the input chooses |
| Pipeline.CheckpointCarriesChosenRows | ces-metadata/match_meds.py:244 | the checkpoint of a first session carries exactly its chosen rows |
| Pipeline.HumStep | ces-metadata/match_meds.py:42-52 | the HUM stage on the store is `HumStage` of its files |
| Pipeline.CielStep | ces-metadata/match_meds.py:59-68 | the CIEL stage on the store is `CielStage` of its files |
| Pipeline.FinalStep | ces-metadata/match_meds.py:70-86 | the last stage on the store is `FinalStage` of its files |
| Pipeline.ChoiceStep | ces-metadata/match_meds.py:81-86 | the operator's stage on the store is `ChoiceStage` of its files |
| Pipeline.MatchMeds | ces-metadata/match_meds.py:35-86 | `main` on the store ends as `MainRun` on the cleaned SSA and HUM rows, with the CIEL stage skipped when the CIEL matches file exists, as at line 55 |

## Left out

- fuzzywuzzy's scorers (`fuzz.WRatio`, `fuzz.token_sort_ratio`, their default processors): a third-party library. Each scorer is a parameter with scores in 0..100. `extractOne` and `extract` are modelled over any such scorer.
- `tqdm` progress bars and every `print`: these are console output with no effect on the results. This includes what the `p` prompt prints. The line that prompt reads is modelled.
- CSV and JSON encoding (`csv_as_list`, `write_to_csv`, `from_json_file`). A file holds the rows it was written with. Scores reloaded from a file as strings are not modelled.
- `main`'s opening lines 36-40 (reading the SSA and HUM CSVs and the CIEL JSON) are I/O. `MatchMeds` takes the raw rows and the CIEL items as parameters and applies `clean_csv_list` and the SSA line building itself.
- A file that holds the wrong kind of rows reads as missing. The program only writes one kind per path (`Files.WellKinded`).
- A missing output directory, the `./ouput` directory in line 29 included, is not modelled: writing a file always succeeds.
- Text.IsSpace, Text.Lower: ASCII only. Python's `isspace` and `lower` also act on non-ASCII characters.
- Text.ParseInt: ASCII digits, surrounding whitespace and a sign. Python's `int()` also accepts Unicode digits and underscores between digits.
- Records.SsaRows, Records.HumRows: a row too short for the columns `main` indexes raises `IndexError` in the source. Here it is a precondition, as is an SSA name with no word (line 302).
- The `hum_codes_to_full_drug_names` dict (line 183) is only printed, so it is not modelled.
- Choice.OptionsFor: the options of every line are the same pure function of that line. The model computes them up front; the source computes them inside the loop, interleaved with printing.
- Choice.ExtractUserChosenMatches: when the session halts, the source raises and returns nothing. The remainder the method returns in that case is never used.

## Findings

| source | as written | input that shows it | evidently intended | confidence | as-written member | corrected member |
|---|---|---|---|---|---|---|
| ces-metadata/match_meds.py:249-251 | the remainder filter looks up each line's clean name (`l[3]`) among the display names (`l[1]`) of the chosen rows | the line `("S1", "Aspirin 100mg", "oral", "aspirin")` with a candidate chosen for it: `"aspirin"` is not `"Aspirin 100mg"`, so the chosen line stays in the remainder and is written to the unmatched file | the comment at line 248 and the docstring: the remainder is the lines without a match, found by clean name as in lines 116-118 | high, not executed | Choice.AsWrittenRemainderKeepsEveryLine | Choice.RemainderIsUnchosen |
| ces-metadata/match_meds.py:55 | the CIEL stage is skipped when the CIEL matches file alone exists | both HUM files and the CIEL matches file present, no CIEL remainder file (a run interrupted between the two writes of lines 271-274 for the CIEL stage, or a file removed by hand): line 79 reads the missing CIEL remainder file and raises `FileNotFoundError` | test both CIEL files, as line 43 does for HUM and as the messages at lines 56-57 say | medium, not executed | Pipeline.AsWrittenCielTestReadsMissingFile | Pipeline.EveryStageFindsItsInput |
| ces-metadata/match_meds.py:192 | a resumed run starts `choice_matches` empty and overwrites the choice matches checkpoint at line 244 | an earlier run chose a row for the last line and stopped before its final save: the resumed run writes an empty matches file at line 86, and the chosen row is in no output file | start `choice_matches` from the checkpoint, so the final file holds the choices of every session | medium, not executed | Pipeline.AsWrittenResumeDropsEarlierChoices | Pipeline.CarriedRowsCompleteTheSession |
