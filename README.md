# examtex in Dafny

examtex typesets multiple-choice exams in several shuffled versions, then grades them. The
normaliser (`examtex/normalize.py`) receives one result table per version. It maps every
student's answers back to the canonical question order and choice numbering. The analyser
(`examtex/analyze.py`) runs a classical item analysis on the normalised table. The exam
maker (`examtex/exam.py`, with `examtex/util.py`) picks the questions of each version,
permutes their choices and names the output files.

This project models that core and proves what it promises. It has these modules:

- `Text` (`text.dfy`): the bits of Python string behaviour the code relies on.
  - `int()` and `str()` on decimal integers.
  - Negative list indexing.
  - `str.split()` with no argument, `", ".join`, `str.replace(" ", "")`.
  - String ordering, and `sorted()` on a set of keys.
- `Config` (`config.dfy`): the exam configuration (versions, order lists, question definitions) as values.
- `Util` (`util.dfy`): `check_config` (a loop) and `permute`.
- `Normalize` (`normalize.dfy`): the normaliser as imperative methods.
  - The nested loops that build the canonical map.
  - The loops over files, rows and questions.
  - Each method is proved equal to a specification function returning `Result`.
- `NormalizeLaws` (`normalize_laws.dfy`): what normalisation guarantees.
  - How a response is remapped; the round trip through the inverse permutation.
  - The correct answer always becomes `"1"`.
  - Every record comes from one student row and has one answer per canonical question.
  - A missing map entry is reported only when a version really lacks the question.
- `Analyze` (`analyze.dfy`): the analyser as imperative methods.
  - Admitting students, the running aggregates, the bucket tallies, the question loop and KR-20.
  - Exact reals, and each method proved against a specification function.
  - Every `ZeroDivisionError` or `math.sqrt` domain error that aborts the report is an error value.
- `AnalyzeLaws` (`analyze_laws.dfy`): the guarantees of a successful report.
  - Includes a two-student table on which the script's KR-20 is 3/2.
- `Exams` (`exams.dfy`): a class `Exam` whose `attrs` map plays the role of the instance `__dict__`.
  - `Render` and `MakeExams` update `attrs` as the source does.
  - They are proved against `RenderSpec` and `ExamsSpec`.
  - `MakeExams` returns the files written, in order, and the error that stopped it, if any.
- `ExamsLaws` (`exams_laws.dfy`): the naming rules, the configuration layers and the question selection.
  - The selection is checked against a reference flattening.
  - What `render` changes; the full sequence of files `make_exams` writes.

Three behaviours of the code are easy to misread. The model follows the code.

- **Position of a question.** The normaliser records a question's index in the whole
  `order` list, placeholders included, not its position among the scored slots.
- **Skip count.** The count of perm-less definitions (`n_skipped`) is reset for every order
  entry. The value left after the last version is subtracted from every file's raw scores,
  although one might expect each version to subtract its own count.
  - `Normalize.SkipCountFromLastOrdered` characterises the value actually used.
- **KR-20 above 1.** By its textbook definition KR-20 is at most 1. The script divides
  population item variances `d(1−d)` by the *sample* variance of the scores, so KR-20 can
  exceed 1, and the script then aborts at `math.sqrt(1 - r20)`.
  - `AnalyzeLaws.ReliabilityCanExceedOne` exhibits an input where this happens.

## Model

| member | source | states |
|---|---|---|
| Text.ParseIntRoundTrip | examtex/normalize.py:96-97 | `int(str(i)) == i` for every integer |
| Text.NatToStringRoundTrip | examtex/normalize.py:96-97 | the decimal digits of n read back as n |
| Text.IntToStringInjective | examtex/normalize.py:97 | `str(i) == str(j)` iff `i == j` |
| Text.Words | examtex/exam.py:80 | every word of `split()` is non-empty and has no whitespace (the characters `str.isspace()` accepts) |
| Text.WordsCons | examtex/exam.py:80 | a word followed by a space splits into that word and the words of the rest |
| Text.WordsOne | examtex/exam.py:80 | a single word splits into itself |
| Text.WordsJoin | examtex/exam.py:80 | non-empty whitespace-free words joined by single spaces split back into exactly those words, in order |
| Text.TwoWords | examtex/exam.py:80 | two space-free words joined by one space split back into exactly those two words |
| Text.JoinSnoc | examtex/exam.py:123-124 | joining a list with one more item appends the separator and that item |
| Text.RemoveSpaces | examtex/exam.py:92 | the result has no space, is no longer than the input and keeps every other character's count; its order is fixed by `RemoveSpacesAppend` and `RemoveSpacesChar` |
| Text.RemoveSpacesAppend | examtex/exam.py:92 | removing spaces from a + b removes them from a and from b separately, so the other characters keep their order |
| Text.RemoveSpacesChar | examtex/exam.py:92 | a single character is dropped exactly when it is a space |
| Text.RemoveSpacesKeeps | examtex/exam.py:92 | a text without spaces is unchanged, so removing spaces is idempotent |
| Text.BelowIrreflexive | examtex/normalize.py:51 | no string sorts before itself |
| Text.BelowTransitive | examtex/normalize.py:51 | string order is transitive |
| Text.BelowTotal | examtex/normalize.py:51 | of two different strings one sorts first |
| Text.Insert | examtex/normalize.py:51 | inserting into a strictly sorted list keeps it strictly sorted with the new element added |
| Text.SortedList | examtex/normalize.py:51 | `sorted(keys)` of a key set is strictly increasing and holds exactly the keys |
| Text.SortedListUnique | examtex/normalize.py:51 | two strictly sorted lists with the same elements are equal, so the master list is determined by the keys |
| Util.MissingKeys | examtex/util.py:46-52 | a key is listed iff it is required and absent from the configuration; no more entries than required keys |
| Util.CheckConfig | examtex/util.py:39-57 | reports exactly the missing required keys in their order; accepts iff every required key is present, iff nothing is missing |
| Util.CollectMissing | examtex/util.py:49-52 | the loop over a key list collects `MissingKeys`: the keys absent from the configuration, in list order |
| Util.Wrap | examtex/util.py:155 | a Python index in [−n, n) denotes a position in [0, n) |
| Util.IndexOf | examtex/util.py:154 | `list.index`: the first position holding the value |
| Util.Permute | examtex/util.py:142-156 | `result[j] == choices[permutation[j]]` (Python indexing), same length as the permutation; `correct` is the first index of 0 and `result[correct] == choices[0]` |
| Util.PermuteRearranges | examtex/util.py:155 | with a bijection the displayed choices are a rearrangement (same multiset) of the choices |
| Util.Inverse | examtex/util.py:155 | the inverse of a bijection maps every choice to the position that displays it |
| Normalize.BuildCanonicalMap | examtex/normalize.py:32-48 | the nested loops leave the map `Canon(vs)` and the skip count `SkipCount(vs)` (None when never assigned) |
| Normalize.ScanEntry | examtex/normalize.py:39-47 | the scan of one version's definitions for one order entry leaves `ScanDefs` and counts the definitions without a perm |
| Normalize.LastPermDef | examtex/normalize.py:40-46 | the last definition of q that has a `perm`: later definitions of q have none |
| Normalize.LastIndex | examtex/normalize.py:37-46 | the last position of q in the order list |
| Normalize.ScanDefsClosed | examtex/normalize.py:40-46 | scanning the definitions for entry q at index i sets `questions[q][vi]` to (i, perm of q's last permuted definition), or changes nothing when q has none |
| Normalize.SlotOfStep | examtex/normalize.py:37-46 | one more order entry changes only that entry's slot; a placeholder records nothing |
| Normalize.AddOrderEntries | examtex/normalize.py:37-46 | walking a version's order adds exactly that version's slots under its index and keeps every other entry |
| Normalize.CanonEntries | examtex/normalize.py:32-48 | `questions[q][k]` exists iff version k has a slot for q, and then equals it: the last index of q in the order, placeholders counted, and the perm of q's last permuted definition; every key has some version |
| Normalize.SkipCountFromLastOrdered | examtex/normalize.py:37-48 | the skip count applied is decided by the last version with a non-empty order: 0 if that order ends in `np`, else its number of perm-less definitions |
| Normalize.SkipCountUnassigned | examtex/normalize.py:37-48 | the skip count is never assigned iff every order is empty |
| Normalize.NormalizeRow | examtex/normalize.py:76-102 | the record of one student row equals `NormalizeStudent`, errors included |
| Normalize.NormalizeFileRows | examtex/normalize.py:70-105 | the records of a file are those of its rows after the key row, the first error ending the run |
| Normalize.ProcessFiles | examtex/normalize.py:55-105 | all files in order: header from the last file, records or the first error, equal to `Normalization` |
| Normalize.NormalizeExam | examtex/normalize.py:32-105 | master list strictly sorted and equal to the map's keys; the result is the normalisation of the files against `Canon(vs)` and `SkipCount(vs)` |
| NormalizeLaws.RemapPositive | examtex/normalize.py:95-97 | a response r in 1..len(perm) becomes `str(perm[r-1]+1)` |
| NormalizeLaws.RemapWraps | examtex/normalize.py:95-97 | a response r in 1−len(perm)..0 indexes perm from its end |
| NormalizeLaws.RemapOutOfRange | examtex/normalize.py:95-99 | an integer response whose index is out of range is kept as written (the IndexError is caught) |
| NormalizeLaws.RemapKeepsNonNumeric | examtex/normalize.py:95-99 | a response that is not an integer is kept as written |
| NormalizeLaws.RemapNamesDisplayedChoice | examtex/normalize.py:97 | displayed choice r shows canonical choice `perm[r-1]` (as `permute` lays it out), and the normaliser records exactly that choice, counted from 1 |
| NormalizeLaws.CorrectAnswerNormalizesToOne | examtex/normalize.py:95-97 | the displayed position of the correct answer (`permutation.index(0)+1`) normalises to `"1"` in every version |
| NormalizeLaws.RemapInjective | examtex/normalize.py:97 | with a bijection, two displayed choices normalise alike iff they are the same choice |
| NormalizeLaws.RemapRoundTrip | examtex/normalize.py:97 | remapping with the inverse permutation gives back the displayed choice |
| NormalizeLaws.BlankTakesKey | examtex/normalize.py:90-92 | a `.` response is scored as the key row's response in the same column, or fails when the key lacks that column |
| NormalizeLaws.NormalizeAnswersShape | examtex/normalize.py:83-102 | the answers succeed iff every question has a map entry and a normalisable response; then there is one answer per canonical question, each its normalised response |
| NormalizeLaws.NormalizeStudentShape | examtex/normalize.py:76-102 | a row yields a record iff its identity columns and an integer raw score are present, the skip count is set and all answers normalise; the record copies the identity columns, subtracts the skip count from the raw score and answers every canonical question |
| NormalizeLaws.NormalizeRowsShape | examtex/normalize.py:73-105 | the rows after the key succeed iff each row does, and then yield one record per row in row order |
| NormalizeLaws.NormalizeFilesShape | examtex/normalize.py:57-105 | on success every file had a key row, there is one record per student row, and each record normalises a student row (never a key row) against its own file's key and version |
| NormalizeLaws.EveryRecordFromStudentRow | examtex/normalize.py:55-105 | the output header is the last file's first five fields plus the master list; each record answers exactly the master list and carries its row's CWID and raw score minus the skip count (`RecordOf`) |
| NormalizeLaws.AnswersNoEntry | examtex/normalize.py:86-87 | a missing-entry error of a row names a master-list question without an entry for that file |
| NormalizeLaws.RowsNoEntry | examtex/normalize.py:73-87 | a missing-entry error of a file arises from one of its student rows |
| NormalizeLaws.FilesNoEntry | examtex/normalize.py:57-87 | a missing-entry error names a file with a student row and a question missing from its map entry |
| NormalizeLaws.NoEntryOnlyForMissingSlot | examtex/normalize.py:86-87 | the KeyError on `questions[q][qs]` happens only for a file with a student row whose version does not exist or records no slot for q |
| Analyze.QuestionColumns | examtex/analyze.py:32 | the question columns are header fields |
| Analyze.CountOnes | examtex/analyze.py:50-52 | the score is at most the number of responses |
| Analyze.KeptShape | examtex/analyze.py:37-55 | the kept responses are exactly the columns after the version markers, in order |
| Analyze.ReadResponses | examtex/analyze.py:35-55 | an admitted row keeps its non-marker responses and scores their "1"s; a row with a marker other than "1" keeps nothing |
| Analyze.StudentOfIff | examtex/analyze.py:43-60 | a row is retained iff a column follows the markers and every marker holds "1"; its responses are those columns and its score counts their "1"s |
| Analyze.StudentsShape | examtex/analyze.py:28-60 | at most one student per row; each has one response per question, a non-empty response list and a score between 0 and n_q |
| Analyze.ReadStudents | examtex/analyze.py:22-60 | `q_list` is None without rows, else the header after five fields; every row yields `Students` |
| Analyze.Scores | examtex/analyze.py:76-77 | one score per student, in order |
| Analyze.MinMaxBounds | examtex/analyze.py:74-85 | the running minimum and maximum bound every score and are a score or their start value |
| Analyze.Aggregate | examtex/analyze.py:71-85 | `num_s` is the student count, `sum_s1` and `sum_s2` the sums of scores and squared scores, `min_s` and `max_s` the running extremes from `sys.maxsize` |
| Analyze.SqDevZero | examtex/analyze.py:89 | a sum of squared deviations is ≥ 0 and zero iff every score equals the centre |
| Analyze.SpreadSign | examtex/analyze.py:89 | the radicand `num_s*sum_s2 - sum_s1**2` is ≥ 0, and 0 iff all scores are equal |
| Analyze.SigSqSign | examtex/analyze.py:89 | sig² ≥ 0, and sig² = 0 iff all scores are equal |
| Analyze.SumBound | examtex/analyze.py:79 | with scores in [0, c] the score sum lies in [0, n·c] |
| Analyze.AnsweredIsTotal | examtex/analyze.py:106-123 | `N_all[q]` is `N_A+…+N_E`: a response outside "1".."5" changes no counter |
| Analyze.Tally | examtex/analyze.py:92-123 | zeroed counters, then five bucket counts and `N_all` per question, each equal to the number of students answering accordingly |
| Analyze.ScoreSumBound | examtex/analyze.py:137-155 | a bucket's score total lies in [0, N_X·c] when scores lie in [0, c] |
| Analyze.BucketSums | examtex/analyze.py:137-155 | `sum_a`..`sum_e` are the score totals of the students answering each bucket |
| Analyze.DifficultyBounds | examtex/analyze.py:131-135 | d lies in [0, 1] and d(1−d) in [0, 1/4] |
| Analyze.PQBounds | examtex/analyze.py:125-135 | after q questions 0 ≤ pq ≤ q/4 |
| Analyze.ItemBounds | examtex/analyze.py:157-207 | difficulty in [0, 1], every group mean in [0, c] and the five shares sum to 100 |
| Analyze.ShareSum | examtex/analyze.py:203-207 | the percentages f1..f5 sum to 100 when the counts sum to N_all |
| Analyze.BucketMeans | examtex/analyze.py:157-195 | `avg_X_c` and `avg_X_w` lie in [0, c]; each is 0 when its group is empty |
| Analyze.OthersBound | examtex/analyze.py:161-194 | the other four buckets hold at most (N_all − N_X)·c score points |
| Analyze.MeanBound | examtex/analyze.py:157-159 | a guarded mean of values in [0, c] lies in [0, c] |
| Analyze.ItemAnalysis | examtex/analyze.py:125-209 | the question loop yields `ItemsFrom` (records or the first division error), and on success pq is Σ d(1−d) |
| Analyze.QuestionItem | examtex/analyze.py:137-195 | for an answered question, either the error `ItemsFrom` stops at or the record it puts first |
| Analyze.Summarize | examtex/analyze.py:62-218 | the aggregates, tallies, question loop and KR-20 equal `Statistics`, with every aborting division as an error |
| Analyze.AnalyzeTable | examtex/analyze.py:21-218 | the whole script up to the report equals `Analysis`: no rows, too many skips, or the statistics of the retained students over the question columns |
| AnalyzeLaws.ItemsFromShape | examtex/analyze.py:128-209 | a successful question loop yields one record per question, in order, each from a question answered at least twice |
| AnalyzeLaws.ItemsFacts | examtex/analyze.py:128-209 | every record has at least two answers, difficulty in [0, 1] and group means in [0, c] |
| AnalyzeLaws.StatisticsFacts | examtex/analyze.py:62-218 | a report needs at least two students and two questions and unequal scores; average in [0, n_q], min ≤ score ≤ max, 0 ≤ pq ≤ n_q/4, KR-20 the formula's value and below 1 |
| AnalyzeLaws.ReportFacts | examtex/analyze.py:21-218 | the same guarantees for the whole script, with counts tied to the retained rows and to the columns after the markers |
| AnalyzeLaws.ReliabilityCanExceedOne | examtex/analyze.py:214-215 | on two students and two perfectly agreeing questions the script's KR-20 is 3/2, so the report aborts |
| Exams.Merge | examtex/exam.py:71 | `{**a, **b}` has every key of either map, with b's value where both have one |
| Exams.ShortSemester | examtex/exam.py:80-85 | succeeds iff the semester splits into exactly two words; otherwise the unpacking error |
| Exams.Chars | examtex/exam.py:121-124 | a string iterated as a list: one one-character string per character, in order |
| Exams.DocoptsStr | examtex/exam.py:121-124 | the option string exists iff docopts is a list of strings, or a single string without answers; a list is joined by ", " with "answers" appended when answers are printed, a string character by character; otherwise the missing-attribute or type error |
| Exams.FileName | examtex/exam.py:91-101 | a name is formed iff exam_dir, exam and course are usable attributes |
| Exams.SelectCalls | examtex/exam.py:134-141 | the nested question loop yields `OrderCalls`: the make_question calls in order, or the KeyError of a definition without version |
| Exams.Exam.constructor | examtex/exam.py:68-71 | the attributes are the configuration merged into the empty instance dictionary |
| Exams.Exam.Render | examtex/exam.py:120-152 | result and new attributes equal `RenderSpec`: docopts_str and this_version are set in source order, even before a later failure; head_foot is rendered with the attributes before this_version is set, front after |
| Exams.Exam.MakeExams | examtex/exam.py:73-105 | the files written, in order, the stopping error and the final attributes equal `ExamsSpec` |
| ExamsLaws.ShortSemesterSeason | examtex/exam.py:80-85 | "Sp" exactly for Spring, "Su" exactly for Summer, "Fa" for anything else, followed by the year |
| ExamsLaws.OneWordSemester | examtex/exam.py:80 | a one-word semester is an error |
| ExamsLaws.OutFilePair | examtex/exam.py:91-101 | both files lie in exam_dir and end in `.tex`; the answer file inserts `_soln` before `.tex`, so the two differ |
| ExamsLaws.OutFileIgnoresSpaces | examtex/exam.py:92 | spaces in the exam name do not reach the file name |
| ExamsLaws.OutFileSeparatesVersions | examtex/exam.py:91-101 | two different version identifiers give different files, so no version overwrites another's |
| ExamsLaws.ConfigLayers | examtex/exam.py:205 | a key of the merged configuration comes from the command line, else the exam file, else the defaults; present iff in some layer |
| ExamsLaws.ConfigChecked | examtex/exam.py:205-209 | the merged configuration passes check_config iff every required key is in some layer |
| ExamsLaws.Matching | examtex/exam.py:137-138 | the definitions of one qid, in list order |
| ExamsLaws.MatchCallsMatching | examtex/exam.py:137-141 | one order entry's calls are those of its matching definitions, and it fails, with NoVariant, iff one of them lacks a version |
| ExamsLaws.OrderCallsSelected | examtex/exam.py:136-141 | the question loop equals the reference selection entry by entry; it fails iff a selected definition has no version |
| ExamsLaws.SelectedMembers | examtex/exam.py:136-141 | a definition is selected iff its qid is an order entry |
| ExamsLaws.SelectedFollowsOrder | examtex/exam.py:136-141 | when each entry names exactly one definition, the selection follows the order entry for entry |
| ExamsLaws.ErrorIsNoVariant | examtex/exam.py:141 | the question loop fails only on a definition without version |
| ExamsLaws.JoinAnswers | examtex/exam.py:121-124 | the `", "`-join of the options with "answers" appended is the join of the options followed by ", answers", or "answers" alone for no options |
| ExamsLaws.RenderDocopts | examtex/exam.py:120-124 | docopts is left unchanged; docopts_str is the `", "`-join with "answers" last exactly when answers are printed |
| ExamsLaws.RenderWrites | examtex/exam.py:121-131 | once the option string is built it is stored as docopts_str; a successful render passes it and the version identifier on |
| ExamsLaws.RenderScalarDocopts | examtex/exam.py:121-124 | a single-string docopts is joined character by character without answers; with answers the append fails before any attribute changes |
| ExamsLaws.RenderFrame | examtex/exam.py:120-131 | render changes no attribute but docopts_str and this_version |
| ExamsLaws.RenderSucceeds | examtex/exam.py:120-141 | render succeeds iff the option string can be built, head_foot and front are strings, question_dir exists (any value) and every selected definition has a version; then question_dir as given and one call per selected definition; when the option string fails nothing changes |
| ExamsLaws.ExpectedEnvironments | examtex/exam.py:124-131 | head_foot is rendered with every attribute, the option string and the earlier this_version (absent if there was none); front with this_version the version's own identifier |
| ExamsLaws.RenderStep | examtex/exam.py:120-141 | a ready version renders its expected exam, sets this_version to its identifier and keeps every other attribute |
| ExamsLaws.VersionFiles | examtex/exam.py:77-101 | a ready version writes its file without answers, whose head_foot sees the earlier this_version, then its file with answers, whose head_foot sees its own |
| ExamsLaws.ExamsFromFiles | examtex/exam.py:77-105 | from version i on, no failure, and exactly the files `ExpectedFiles` lists: for each version in order its file without answers, then its file with answers |
| ExamsLaws.ExpectedFilesKeep | examtex/exam.py:77-105 | attributes that agree beyond the two render writes give the same expected files, so one render does not change what the later versions write |
| ExamsLaws.ExpectedFilesLength | examtex/exam.py:77-105 | two expected files per version |
| ExamsLaws.ExpectedFilesFrom | examtex/exam.py:77-105 | the files of versions j.. follow two files per earlier version, and start from this_version set to version j − 1 |
| ExamsLaws.ExamsWritten | examtex/exam.py:73-105 | make_exams on a ready configuration fails nowhere and writes exactly `ExpectedFiles`: 2·(number of versions) files, for each version the non-answer file first |
| ExamsLaws.HeadFootSeesPreviousVersion | examtex/exam.py:95-131 | the head_foot of each version's file without answers is rendered with the previous version's this_version (for the first, whatever the exam had before); its front and the answer file's head_foot see the version's own |
| ExamsLaws.ScalarDocoptsStops | examtex/exam.py:95-124 | with docopts a single string, make_exams writes only the first version's file without answers, whose options are the string's characters, and then stops with a type error |
| ExamsLaws.SemesterChecked | examtex/exam.py:77-80 | a semester that is not two words stops make_exams before any file, but only when there is a version |
| ExamsLaws.FirstVersionFails | examtex/exam.py:120-141 | a missing version key in the first version writes nothing but leaves docopts_str and this_version set |

## Left out

- Command-line parsing, YAML loading, CSV reading and writing, file writes and `print` are not modelled.
  - Tables arrive as header fields plus rows of column-to-text maps.
  - The configuration arrives as `Config` values or `Exams.Value` maps.
- Plotting (`examtex/analyze.py:228-264`) is not modelled.
- The square-root statistics are not computed: sig, the discrimination indices `cor_X`, the standard errors and the ranges in standard-error units.
  - The errors that abort them are modelled: one student, one answer to a question, zero variance, KR-20 above 1 or equal to 1.
- Floating point is replaced by exact reals.
  - Near the tests `sig == 0` and `r20 == 1`, float rounding may decide differently.
- The Jinja templates (`JinjaEnv`, the exam, head/foot and front templates) and `QuestionFactory.make_question` are not modelled.
  - They call into a template library and read question files.
  - `Exams.Rendered` records a template source and the attributes it is rendered with; `Exams.TexInput` holds the values the exam template receives, with the head/foot and front as such pairs.
  - `Exams.Call` records the arguments of each `make_question` call.
  - The exam template also receives every other attribute unchanged; they are not represented beyond the front's attributes.
- `Exam.__repr__` is not modelled.
- Normalize.Lookup: the KeyError on a question missing from a version's map is modelled as the error `NoEntry`, not as a precondition.
  - `NormalizeLaws.NoEntryOnlyForMissingSlot` shows when it occurs.
- Text.ParseInt: accepts an optional `-` followed by ASCII digits.
  - Python's `int()` also accepts surrounding whitespace, a `+` sign, underscores between digits and non-ASCII digits.
- Util.Permute: requires the permutation to contain 0 and to hold only valid indices. Python raises `ValueError` or `IndexError` instead.
- Analyze.AnalyzeTable: requires every row to have a cell for every header field.
  - `csv.DictReader` fills the missing cells of a short row with None, which the model does not represent.
- Analyze.ReadResponses: requires the row to have every question column (the same DictReader assumption).
- Normalize.NormalizeStudent: a row without a header column is the error `MissingColumn`.
  - `csv.DictReader` instead pads a short line with None. A None response or key cell is caught by the bare `except` and recorded as None; a None Raw Score raises an uncaught `TypeError`.
- NormalizeLaws.BlankTakesKey: its failing case, a key row without the student's column, cannot arise from a reader, whose key row is padded like every other row.
- Normalize.ProcessFiles: Python appends every student's record to one list across files; the model concatenates the per-file lists. Both give the same records.
- Exams.VersionsAttr: a `versions` value other than a list of version records is the error `WrongType` before any version is made, and an empty list must be given as `Versions([])`.
  - Python loops over whatever `versions` holds. An empty string or empty list makes no version and returns normally.
  - A non-empty string or list of strings first goes through the semester unpacking, which may raise its `ValueError`. The render then sets docopts_str and renders head_foot, and `version['version']` raises `TypeError`.
- Exams.FileName: only string and integer attributes are formatted into a file name.
  - Other YAML values (lists, maps) are a `WrongType` error, although `"{}".format` would print their representation.
- Exams.StrAttr: head_foot, front, semester and exam that exist with a type other than string are the single error `WrongType`.
  - Python raises various `AttributeError` or `TypeError` exceptions at their first use, and Jinja's handling of a non-string template is not modelled.
- Exams.DocoptsStr: docopts values other than a list of strings or a single string are the single error `WrongType`.
  - For numbers and lists holding non-strings Python also fails, at the append or the join.
  - A YAML mapping with string keys is joined by its keys when answers are off, and fails at the append when they are on; the model has no mapping value and reports `WrongType` in both cases.
- Config.QuestionDef: `qid` is a string.
  - YAML integer qids would sort numerically in the master list (`examtex/normalize.py:51`), and a mix of integer and string qids makes `sorted` raise `TypeError` there.
- Config.Version: the `version` identifier is a string. A YAML integer identifier stands for its decimal text.
- `sys.maxsize` is taken to be that of a 64-bit interpreter, as `Analyze.MaxSize` states.
- Python dictionaries keep insertion order; maps do not. No modelled output depends on that order: the normaliser's header comes from the master list.
