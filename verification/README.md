# Open-source AI sourcing: a verified model

This project models the core of a small pipeline that finds open-source
repositories about responsible AI on a code-hosting site, then scores them.
It covers four parts of the `sourcing` package:

- **Configuration** (`config.py`). The taxonomy of categories and their
  search queries. The three entity levels of a collected row: repository,
  owner and organization, each with a column prefix and an attribute list.
  The named `C_*` columns.
- **Collection** (`collect.py`). `GithubCollector.collect` walks the
  taxonomy category by category. It issues at most the first 10 queries of
  each category and examines at most the first 250 results of each query.
  It skips every result whose repository id is already known. Each accepted
  result becomes one flat row: the repository part, then the owner part,
  then the organization part. The organization part is all null when the
  repository has none. Each row is tagged with its category and query and
  appended to the data. After every query, the ids of the data join the
  known ids. The first query that throws ends the run with what was
  gathered before it. Also modelled: `consolidate_data`, and the
  keep-first deduplication of `save_repositories`.
- **Features** (`features.py`). Six columns are added to the repositories
  frame by a `.pipe` chain:
  - a big-company flag, from a regex alternation of company names;
  - a priority-language flag;
  - a strict star threshold;
  - years since creation and years since last modification;
  - an AI-keyword flag, from a whole-word regex.
- **Scoring** (`score.py`). The older four-stage feature chain with its own
  lists and threshold. `GithubRepoScorer`, which min-max scales the chosen
  columns, sums each row, and merges the sum back on the index as a
  `score` column. `simple_aggregation`.

The pandas operations the code relies on (`assign`, `concat`,
`drop_duplicates`, an index merge) are modelled in `Frames` over a frame of
named columns and rows of cells. The two regex shapes the flags use are
matched by hand in `Text`, with ASCII case folding and ASCII word
characters. `MinMaxScaler` is modelled in `Scaler` over exact `real`
arithmetic. The search client becomes a function from query text to the
results it yields, plus whether it then raises. The wall clock is a
parameter `now`, and timestamps are whole seconds.

Where the design description and the code disagree, the model follows the
code:

- The score is an unweighted sum of scaled features. There are no weights
  and no owner- or organization-level rollup.
- A pre-existing `score` column is not replaced. The index merge keeps it
  as `score_x` and names the new one `score_y`.
- A missing attribute on a search result (`getattr` raising) makes the whole
  query fail. It is not replaced by null.
- The big-company pattern is reproduced as written: a name matches once it
  contains a company name without its last character. The `.` in "H2O.ai" is
  not escaped, so it matches any character except a newline.
- Duplicate ids within one query's results are all kept.

## Model

| member | source | states |
|---|---|---|
| Config.LevelColumns | sourcing/config.py:110-179 | a level's column names are its prefix glued to each of its attributes, in order |
| Config.LevelColumnsDistinct | sourcing/config.py:110-179 | distinct attributes give distinct column names within a level |
| Config.AttributeLists | sourcing/config.py:113-177 | the repository, owner and organization lists hold 18, 18 and 17 names, none twice |
| Config.IdLeadsEveryLevel | sourcing/config.py:114-160 | "id" is the first attribute of every level |
| Config.PrefixesIncomparable | sourcing/config.py:112-158 | no level prefix begins another |
| Config.RepositoryColumnsNamed | sourcing/config.py:182-191 | each repository `C_*` column is "repo_" glued to the attribute at a stated position of the repository list |
| Config.OwnerColumnsNamed | sourcing/config.py:182-191 | each owner `C_*` column is "owner_" glued to the attribute at a stated position of the owner list |
| Config.OrganizationColumnsNamed | sourcing/config.py:182-191 | each organization `C_*` column is "orga_" glued to the attribute at a stated position of the organization list |
| Config.TaxonomyShape | sourcing/config.py:34-100 | six categories, each with 1 to 10 queries (fairness exactly 10); no category is labelled "risk assessment" |
| Collect.ColumnNames | sourcing/collect.py:82-87 | the column names are the prefixed attributes of the three levels, level by level, as many as the three lists together |
| Collect.UntaggedColumns | sourcing/collect.py:69-70 | no column of an untagged level is `taxo_category` or `query` |
| Collect.ColumnNamesDistinct | sourcing/collect.py:82-87 | under a valid layout every column name occurs once, `repo_id` comes first, and neither tag column occurs |
| Collect.ConfiguredLayout | sourcing/collect.py:82-87 | the configured layout is valid and gives 53 columns |
| Collect.CollectedColumns | sourcing/collect.py:69-71 | the accumulated data has the record columns and then the two tag columns, all distinct, with `repo_id` at position 0 |
| Collect.CreateRecord | sourcing/collect.py:92-97 | a record exists iff the entity has every property; it then holds the entity's values in property order |
| Collect.RepositoryRecord | sourcing/collect.py:104-113 | a row is repository part, owner part, organization part; the last is all null without an organization; it fails iff an attribute is missing |
| Collect.RecordStartsWithId | sourcing/collect.py:101-104 | a record starts with the repository id |
| Collect.Accept | sourcing/collect.py:99-114 | every accepted row has the full width and an id that was not known |
| Collect.AcceptFails | sourcing/collect.py:97-114 | a query fails iff one of its examined results has no id, or has a new id and a missing attribute |
| Collect.AcceptRows | sourcing/collect.py:100-114 | the rows of a successful query are exactly the records of the results with new ids |
| Collect.DuplicatesWithinQueryKept | sourcing/collect.py:100-114 | a new id found twice in one query yields two rows, since known ids are not updated inside the loop |
| Collect.Examined | sourcing/collect.py:100 | the examined results are a prefix of the stream: its first 250 when it is longer, all of it otherwise |
| Collect.NewRecords | sourcing/collect.py:89-116 | a stream that raises before 250 results gives no rows; otherwise every row is full width with an unknown id |
| Collect.CollectFromRepositories | sourcing/collect.py:89-116 | the loop with `continue` builds exactly the frame of `NewRecords`, under the dataset columns, or fails exactly when it does |
| Collect.RepoIds | sourcing/collect.py:75-80 | no frame gives no ids; otherwise exactly the values of the id column |
| Collect.Issued | sourcing/collect.py:53 | a category issues its first min(10, n) queries, in order, tagged with its name |
| Collect.Plan | sourcing/collect.py:52-53 | at most 10 queries per category are issued |
| Collect.PlanQueries | sourcing/collect.py:52-53 | a query is issued iff it is among the first 10 of a category |
| Collect.ConfiguredPlanLength | sourcing/collect.py:19-53 | the configured taxonomy issues 44 queries, so the cap drops none |
| Collect.PlanOfSix | sourcing/collect.py:52-53 | a plan of six categories issues as many queries as their issued lists together |
| Collect.TaggedRows | sourcing/collect.py:69-70 | each row of a query gets its category and query text appended |
| Collect.Tag | sourcing/collect.py:69-70 | tagging keeps the row count |
| Collect.TagAppends | sourcing/collect.py:69-70 | tagging a query's records appends the two tag columns and both tags to every row |
| Collect.StepAppends | sourcing/collect.py:71 | concatenating tagged records onto the data appends them below it |
| Collect.CollectedIds | sourcing/collect.py:72 | the ids folded in after a query are exactly the first cells of the data |
| Collect.Step | sourcing/collect.py:56-72 | one query fails iff its records fail; otherwise the data is the earlier rows followed by the tagged new rows |
| Collect.Run | sourcing/collect.py:52-73 | the known ids only grow and the data keeps the collected layout |
| Collect.RunSplit | sourcing/collect.py:52-73 | running `pre + post` runs `pre`, then `post` from its result unless `pre` failed |
| Collect.FailureIgnoresLaterQueries | sourcing/collect.py:59-67 | after a query throws, later queries change nothing and the run stays failed |
| Collect.RunKeepsEarlierRows | sourcing/collect.py:71 | the rows gathered earlier stay on top, unchanged |
| Collect.RunCollectsOnlyNew | sourcing/collect.py:100-103 | no row gathered by a run has an id known when it started |
| Collect.AppendSameTags | sourcing/collect.py:69-72 | appending rows with unknown ids and common tags keeps rows of one id carrying the same tags |
| Collect.StepConsistent | sourcing/collect.py:69-72 | after a query every id in the data is known, and rows with one id carry the same category and query |
| Collect.RunConsistent | sourcing/collect.py:52-73 | a whole run keeps the data consistent with the ids it knows |
| Collect.CollectedRepositories | sourcing/collect.py:47-73 | `collect` returns no repository saved before, and all rows of one repository carry the same category and query |
| Collect.IssueNext | sourcing/collect.py:56-72 | issuing the next planned query ends the run with the data so far when it throws, and otherwise runs the rest of the plan from the new data and ids |
| Collect.IssuePlanned | sourcing/collect.py:53-72 | issuing the query at a plan position ends the run with the data so far when it throws, and otherwise leaves the rest of the plan to run from the new data, which keeps the collected columns |
| Collect.IssueAt | sourcing/collect.py:53-72 | the same step for the query at any position of a plan, with the new data still in the collected layout |
| Collect.StepBuilds | sourcing/collect.py:66-71 | the frame built from a query's records is well formed, and tagging and appending it gives the data `Step` describes |
| Collect.AcceptNext | sourcing/collect.py:100-114 | examining one more result fails the query when the result is faulty, skips it when its id is known, and appends its record otherwise |
| Collect.IssueQuery | sourcing/collect.py:56-72 | one query (search, records, tags, append) yields exactly the frame `Step` describes, or nothing when collecting throws |
| Collect.IssueCategory | sourcing/collect.py:53-72 | the inner loop over a category's first ten queries returns exactly the progress of `Run` over them, stopping at the first that throws |
| Collect.Collect | sourcing/collect.py:47-73 | the nested loops return exactly the data of `Run` over the issued queries, seeded with the saved ids |
| Collect.Consolidate | sourcing/collect.py:119-122 | with equal columns, the earlier rows followed by the later rows |
| Collect.SaveRepositories | sourcing/collect.py:125-126 | the saved frame keeps the columns and has no more rows |
| Collect.SavedRowsInOrder | sourcing/collect.py:125-126 | the saved frame is the input with every row dropped whose id an earlier row holds, in input order |
| Collect.SavedIdsUnique | sourcing/collect.py:125-126 | the saved frame holds every repository id exactly once, and no other |
| Collect.SavedRowsWin | sourcing/collect.py:119-126 | after consolidation, the first saved row of each id is the one that gets saved |
| Frames.Assign | sourcing/features.py:85 | `assign` replaces a present column in place or appends a new one, and leaves every other cell unchanged |
| Frames.AssignSame | sourcing/features.py:85 | assigning a column the cells it already holds changes nothing |
| Frames.SameCells | sourcing/features.py:85 | frames with the same columns, rows and cells are equal |
| Frames.Concat | sourcing/collect.py:71 | `concat` puts the rows of the second frame below the first, under the first frame's columns and then the new ones |
| Frames.ConcatCells | sourcing/collect.py:71 | after `concat`, each row reads its own frame's cells, and null where its frame lacks the column |
| Frames.ConcatSameColumns | sourcing/collect.py:122 | with equal columns, `concat` just appends the rows |
| Frames.ConcatOntoEmpty | sourcing/collect.py:49-71 | concatenating onto `pd.DataFrame()` gives the other frame back |
| Frames.ConcatBottomRow | sourcing/collect.py:71 | each row of the second frame sits below the first frame's rows, re-laid out for the combined columns |
| Frames.ConcatTopRow | sourcing/collect.py:71 | each row of the first frame keeps its place at the top, re-laid out for the combined columns |
| Frames.ConcatSameColumnsRows | sourcing/collect.py:122 | with equal columns the concatenated rows are the first frame's rows followed by the second's |
| Frames.ConcatOntoEmptyRows | sourcing/collect.py:49-71 | onto `pd.DataFrame()` the concatenated rows are the other frame's rows |
| Frames.Keys | sourcing/collect.py:79 | the keys of a frame are exactly the values some row holds in the key column |
| Frames.DropDuplicateKeys | sourcing/collect.py:126 | dropping duplicates keeps only input rows, and no more of them |
| Frames.DropDuplicateKeysKeepsKeys | sourcing/collect.py:126 | dropping duplicates loses no key |
| Frames.DropDuplicateKeysUnique | sourcing/collect.py:126 | afterwards no two rows share a key |
| Frames.AppendFreshKey | sourcing/collect.py:126 | a row whose key is not yet held keeps the keys of a list unique |
| Frames.DropDuplicateKeysKeepsFirst | sourcing/collect.py:126 | the first row of every key survives |
| Frames.FirstOfKeyPrefix | sourcing/collect.py:126 | whether a row holds its key first depends only on the rows before it |
| Frames.FirstPositions | sourcing/collect.py:126 | the positions of the rows that hold their key first: each is in range, they increase strictly, and a position is listed iff its row is the first of its key |
| Frames.DropDuplicateKeysInOrder | sourcing/collect.py:126 | `drop_duplicates` keeps the input order: the result is exactly the input's first-of-key rows, at their positions in increasing order |
| Frames.Suffixed | sourcing/score.py:86 | a name the other side of a merge also has gets the suffix; the others are kept |
| Frames.MergeOnIndex | sourcing/score.py:86 | an index merge puts the rows side by side under the suffixed column names |
| Frames.MergeKeepsLeft | sourcing/score.py:86 | every left cell survives the merge, under a name suffixed "_x" on a clash |
| Frames.MergeKeepsRight | sourcing/score.py:86 | every right cell survives the merge, under a name suffixed "_y" on a clash |
| Text.LowerString | sourcing/features.py:131-134 | `str.lower` keeps the length and lowers every character |
| Text.StarMayRepeatNothing | sourcing/features.py:67 | a starred branch matches iff its stem matches, since the star may repeat nothing |
| Text.SearchFromFinds | sourcing/features.py:131-134 | the left-to-right scan finds a match iff some branch matches at or after the start |
| Text.SearchFinds | sourcing/features.py:131-134 | `str.contains` with an alternation succeeds iff some branch matches somewhere |
| Text.NoMatchInsideWord | sourcing/features.py:127 | the word-bounded branch never matches right after a word character |
| Features.StarredNames | sourcing/features.py:67 | the pattern has one branch per company: the name with its last character starred |
| Features.NameMatchesStem | sourcing/features.py:65-84 | a name cell matches iff it is a string holding a company name without its last character, ignoring case, where the unescaped `.` of "H2O.ai" matches any character but a newline; null never matches |
| Features.AddIsBigCompany | sourcing/features.py:65-85 | the flag column holds 1 where a name column matches, else 0; every other cell is unchanged |
| Features.BigCompanyFlag | sourcing/features.py:65-85 | the flag is 1 iff some name column holds a company stem, and 0 iff none does |
| Features.StemQuirk | sourcing/features.py:67 | "Isaac" is flagged (it contains "SA", the stem of "SAP"), and so is "microsof" |
| Features.AddIsPriorityLanguage | sourcing/features.py:88-93 | the flag is 1 iff the language is a non-null string listed exactly; every other cell is unchanged |
| Features.PriorityLanguageExact | sourcing/features.py:56-93 | "Python" and "C" count; "python", null and "TypeScript" do not |
| Features.AddIsAboveMinStars | sourcing/features.py:96-98 | the flag is 1 where the star count exceeds the threshold, else 0; every other cell is unchanged |
| Features.StarsThresholdStrict | sourcing/features.py:13-98 | 21 stars count and 20 do not; a missing count never does |
| Features.YearsSince | sourcing/features.py:101-109 | whole elapsed days, rounded down, divided by 365; missing stays missing |
| Features.YearsSinceMonotone | sourcing/features.py:101-120 | an older timestamp is at least as many years ago, and a past one gives no negative value |
| Features.AddYearsSince | sourcing/features.py:101-120 | the target column holds the years since the source timestamp; every other cell is unchanged |
| Features.BoundedWords | sourcing/features.py:126-127 | the pattern has one word-bounded branch per keyword |
| Features.MentionsWholeKeyword | sourcing/features.py:129-134 | a text cell matches iff its lower-cased text holds a keyword with no word character right before or after; null never matches |
| Features.KeywordBeforeHyphen | sourcing/features.py:123-134 | "ML-based" mentions "ml": a hyphen is a word boundary |
| Features.KeywordInsideWord | sourcing/features.py:123-134 | "HTML" does not mention "ml": no boundary inside a word |
| Features.AddContainsAiKeywords | sourcing/features.py:123-137 | the flag is 1 where the description or the topics mention a keyword, else 0; every other cell is unchanged |
| Features.Outputs | sourcing/features.py:140-148 | the columns written by a chain of stages, one per stage in order |
| Features.Apply | sourcing/features.py:140-148 | one stage assigns its column with its value on every row and keeps every other cell |
| Features.ReadyKept | sourcing/features.py:140-148 | a stage's value depends only on the columns it reads |
| Features.ApplyKeepsReady | sourcing/features.py:140-148 | applying a stage keeps every later stage able to run, with the same values |
| Features.KeepsThrough | sourcing/features.py:140-148 | a stage that keeps every cell but its output, followed by stages that keep every cell but theirs, keeps every cell outside all the outputs |
| Features.Pipe | sourcing/features.py:140-148 | the chain keeps the row count and every input column, and keeps the cells of the columns it does not write |
| Features.AddedAllColumns | sourcing/features.py:140-148 | a column is present afterwards iff it was present before or was assigned |
| Features.AddedAllAppends | sourcing/features.py:140-148 | assigning absent, distinct columns appends them in order |
| Features.FeatureSettingsValid | sourcing/features.py:13-62 | no feature column is read by a stage, and no company name is empty |
| Features.FeatureColumnsWritten | sourcing/features.py:57-62 | `add_features` writes six distinct columns, in stage order |
| Features.PipeCells | sourcing/features.py:140-148 | after the chain, each stage's column holds the value computed from the input frame |
| Features.PipeFixed | sourcing/features.py:140-148 | a frame whose stage columns already hold the stage values is left as it is |
| Features.PipeIdempotent | sourcing/features.py:140-148 | running the chain twice gives the same frame as running it once |
| Features.PipeAppends | sourcing/features.py:140-148 | when no stage column is present, the chain appends them in stage order |
| Features.FeatureInputsReady | sourcing/features.py:140-148 | a frame meeting the input needs of `add_features` can run every stage |
| Features.AddFeatures | sourcing/features.py:140-148 | `add_features` keeps the row count |
| Features.AddFeaturesColumns | sourcing/features.py:140-148 | exactly the six columns are added (appended in order when absent), and every other cell is unchanged |
| Features.AddFeaturesCells | sourcing/features.py:140-148 | each feature column holds its stage's value, computed from the input row |
| Features.StageCell | sourcing/features.py:140-148 | any stage of a chain leaves its value in its column |
| Features.AddFeaturesIdempotent | sourcing/features.py:140-148 | applying `add_features` twice with the same `now` gives the same result as once |
| Features.NameColumnsCollected | sourcing/features.py:5-11 | each name column the big-company stage reads is a collector column |
| Features.StageReadsCollected | sourcing/features.py:5-11 | each column one stage reads is a collector column |
| Features.ReadsAreCollected | sourcing/features.py:5-11 | every column a feature reads is one the collector writes |
| Scaler.Low | sourcing/score.py:78-80 | `nanmin`: none iff every value is missing; otherwise a present value no other undercuts |
| Scaler.High | sourcing/score.py:78-80 | `nanmax`: none iff every value is missing; otherwise a present value no other exceeds |
| Scaler.LowIs | sourcing/score.py:78-80 | a present value no other undercuts is the minimum |
| Scaler.HighIs | sourcing/score.py:78-80 | a present value no other exceeds is the maximum |
| Scaler.ScaledInUnit | sourcing/score.py:78-80 | a value between the bounds scales into [0, 1] |
| Scaler.ScaleColumn | sourcing/score.py:78-80 | a column keeps its length and its missing values, and every present value scales into [0, 1] |
| Scaler.ScaledEnds | sourcing/score.py:78-80 | the minimum scales to 0, and the maximum to 1 when the range is not zero |
| Scaler.ScaleLowest | sourcing/score.py:78-80 | a value at the column minimum scales to 0 |
| Scaler.ScaleHighest | sourcing/score.py:78-80 | in a non-constant column, a value at the maximum scales to 1 |
| Scaler.ScaleConstant | sourcing/score.py:78-80 | a constant column scales to all zeros instead of dividing by zero |
| Scaler.ScaledOrder | sourcing/score.py:78-80 | scaling one value keeps order, and reflects it when the range is not zero |
| Scaler.ScaleMonotone | sourcing/score.py:78-80 | within a column x <= y gives scaled(x) <= scaled(y), and the converse holds when the column is not constant |
| Scaler.Rescaled | sourcing/score.py:78-80 | a change of units is applied to every present value, and missing values stay missing |
| Scaler.ConvertOrder | sourcing/score.py:78-80 | a change of units with a positive factor keeps order |
| Scaler.RescaledLow | sourcing/score.py:78-80 | the minimum of a converted column is the converted minimum |
| Scaler.RescaledHigh | sourcing/score.py:78-80 | the maximum of a converted column is the converted maximum |
| Scaler.ScaledAffine | sourcing/score.py:78-80 | a positive change of units does not change a value's scaled position |
| Scaler.ScaleIgnoresUnitsAt | sourcing/score.py:78-80 | each scaled value is the same in any positive units |
| Scaler.ScaleIgnoresUnits | sourcing/score.py:78-80 | a column measured in other units scales to the same values |
| Score.ScoreInputsReady | sourcing/score.py:62-71 | a frame meeting the input needs of this `add_features` can run all four stages |
| Score.ScoreSettingsValid | sourcing/score.py:12-21 | no score stage writes a column a stage reads, and no blacklisted name is empty |
| Score.ScoreColumnsWritten | sourcing/score.py:17-20 | the four stages write four distinct columns, in order |
| Score.AddScoreFeatures | sourcing/score.py:62-71 | this `add_features` keeps the row count |
| Score.AddScoreFeaturesColumns | sourcing/score.py:62-71 | exactly the four columns are added (appended in order when absent), and every other cell is unchanged |
| Score.AddScoreFeaturesCells | sourcing/score.py:26-71 | each of the four columns holds its stage's value, computed from the input row |
| Score.AddScoreFeaturesIdempotent | sourcing/score.py:62-71 | applying it twice with the same `now` gives the same result as once |
| Score.SettingsDiffer | sourcing/score.py:12-53 | here the blacklist ignores the repository name, "TypeScript" is a priority language, and 10 stars clear the threshold; in `features.py` none of these holds |
| Score.AsReal | sourcing/score.py:79-80 | a cell is missing as a float iff it is null |
| Score.Total | sourcing/score.py:85 | an all-missing row sums to 0, and values in [0, 1] sum to between 0 and the row length |
| Score.TotalMonotone | sourcing/score.py:85 | a row contributing no less at every position has no smaller sum |
| Score.TotalZero | sourcing/score.py:85 | a row of zeros and missing values sums to 0 |
| Score.FeatureMatrix | sourcing/score.py:83 | one float column per listed feature, one value per row |
| Score.ScaleFeatures | sourcing/score.py:78-80 | `_scale_features` scales every column on its own |
| Score.RowOf | sourcing/score.py:85 | a row of the matrix holds that row's value from every column |
| Score.Scores | sourcing/score.py:82-86 | one score per row, between 0 and the number of features (0 to 5 for the five `SCORE_FEATURES`) |
| Score.DominantRowScoresHigher | sourcing/score.py:82-86 | a row present wherever another is, and never below it, scores at least as high |
| Score.LowestRowScoresZero | sourcing/score.py:82-86 | a row at the minimum of every feature it has scores 0 |
| Score.SimpleAggregation | sourcing/score.py:88-91 | a "score" column holding the row sum of every column, missing skipped; every other cell is unchanged |
| Score.ScoredColumns | sourcing/score.py:86 | the merged columns are distinct: "score" is appended, or becomes "score_x" beside a new "score_y" |
| Score.GithubRepoScorer.constructor | sourcing/score.py:75-76 | the scorer keeps the feature list it is given |
| Score.GithubRepoScorer.Score | sourcing/score.py:82-86 | every input row is kept, in order, with its score appended under the merged column names |

## Left out

- The search client, the access token, `rate_limit` and the CSV reading and writing are not modelled. The client becomes a parameter: a function from query text to a result stream that may raise. The file paths in `config.py` are not part of this model.
- The dtype casting of `github_repositories` (`to_datetime`, `tz_localize`) is not modelled. Timestamps are whole seconds and time zones are not modelled. `pd.Timestamp.today()` becomes the parameter `now`.
- `print` calls and the `__main__` blocks are left out. This includes the final filter and sort on the score in `score.py`.
- Float behaviour is not modelled. The `/ 365` and the scaler work on exact `real`s. NaN propagation and `MinMaxScaler`'s near-zero-range tolerance are left out.
- Case folding and `\w` follow ASCII only. Unicode case folding and Unicode word characters are not modelled. Only the two pattern shapes the flags build are matched; there is no general regex engine.
- `Scaler.ScaleColumn`: `MinMaxScaler` turns every zero range into 1, while the model tests for exact equality. Ranges that are tiny but non-zero, which sklearn also treats as zero, are scaled by their true width here.
- The import at `score.py:9` names `C_ORGA_NAME` and `C_REPO_STARS`, which `config.py` does not define; `C_OWNER_NAME` is defined at `config.py:188`. The model uses the columns the two undefined names evidently mean: `orga_name` and `repo_stargazers_count`.
- `simple_aggregation` has no `self` parameter and cannot be called on an instance. It is modelled as a plain function of the frame.
- `get_dataset_column_names` ignores its `github_data` argument and always reads the configured layout. The model passes the layout through, and `Collect.ConfiguredLayout` fixes it to the configured one.
- Operations that raise in pandas are excluded by preconditions: a missing column, a non-numeric star count or feature, a non-timestamp date, an empty frame or an empty feature list handed to the scaler. Colliding merge suffixes are excluded the same way. Exceptions inside a query are modelled, because `collect` catches them.
- `Features.NameMatches` and `Features.MentionsKeyword`: a cell that is not a string gives flag 0. In pandas the `.str` accessor raises an `AttributeError` on a column whose dtype is not object, for example an `orga_name` or `repo_description` column that is entirely empty and reads back from CSV as float64. The model does not capture that raise, either in the feature pipeline or in the blacklist filter of `score.py`.
- `Frames.MergeOnIndex` assumes the index is positional and unique. That is what `score` produces: it merges a frame with its own copy's index.
- `Score.Scorable` excludes a feature list naming "score" twice, for which `X["score"]` would be ambiguous.
- `Collect.Consolidate`: the result is stated only for frames with the same columns. Other widths go through `Frames.Concat`, whose cells `Frames.ConcatCells` describes.
- `Features.AddFeatures` and `Score.AddScoreFeatures` state only the row count in their own contracts. The columns, cells and idempotence are stated by the lemmas named after them.
