/**
 * Scoring: a four-stage variant of the feature pipeline with its own lists
 * and threshold, and `GithubRepoScorer`, which min-max scales a chosen set
 * of numeric columns, adds the scaled values of each row into a score and
 * merges that score back onto the repositories.
 */
module Score {
  import opened Wrappers
  import opened Frames
  import opened Config
  import opened Features
  import opened Scaler

  const ScoreMinStars := 5

  /** Companies whose repositories are flagged; matched against organization and owner names only. */
  const BlackList: seq<string> := [
    "Microsoft", "Meta Research", "Google", "BCG Gamma", "BCG-Gamma", "Amazon", "IBM", "salesforce",
    "facebookresearch", "Netflix", "AstraZeneca", "DeepMind", "PAIR"
  ]

  const ScoreLanguages: seq<string> := ["Python", "C++", "R", "Java", "TypeScript", "Julia", "Scala", "MATLAB", "C"]

  const ScoreColumn := "score"

  /** The numeric columns the scorer is run with. */
  const ScoreFeatures: seq<string> := [
    "repo_stargazers_count", "repo_forks_count", "repo_size", "owner_followers", "owner_public_repos"
  ]

  const ScoreNameColumns := [OrganizationNameColumn, OwnerNameColumn]

  /** No keyword stage runs here, so no keyword list is needed. */
  const ScoreSettings := Settings(BlackList, ScoreNameColumns, ScoreLanguages, ScoreMinStars, [])

  const ScorePipeline := [BigCompany, PriorityLanguage, AboveMinStarsStage, YearsSinceCreation]

  const ScorePipelineColumns := [IsBigCompanyColumn, IsPriorityLanguageColumn, IsAboveMinStarsColumn, YearsSinceCreationColumn]

  // ---------------------------------------------------------------- features

  /** What this `add_features` needs of its input: every one of its stages ready. */
  predicate ScoreInputs(f: Frame)
  {
    && Ready(f, BigCompany, ScoreSettings) && Ready(f, PriorityLanguage, ScoreSettings)
    && Ready(f, AboveMinStarsStage, ScoreSettings) && Ready(f, YearsSinceCreation, ScoreSettings)
  }

  lemma ScoreInputsReady(f: Frame)
    requires ScoreInputs(f)
    ensures WellFormed(f) && ReadyAll(f, ScorePipeline, ScoreSettings)
  {
  }

  /** The settings are valid: no stage writes a column a stage reads, and no blacklisted name is empty. */
  lemma ScoreSettingsValid()
    ensures ValidSettings(ScoreSettings)
  {
  }

  /** The columns the four stages write, in order; no two alike. */
  lemma ScoreColumnsWritten()
    ensures Outputs(ScorePipeline) == ScorePipelineColumns && Distinct(ScorePipelineColumns)
  {
  }

  /** `add_features` of the scoring script: big company, priority language, stars, years since creation. */
  function AddScoreFeatures(f: Frame, now: int): (r: Frame)
    requires ScoreInputs(f)
    ensures WellFormed(r) && |r.rows| == |f.rows|
  {
    ScoreInputsReady(f);
    ScoreSettingsValid();
    Pipe(f, ScorePipeline, ScoreSettings, now)
  }

  /**
   * The four columns are assigned (appended in order when none is present),
   * and every other cell is left as it was.
   */
  lemma AddScoreFeaturesColumns(f: Frame, now: int)
    requires ScoreInputs(f)
    ensures var r := AddScoreFeatures(f, now);
      && (forall c :: c in r.columns <==> c in f.columns || c in ScorePipelineColumns)
      && ((forall c :: c in ScorePipelineColumns ==> c !in f.columns) ==> r.columns == f.columns + ScorePipelineColumns)
      && forall i, d :: 0 <= i < |f.rows| && d in f.columns && d !in ScorePipelineColumns ==> Cell(r, i, d) == Cell(f, i, d)
  {
    ScoreInputsReady(f);
    ScoreSettingsValid();
    ScoreColumnsWritten();
    AddedAllColumns(f.columns, ScorePipelineColumns);
    PipeAppends(f, ScorePipeline, ScoreSettings, now);
  }

  /** Each stage column holds the value its stage computes from the input row (see `StageValue`). */
  lemma AddScoreFeaturesCells(f: Frame, now: int, k: nat, i: nat)
    requires ScoreInputs(f) && k < |ScorePipeline| && i < |f.rows|
    ensures Named(ScoreSettings)
    ensures Output(ScorePipeline[k]) in AddScoreFeatures(f, now).columns
    ensures Cell(AddScoreFeatures(f, now), i, Output(ScorePipeline[k])) == StageValue(f, i, ScorePipeline[k], ScoreSettings, now)
  {
    ScoreSettingsValid();
    ScoreInputsReady(f);
    ScoreColumnsWritten();
    StageCell(f, ScorePipeline, ScoreSettings, now, ScorePipeline[k], i);
  }



  /** Adding the features twice is adding them once. */
  lemma AddScoreFeaturesIdempotent(f: Frame, now: int)
    requires ScoreInputs(f)
    ensures ScoreInputs(AddScoreFeatures(f, now))
    ensures AddScoreFeatures(AddScoreFeatures(f, now), now) == AddScoreFeatures(f, now)
  {
    ScoreInputsReady(f);
    ScoreSettingsValid();
    ScoreColumnsWritten();
    PipeIdempotent(f, ScorePipeline, ScoreSettings, now);
  }

  /**
   * Where the two pipelines part: the blacklist ignores the repository name,
   * "TypeScript" counts as a priority language only here, and ten stars clear
   * this threshold but not the collector-side one.
   */
  lemma SettingsDiffer()
    ensures RepositoryNameColumn in Reads(BigCompany, FeatureSettings)
    ensures RepositoryNameColumn !in Reads(BigCompany, ScoreSettings)
    ensures IsPriority(Str("TypeScript"), ScoreLanguages) && !IsPriority(Str("TypeScript"), PriorityLanguages)
    ensures AboveMinStars(Int(10), ScoreMinStars) && !AboveMinStars(Int(10), MinStars)
  {
  }

  // ---------------------------------------------------------------- scaling

  /** A cell as the float the scaler sees; a missing value is NaN, here `None`. */
  function AsReal(v: Value): (x: Option<real>)
    requires Numeric(v)
    ensures x.None? <==> v.Null?
  {
    match v
    case Null => None
    case Bool(b) => Some(if b then 1.0 else 0.0)
    case Int(n) => Some(n as real)
    case Num(r) => Some(r)
  }

  // ---------------------------------------------------------------- scoring

  /** What a value adds to a row sum that skips missing values. */
  function Contribution(x: Option<real>): real
  {
    if x.Some? then x.value else 0.0
  }

  /** `sum(axis=1)` on one row: missing values are skipped, an all-missing row sums to 0. */
  function Total(xs: seq<Option<real>>): (t: real)
    ensures (forall k :: 0 <= k < |xs| ==> xs[k].None?) ==> t == 0.0
    ensures (forall k :: 0 <= k < |xs| && xs[k].Some? ==> 0.0 <= xs[k].value <= 1.0) ==> 0.0 <= t <= |xs| as real
  {
    if xs == [] then 0.0
    else
      assert forall k :: 1 <= k < |xs| ==> xs[k] == xs[1..][k - 1];
      Contribution(xs[0]) + Total(xs[1..])
  }

  /** A row that contributes no less at every position has no smaller sum. */
  lemma {:induction false} TotalMonotone(xs: seq<Option<real>>, zs: seq<Option<real>>)
    requires |xs| == |zs| && forall k :: 0 <= k < |xs| ==> Contribution(xs[k]) <= Contribution(zs[k])
    ensures Total(xs) <= Total(zs)
  {
    if xs != [] {
      TotalMonotone(xs[1..], zs[1..]);
    }
  }

  /** The frames the scorer accepts: numeric feature columns, at least one row and one feature (the scaler refuses empty input). */
  predicate Scorable(f: Frame, features: seq<string>)
  {
    && WellFormed(f) && |f.rows| > 0 && |features| > 0
    && (forall c :: c in features ==> c in f.columns)
    && (forall i, c :: 0 <= i < |f.rows| && c in features ==> Numeric(Cell(f, i, c)))
    && (forall j, k :: 0 <= j < k < |features| && features[j] == ScoreColumn ==> features[k] != ScoreColumn)
    && (ScoreColumn in f.columns ==> "score_x" !in f.columns && "score_y" !in f.columns)
  }

  /** `repositories[features]` as floats, one column per listed feature. */
  function FeatureMatrix(f: Frame, features: seq<string>): (x: seq<seq<Option<real>>>)
    requires Scorable(f, features)
    ensures |x| == |features|
    ensures forall k :: 0 <= k < |x| ==> |x[k]| == |f.rows|
  {
    seq(|features|, k requires 0 <= k < |features| =>
      seq(|f.rows|, i requires 0 <= i < |f.rows| => AsReal(Cell(f, i, features[k]))))
  }

  /** `_scale_features`: every column scaled on its own. */
  function ScaleFeatures(x: seq<seq<Option<real>>>): (y: seq<seq<Option<real>>>)
    ensures |y| == |x| && forall k :: 0 <= k < |x| ==> y[k] == ScaleColumn(x[k])
  {
    seq(|x|, k requires 0 <= k < |x| => ScaleColumn(x[k]))
  }

  /** Row `i` across the columns of a matrix. */
  function RowOf(y: seq<seq<Option<real>>>, i: nat): (row: seq<Option<real>>)
    requires forall k :: 0 <= k < |y| ==> i < |y[k]|
    ensures |row| == |y| && forall k :: 0 <= k < |y| ==> row[k] == y[k][i]
  {
    seq(|y|, k requires 0 <= k < |y| => y[k][i])
  }

  /** The score of every row: the sum of its scaled features, each between 0 and 1. */
  function Scores(f: Frame, features: seq<string>): (s: seq<real>)
    requires Scorable(f, features)
    ensures |s| == |f.rows|
    ensures forall i :: 0 <= i < |s| ==> 0.0 <= s[i] <= |features| as real
  {
    var y := ScaleFeatures(FeatureMatrix(f, features));
    seq(|f.rows|, i requires 0 <= i < |f.rows| => Total(RowOf(y, i)))
  }

  /**
   * A row that, feature by feature, is missing nowhere the other row is
   * present and is never below it, scores at least as high.
   */
  lemma DominantRowScoresHigher(f: Frame, features: seq<string>, i: nat, j: nat)
    requires Scorable(f, features) && i < |f.rows| && j < |f.rows|
    requires forall k :: 0 <= k < |features| ==>
      var a, b := AsReal(Cell(f, i, features[k])), AsReal(Cell(f, j, features[k]));
      b.None? || (a.Some? && b.value <= a.value)
    ensures Scores(f, features)[j] <= Scores(f, features)[i]
  {
    var x := FeatureMatrix(f, features);
    var y := ScaleFeatures(x);
    forall k | 0 <= k < |features| ensures Contribution(RowOf(y, j)[k]) <= Contribution(RowOf(y, i)[k]) {
      if x[k][j].Some? {
        ScaleMonotone(x[k], j, i);
      }
    }
    TotalMonotone(RowOf(y, j), RowOf(y, i));
  }

  /** A row at the minimum of every feature it has scores 0. */
  lemma LowestRowScoresZero(f: Frame, features: seq<string>, i: nat)
    requires Scorable(f, features) && i < |f.rows|
    requires forall k :: 0 <= k < |features| ==>
      var x := FeatureMatrix(f, features)[k];
      x[i].None? || x[i] == Low(x)
    ensures Scores(f, features)[i] == 0.0
  {
    var x := FeatureMatrix(f, features);
    var y := ScaleFeatures(x);
    forall k | 0 <= k < |features| ensures RowOf(y, i)[k].None? || RowOf(y, i)[k] == Some(0.0) {
      if x[k][i].Some? {
        ScaleLowest(x[k], i);
      }
    }
    TotalZero(RowOf(y, i));
  }

  lemma {:induction false} TotalZero(xs: seq<Option<real>>)
    requires forall k :: 0 <= k < |xs| ==> xs[k].None? || xs[k] == Some(0.0)
    ensures Total(xs) == 0.0
  {
    if xs != [] {
      TotalZero(xs[1..]);
    }
  }

  /**
   * `simple_aggregation`, called on the class: a "score" column holding
   * the row sum, missing values skipped, of every column of `x`.
   */
  function SimpleAggregation(x: Frame): (r: Frame)
    requires WellFormed(x) && forall i, c :: 0 <= i < |x.rows| && c in x.columns ==> Numeric(Cell(x, i, c))
    ensures WellFormed(r) && |r.rows| == |x.rows| && r.columns == Added(x.columns, ScoreColumn)
    ensures forall i, c :: 0 <= i < |r.rows| && c in x.columns && c != ScoreColumn ==> Cell(r, i, c) == Cell(x, i, c)
    ensures forall i :: 0 <= i < |r.rows| ==>
      Cell(r, i, ScoreColumn) == Num(Total(seq(|x.columns|, k requires 0 <= k < |x.columns| => AsReal(Cell(x, i, x.columns[k])))))
  {
    Assign(x, ScoreColumn, seq(|x.rows|, i requires 0 <= i < |x.rows| =>
      Num(Total(seq(|x.columns|, k requires 0 <= k < |x.columns| => AsReal(Cell(x, i, x.columns[k])))))))
  }

  /** The scored frame's columns: "score" appended, or, when the input already has one, "score_x" and "score_y". */
  lemma ScoredColumns(columns: seq<string>)
    requires Distinct(columns) && (ScoreColumn in columns ==> "score_x" !in columns && "score_y" !in columns)
    ensures Distinct(MergedColumns(columns, [ScoreColumn]))
    ensures ScoreColumn !in columns ==> MergedColumns(columns, [ScoreColumn]) == columns + [ScoreColumn]
    ensures ScoreColumn in columns ==>
      (MergedColumns(columns, [ScoreColumn]) == Suffixed(columns, [ScoreColumn], "_x") + ["score_y"])
  {
    var m := MergedColumns(columns, [ScoreColumn]);
    var left := Suffixed(columns, [ScoreColumn], "_x");
    assert ScoreColumn + "_x" == "score_x" && ScoreColumn + "_y" == "score_y";
    forall a, b | 0 <= a < b < |m| ensures m[a] != m[b] {
      if b < |columns| {
        assert m[a] == left[a] && m[b] == left[b];
      }
    }
    if ScoreColumn !in columns {
      assert left == columns;
    }
  }

  /** The scorer: the feature columns it scales and sums. */
  class GithubRepoScorer {
    var features: seq<string>

    constructor(features: seq<string>)
      ensures this.features == features
    {
      this.features := features;
    }

    /**
     * `score`: the repositories with one more column, the score of each row
     * (named "score_y" when a "score" column is already there, which then
     * becomes "score_x"); every row keeps its cells.
     */
    method Score(repositories: Frame) returns (r: Frame)
      requires Scorable(repositories, features)
      ensures WellFormed(r) && |r.rows| == |repositories.rows|
      ensures r.columns == MergedColumns(repositories.columns, [ScoreColumn])
      ensures forall i :: 0 <= i < |r.rows| ==> r.rows[i] == repositories.rows[i] + [Num(Scores(repositories, features)[i])]
    {
      var x := FeatureMatrix(repositories, features);
      var y := ScaleFeatures(x);
      var n := |repositories.rows|;
      var total := seq(n, i requires 0 <= i < n => Total(RowOf(y, i)));
      var scored := Frame([ScoreColumn], seq(n, i requires 0 <= i < n => [Num(total[i])]));
      ScoredColumns(repositories.columns);
      r := MergeOnIndex(repositories, scored);
    }
  }
}
