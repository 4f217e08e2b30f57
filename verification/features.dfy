/**
 * The candidate features of `features.py`: six columns added to the
 * repositories frame, each computed row by row from a few input columns.
 * The current time is a parameter (seconds, like the timestamps).
 */
module Features {
  import opened Frames
  import opened Text
  import opened Config

  /** Strictly more stars than this marks a repository as popular. */
  const MinStars := 20

  const BigCompanyList: seq<string> := [
    "Microsoft", "Meta Research", "Google", "BCG Gamma", "BCG-Gamma", "Amazon", "IBM",
    "salesforce", "facebookresearch", "Netflix", "AstraZeneca", "DeepMind", "PAIR",
    "LinkedIn", "tensorflow", "pytorch", "Capital One", "H2O.ai", "OpenAI", "SAP", "Uber"
  ]

  const AiKeywords: seq<string> := [
    "ml", "machine learning", "ai", "deep learning", "artificial intelligence",
    "reinforcement learning", "language model", "scientific", "statistics", "nlp",
    "computer vision", "deep-learning", "natural language processing",
    "differential-privacy", "differential privacy"
  ]

  const PriorityLanguages: seq<string> := ["Python", "C++", "R", "Java", "Julia", "Scala", "MATLAB", "C"]

  const IsBigCompanyColumn := "is_big_company"
  const IsPriorityLanguageColumn := "is_priority_language"
  const IsAboveMinStarsColumn := "is_above_min_stars"
  const YearsSinceCreationColumn := "repo_years_since_creation"
  const YearsSinceModificationColumn := "repo_years_since_modification"
  const ContainsAiKeywordsColumn := "repo_contains_ai_keywords"

  /** The name columns searched for a big company: repository, owner, organization. */
  const NameColumns := [RepositoryNameColumn, OwnerNameColumn, OrganizationNameColumn]
  const LanguageColumn := "repo_language"
  const CreatedAtColumn := "repo_created_at"
  const DescriptionColumn := "repo_description"
  const TopicsColumn := "repo_topics"
  /** The text columns searched for AI keywords. */
  const TextColumns := [DescriptionColumn, TopicsColumn]

  const SecondsPerDay := 86400
  const DaysPerYear := 365

  /** `np.where(mask, 1, 0)`. */
  function Flag(b: bool): Value
  {
    if b then Int(1) else Int(0)
  }

  /** The column list after assigning `c`: unchanged if present, else `c` appended. */
  function Added(columns: seq<string>, c: string): seq<string>
  {
    if c in columns then columns else columns + [c]
  }

  // ---------------------------------------------------------------- big company

  /** A company name without its last character. */
  function Stem(name: string): string
    requires |name| > 0
  {
    name[..|name| - 1]
  }

  /** The pattern `"*|".join(names) + "*"`: one branch per name, its last character starred. */
  function StarredNames(names: seq<string>): (regex: seq<Alternative>)
    requires forall n :: n in names ==> |n| > 0
    ensures |regex| == |names|
    ensures forall k :: 0 <= k < |names| ==> regex[k] == Starred(Stem(names[k]), names[k][|names[k]| - 1])
  {
    seq(|names|, k requires 0 <= k < |names| => Starred(Stem(names[k]), names[k][|names[k]| - 1]))
  }

  /** `str.contains(pattern, na=False, flags=re.IGNORECASE)` on one cell: only a string can match. */
  predicate NameMatches(v: Value, companies: seq<string>)
    requires forall n :: n in companies ==> |n| > 0
  {
    v.Str? && Search(StarredNames(companies), v.s, true)
  }

  /** The cell is a string holding, up to ASCII case, a listed name without its last character. */
  ghost predicate HoldsCompanyStem(v: Value, companies: seq<string>)
    requires forall n :: n in companies ==> |n| > 0
  {
    v.Str? && exists n, p :: n in companies && 0 <= p <= |v.s| && LiteralAt(Stem(n), v.s, p, true)
  }

  /** The pattern asks for the stem of a company name only, not for the whole name. */
  lemma NameMatchesStem(v: Value, companies: seq<string>)
    requires forall n :: n in companies ==> |n| > 0
    ensures NameMatches(v, companies) <==> HoldsCompanyStem(v, companies)
  {
    if v.Str? {
      var regex := StarredNames(companies);
      SearchFinds(regex, v.s, true);
      if NameMatches(v, companies) {
        var a, p :| a in regex && 0 <= p <= |v.s| && MatchesAt(a, v.s, p, true);
        var k :| 0 <= k < |regex| && regex[k] == a;
        assert companies[k] in companies && LiteralAt(Stem(companies[k]), v.s, p, true);
      }
      if HoldsCompanyStem(v, companies) {
        var n, p :| n in companies && 0 <= p <= |v.s| && LiteralAt(Stem(n), v.s, p, true);
        var k :| 0 <= k < |companies| && companies[k] == n;
        assert MatchesAt(regex[k], v.s, p, true);
      }
    }
  }

  /** One of the name columns of row `i` matches the pattern. */
  predicate BigCompanyRow(f: Frame, i: nat, companies: seq<string>, names: seq<string>)
    requires WellFormed(f) && i < |f.rows| && forall c :: c in names ==> c in f.columns
    requires forall n :: n in companies ==> |n| > 0
  {
    exists c :: c in names && NameMatches(Cell(f, i, c), companies)
  }

  /** `add_is_big_company`: 1 where the repository, owner or organization name matches, else 0. */
  function AddIsBigCompany(f: Frame, companies: seq<string>, names: seq<string>): (r: Frame)
    requires WellFormed(f) && forall c :: c in names ==> c in f.columns
    requires forall n :: n in companies ==> |n| > 0
    ensures WellFormed(r) && |r.rows| == |f.rows| && r.columns == Added(f.columns, IsBigCompanyColumn)
    ensures forall i :: 0 <= i < |r.rows| ==>
      Cell(r, i, IsBigCompanyColumn) == Flag(BigCompanyRow(f, i, companies, names))
    ensures forall i, d :: 0 <= i < |r.rows| && d in f.columns && d != IsBigCompanyColumn ==> Cell(r, i, d) == Cell(f, i, d)
  {
    Assign(f, IsBigCompanyColumn, seq(|f.rows|, i requires 0 <= i < |f.rows| => Flag(BigCompanyRow(f, i, companies, names))))
  }

  /** The flag is 1 exactly when some name column holds the stem of a listed company. */
  lemma BigCompanyFlag(f: Frame, i: nat, companies: seq<string>, names: seq<string>)
    requires WellFormed(f) && i < |f.rows| && forall c :: c in names ==> c in f.columns
    requires forall n :: n in companies ==> |n| > 0
    ensures Flag(BigCompanyRow(f, i, companies, names)) == Int(1) <==>
      exists c :: c in names && HoldsCompanyStem(Cell(f, i, c), companies)
    ensures Flag(BigCompanyRow(f, i, companies, names)) == Int(0) <==>
      forall c :: c in names ==> !HoldsCompanyStem(Cell(f, i, c), companies)
  {
    forall c | c in names ensures NameMatches(Cell(f, i, c), companies) <==> HoldsCompanyStem(Cell(f, i, c), companies) {
      NameMatchesStem(Cell(f, i, c), companies);
    }
  }

  /**
   * The starred last character makes the pattern match names that merely
   * contain a stem: "SAP" flags "Isaac", "Microsoft" flags "microsof".
   */
  lemma StemQuirk()
    ensures NameMatches(Str("Isaac"), BigCompanyList)
    ensures NameMatches(Str("microsof"), BigCompanyList)
  {
    assert "SAP" in BigCompanyList && "Microsoft" in BigCompanyList;
    assert LiteralAt(Stem("SAP"), "Isaac", 1, true);
    assert LiteralAt(Stem("Microsoft"), "microsof", 0, true);
    NameMatchesStem(Str("Isaac"), BigCompanyList);
    NameMatchesStem(Str("microsof"), BigCompanyList);
  }

  // ---------------------------------------------------------------- language

  /** `~isnull() & isin(languages)`: a string equal, case included, to a listed language. */
  predicate IsPriority(v: Value, languages: seq<string>)
  {
    v.Str? && v.s in languages
  }

  /** `add_is_priority_language`: 1 where the language is listed, else 0. */
  function AddIsPriorityLanguage(f: Frame, languages: seq<string>): (r: Frame)
    requires WellFormed(f) && LanguageColumn in f.columns
    ensures WellFormed(r) && |r.rows| == |f.rows| && r.columns == Added(f.columns, IsPriorityLanguageColumn)
    ensures forall i :: 0 <= i < |r.rows| ==>
      (Cell(r, i, IsPriorityLanguageColumn) == Int(1) <==> Cell(f, i, LanguageColumn).Str? && Cell(f, i, LanguageColumn).s in languages)
    ensures forall i :: 0 <= i < |r.rows| ==> Cell(r, i, IsPriorityLanguageColumn) == Flag(IsPriority(Cell(f, i, LanguageColumn), languages))
    ensures forall i, d :: 0 <= i < |r.rows| && d in f.columns && d != IsPriorityLanguageColumn ==> Cell(r, i, d) == Cell(f, i, d)
  {
    Assign(f, IsPriorityLanguageColumn, seq(|f.rows|, i requires 0 <= i < |f.rows| => Flag(IsPriority(Cell(f, i, LanguageColumn), languages))))
  }

  /** Matching is exact: a missing language or another spelling is not a priority language. */
  lemma PriorityLanguageExact()
    ensures IsPriority(Str("Python"), PriorityLanguages) && IsPriority(Str("C"), PriorityLanguages)
    ensures !IsPriority(Str("python"), PriorityLanguages) && !IsPriority(Null, PriorityLanguages)
    ensures !IsPriority(Str("TypeScript"), PriorityLanguages)
  {
    assert "python"[0] == 'p';
    assert "TypeScript"[0] == 'T';
  }

  // ---------------------------------------------------------------- stars

  /** `v > minStars` as pandas evaluates it; a missing value compares false. */
  predicate AboveMinStars(v: Value, minStars: int)
    requires Numeric(v)
  {
    match v
    case Int(n) => n > minStars
    case Num(x) => x > minStars as real
    case Bool(b) => (if b then 1 else 0) > minStars
    case Null => false
  }

  /** `add_is_above_min_stars`: 1 where the star count exceeds the threshold, else 0. */
  function AddIsAboveMinStars(f: Frame, minStars: int): (r: Frame)
    requires WellFormed(f) && RepositoryStarsColumn in f.columns
    requires forall i :: 0 <= i < |f.rows| ==> Numeric(Cell(f, i, RepositoryStarsColumn))
    ensures WellFormed(r) && |r.rows| == |f.rows| && r.columns == Added(f.columns, IsAboveMinStarsColumn)
    ensures forall i :: 0 <= i < |r.rows| ==> Cell(r, i, IsAboveMinStarsColumn) == Flag(AboveMinStars(Cell(f, i, RepositoryStarsColumn), minStars))
    ensures forall i, d :: 0 <= i < |r.rows| && d in f.columns && d != IsAboveMinStarsColumn ==> Cell(r, i, d) == Cell(f, i, d)
  {
    Assign(f, IsAboveMinStarsColumn, seq(|f.rows|, i requires 0 <= i < |f.rows| => Flag(AboveMinStars(Cell(f, i, RepositoryStarsColumn), minStars))))
  }

  /** The threshold is strict: 21 stars count, 20 do not, and no missing count does. */
  lemma StarsThresholdStrict(n: int)
    ensures AboveMinStars(Int(n), MinStars) <==> n >= 21
    ensures AboveMinStars(Num(n as real), MinStars) <==> n >= 21
    ensures !AboveMinStars(Null, MinStars)
  {
  }

  // ---------------------------------------------------------------- recency

  /** A timestamp, or a missing one (`NaT`). */
  predicate Temporal(v: Value)
  {
    v.Null? || v.Time?
  }

  /** `(now - t).dt.days / 365`: whole days elapsed, rounded down, in years; missing stays missing. */
  function YearsSince(now: int, v: Value): (y: Value)
    requires Temporal(v)
    ensures v.Null? <==> y.Null?
    ensures v.Time? ==> y.Num? && exists d: int ::
      (y.r == d as real / DaysPerYear as real && d * SecondsPerDay <= now - v.t < (d + 1) * SecondsPerDay)
  {
    match v
    case Null => Null
    case Time(t) =>
      var d := (now - t) / SecondsPerDay;
      assert now - t == d * SecondsPerDay + (now - t) % SecondsPerDay;
      assert d * SecondsPerDay <= now - t < (d + 1) * SecondsPerDay;
      Num(d as real / DaysPerYear as real)
  }

  /** An older timestamp is at least as many years ago, and none in the past is negative. */
  lemma YearsSinceMonotone(now: int, t1: int, t2: int)
    requires t1 <= t2
    ensures YearsSince(now, Time(t1)).r >= YearsSince(now, Time(t2)).r
    ensures t2 <= now ==> YearsSince(now, Time(t2)).r >= 0.0
  {
    var d1, d2 := (now - t1) / SecondsPerDay, (now - t2) / SecondsPerDay;
    assert d2 * SecondsPerDay <= now - t2 <= now - t1 < (d1 + 1) * SecondsPerDay;
    assert d2 <= d1;
  }

  /** `add_years_since_creation` and `add_years_since_last_modification`: years since the `source` timestamp. */
  function AddYearsSince(f: Frame, now: int, source: string, target: string): (r: Frame)
    requires WellFormed(f) && source in f.columns
    requires forall i :: 0 <= i < |f.rows| ==> Temporal(Cell(f, i, source))
    ensures WellFormed(r) && |r.rows| == |f.rows| && r.columns == Added(f.columns, target)
    ensures forall i :: 0 <= i < |r.rows| ==> Cell(r, i, target) == YearsSince(now, Cell(f, i, source))
    ensures forall i, d :: 0 <= i < |r.rows| && d in f.columns && d != target ==> Cell(r, i, d) == Cell(f, i, d)
  {
    Assign(f, target, seq(|f.rows|, i requires 0 <= i < |f.rows| => YearsSince(now, Cell(f, i, source))))
  }

  // ---------------------------------------------------------------- keywords

  /** The pattern `\b k1\b|\b k2\b|…`: one word-bounded branch per keyword. */
  function BoundedWords(words: seq<string>): (regex: seq<Alternative>)
    ensures |regex| == |words| && forall k :: 0 <= k < |words| ==> regex[k] == Bounded(words[k])
  {
    seq(|words|, k requires 0 <= k < |words| => Bounded(words[k]))
  }

  /** `str.lower().str.contains(pattern, na=False)` on one cell. */
  predicate MentionsKeyword(v: Value, keywords: seq<string>)
  {
    v.Str? && Search(BoundedWords(keywords), LowerString(v.s), false)
  }

  /** The lower-cased text holds a keyword with no word character right before or after it. */
  ghost predicate HoldsWholeKeyword(v: Value, keywords: seq<string>)
  {
    v.Str? && exists k, p :: k in keywords && 0 <= p <= |v.s| && MatchesAt(Bounded(k), LowerString(v.s), p, false)
  }

  lemma MentionsWholeKeyword(v: Value, keywords: seq<string>)
    ensures MentionsKeyword(v, keywords) <==> HoldsWholeKeyword(v, keywords)
  {
    if v.Str? {
      var text := LowerString(v.s);
      var regex := BoundedWords(keywords);
      SearchFinds(regex, text, false);
      if MentionsKeyword(v, keywords) {
        var a, p :| a in regex && 0 <= p <= |text| && MatchesAt(a, text, p, false);
        var k :| 0 <= k < |regex| && regex[k] == a;
        assert keywords[k] in keywords;
      }
      if HoldsWholeKeyword(v, keywords) {
        var w, p :| w in keywords && 0 <= p <= |v.s| && MatchesAt(Bounded(w), text, p, false);
        var k :| 0 <= k < |keywords| && keywords[k] == w;
        assert regex[k] in regex;
      }
    }
  }

  /** A keyword followed by a non-word character is found: "ML-based" mentions "ml". */
  lemma KeywordBeforeHyphen()
    ensures MentionsKeyword(Str("ML-based"), AiKeywords)
  {
    var text := LowerString("ML-based");
    assert text[..3] == "ml-";
    assert MatchesAt(Bounded("ml"), text, 0, false);
    MentionsWholeKeyword(Str("ML-based"), AiKeywords);
  }

  /** A keyword inside a word is not found: "HTML" does not mention "ml". */
  lemma KeywordInsideWord()
    ensures !MentionsKeyword(Str("HTML"), ["ml"])
  {
    var html := LowerString("HTML");
    assert html == "html";
    forall p | 0 <= p <= |html| ensures !MatchesAt(Bounded("ml"), html, p, false) {
      if p == 2 {
        NoMatchInsideWord("ml", html, 2, false);
      }
    }
    MentionsWholeKeyword(Str("HTML"), ["ml"]);
  }

  /** Either text column of row `i` mentions a keyword. */
  predicate KeywordRow(f: Frame, i: nat, keywords: seq<string>)
    requires WellFormed(f) && i < |f.rows| && DescriptionColumn in f.columns && TopicsColumn in f.columns
  {
    MentionsKeyword(Cell(f, i, DescriptionColumn), keywords) || MentionsKeyword(Cell(f, i, TopicsColumn), keywords)
  }

  /** `add_repo_contains_ai_keywords`: 1 where the description or the topics mention a keyword. */
  function AddContainsAiKeywords(f: Frame, keywords: seq<string>): (r: Frame)
    requires WellFormed(f) && DescriptionColumn in f.columns && TopicsColumn in f.columns
    ensures WellFormed(r) && |r.rows| == |f.rows| && r.columns == Added(f.columns, ContainsAiKeywordsColumn)
    ensures forall i :: 0 <= i < |r.rows| ==> Cell(r, i, ContainsAiKeywordsColumn) == Flag(KeywordRow(f, i, keywords))
    ensures forall i, d :: 0 <= i < |r.rows| && d in f.columns && d != ContainsAiKeywordsColumn ==> Cell(r, i, d) == Cell(f, i, d)
  {
    Assign(f, ContainsAiKeywordsColumn, seq(|f.rows|, i requires 0 <= i < |f.rows| => Flag(KeywordRow(f, i, keywords))))
  }

  // ---------------------------------------------------------------- pipeline

  /** One `pipe` stage of `add_features`. */
  datatype Stage =
    | BigCompany | PriorityLanguage | AboveMinStarsStage
    | YearsSinceCreation | YearsSinceModification | ContainsAiKeywords

  /** What the stages are parameterised by: the lists, the threshold and the name columns searched. */
  datatype Settings = Settings(companies: seq<string>, nameColumns: seq<string>, languages: seq<string>,
                               minStars: int, keywords: seq<string>)

  const FeatureSettings := Settings(BigCompanyList, NameColumns, PriorityLanguages, MinStars, AiKeywords)

  /** The feature columns, in the order they are added. */
  const FeatureColumns := [IsBigCompanyColumn, IsPriorityLanguageColumn, IsAboveMinStarsColumn,
                           YearsSinceCreationColumn, YearsSinceModificationColumn, ContainsAiKeywordsColumn]

  /** The stages of `add_features`, in order. */
  const FeaturePipeline := [BigCompany, PriorityLanguage, AboveMinStarsStage,
                            YearsSinceCreation, YearsSinceModification, ContainsAiKeywords]

  /** The column a stage writes. */
  function Output(s: Stage): string
  {
    match s
    case BigCompany => IsBigCompanyColumn
    case PriorityLanguage => IsPriorityLanguageColumn
    case AboveMinStarsStage => IsAboveMinStarsColumn
    case YearsSinceCreation => YearsSinceCreationColumn
    case YearsSinceModification => YearsSinceModificationColumn
    case ContainsAiKeywords => ContainsAiKeywordsColumn
  }

  function Outputs(stages: seq<Stage>): (cs: seq<string>)
    ensures |cs| == |stages| && forall k :: 0 <= k < |stages| ==> cs[k] == Output(stages[k])
  {
    seq(|stages|, k requires 0 <= k < |stages| => Output(stages[k]))
  }

  /** The columns a stage reads. */
  function Reads(s: Stage, st: Settings): seq<string>
  {
    match s
    case BigCompany => st.nameColumns
    case PriorityLanguage => [LanguageColumn]
    case AboveMinStarsStage => [RepositoryStarsColumn]
    case YearsSinceCreation => [CreatedAtColumn]
    case YearsSinceModification => [RepositoryLastModifiedColumn]
    case ContainsAiKeywords => TextColumns
  }

  /** Every company has a name, so every pattern branch has a last character to star. */
  predicate Named(st: Settings)
  {
    forall n :: n in st.companies ==> |n| > 0
  }

  /** Settings a pipeline can run with: named companies, and no stage writes a column a stage reads. */
  predicate ValidSettings(st: Settings)
  {
    && Named(st)
    && (forall s, t, c :: c in Reads(t, st) ==> c != Output(s))
  }

  /** What a stage needs of the frame: the columns it reads, holding values it can compare or subtract. */
  predicate Ready(f: Frame, s: Stage, st: Settings)
  {
    && WellFormed(f)
    && (forall c :: c in Reads(s, st) ==> c in f.columns)
    && match s
       case AboveMinStarsStage =>
         RepositoryStarsColumn in f.columns && forall i :: 0 <= i < |f.rows| ==> Numeric(Cell(f, i, RepositoryStarsColumn))
       case YearsSinceCreation =>
         CreatedAtColumn in f.columns && forall i :: 0 <= i < |f.rows| ==> Temporal(Cell(f, i, CreatedAtColumn))
       case YearsSinceModification =>
         RepositoryLastModifiedColumn in f.columns &&
         forall i :: 0 <= i < |f.rows| ==> Temporal(Cell(f, i, RepositoryLastModifiedColumn))
       case _ => true
  }

  /** The value stage `s` computes for row `i` of `f`. */
  function StageValue(f: Frame, i: nat, s: Stage, st: Settings, now: int): Value
    requires Named(st) && Ready(f, s, st) && i < |f.rows|
  {
    match s
    case BigCompany => Flag(BigCompanyRow(f, i, st.companies, st.nameColumns))
    case PriorityLanguage => Flag(IsPriority(Cell(f, i, LanguageColumn), st.languages))
    case AboveMinStarsStage => Flag(AboveMinStars(Cell(f, i, RepositoryStarsColumn), st.minStars))
    case YearsSinceCreation => YearsSince(now, Cell(f, i, CreatedAtColumn))
    case YearsSinceModification => YearsSince(now, Cell(f, i, RepositoryLastModifiedColumn))
    case ContainsAiKeywords => Flag(KeywordRow(f, i, st.keywords))
  }

  /** One stage: its column assigned, holding its value on every row, every other cell unchanged. */
  function Apply(f: Frame, s: Stage, st: Settings, now: int): (r: Frame)
    requires Named(st) && Ready(f, s, st)
    ensures WellFormed(r) && |r.rows| == |f.rows| && r.columns == Added(f.columns, Output(s))
    ensures forall i :: 0 <= i < |r.rows| ==> Cell(r, i, Output(s)) == StageValue(f, i, s, st, now)
    ensures forall i, d :: 0 <= i < |r.rows| && d in f.columns && d != Output(s) ==> Cell(r, i, d) == Cell(f, i, d)
  {
    match s
    case BigCompany => AddIsBigCompany(f, st.companies, st.nameColumns)
    case PriorityLanguage => AddIsPriorityLanguage(f, st.languages)
    case AboveMinStarsStage => AddIsAboveMinStars(f, st.minStars)
    case YearsSinceCreation => AddYearsSince(f, now, CreatedAtColumn, YearsSinceCreationColumn)
    case YearsSinceModification => AddYearsSince(f, now, RepositoryLastModifiedColumn, YearsSinceModificationColumn)
    case ContainsAiKeywords => AddContainsAiKeywords(f, st.keywords)
  }

  /** `r` holds the cells of `f` in every column of `f` outside `except`. */
  predicate Keeps(r: Frame, f: Frame, except: seq<string>)
    requires WellFormed(r) && WellFormed(f) && |r.rows| == |f.rows| && forall c :: c in f.columns ==> c in r.columns
  {
    forall i, d :: 0 <= i < |f.rows| && d in f.columns && d !in except ==> Cell(r, i, d) == Cell(f, i, d)
  }

  /** A frame that agrees with a ready frame on the columns a stage reads is ready too, with the same values. */
  lemma ReadyKept(f: Frame, g: Frame, s: Stage, st: Settings, now: int)
    requires Named(st) && Ready(f, s, st) && WellFormed(g) && |g.rows| == |f.rows|
    requires forall c :: c in f.columns ==> c in g.columns
    requires forall i, c :: 0 <= i < |f.rows| && c in Reads(s, st) ==> Cell(g, i, c) == Cell(f, i, c)
    ensures Ready(g, s, st)
    ensures forall i :: 0 <= i < |f.rows| ==> StageValue(g, i, s, st, now) == StageValue(f, i, s, st, now)
  {
    match s
    case BigCompany =>
      forall i | 0 <= i < |f.rows|
        ensures BigCompanyRow(g, i, st.companies, st.nameColumns) == BigCompanyRow(f, i, st.companies, st.nameColumns)
      {
        assert forall c :: c in st.nameColumns ==> Cell(g, i, c) == Cell(f, i, c);
      }
    case PriorityLanguage =>
    case AboveMinStarsStage =>
      assert forall i :: 0 <= i < |f.rows| ==> Cell(g, i, RepositoryStarsColumn) == Cell(f, i, RepositoryStarsColumn);
    case YearsSinceCreation =>
      assert forall i :: 0 <= i < |f.rows| ==> Cell(g, i, CreatedAtColumn) == Cell(f, i, CreatedAtColumn);
    case YearsSinceModification =>
      assert forall i :: 0 <= i < |f.rows| ==> Cell(g, i, RepositoryLastModifiedColumn) == Cell(f, i, RepositoryLastModifiedColumn);
    case ContainsAiKeywords =>
      assert TextColumns == [DescriptionColumn, TopicsColumn];
  }

  /** Every stage of the list is ready. */
  predicate ReadyAll(f: Frame, stages: seq<Stage>, st: Settings)
  {
    forall s :: s in stages ==> Ready(f, s, st)
  }

  /** Applying a stage leaves every stage ready that was ready, with the same values. */
  lemma ApplyKeepsReady(f: Frame, s: Stage, stages: seq<Stage>, st: Settings, now: int)
    requires ValidSettings(st) && Ready(f, s, st) && ReadyAll(f, stages, st)
    ensures ReadyAll(Apply(f, s, st, now), stages, st)
  {
    var r := Apply(f, s, st, now);
    forall t | t in stages ensures Ready(r, t, st) {
      ReadyKept(f, r, t, st, now);
    }
  }

  /** `.pipe(stage).pipe(stage)…`: the stages applied in order. */
  function Pipe(f: Frame, stages: seq<Stage>, st: Settings, now: int): (r: Frame)
    requires ValidSettings(st) && WellFormed(f) && ReadyAll(f, stages, st)
    ensures WellFormed(r) && |r.rows| == |f.rows| && r.columns == AddedAll(f.columns, Outputs(stages))
    ensures (forall c :: c in f.columns ==> c in r.columns) && Keeps(r, f, Outputs(stages))
    decreases |stages|
  {
    if stages == [] then
      assert Outputs(stages) == [];
      f
    else
      var g := Apply(f, stages[0], st, now);
      ApplyKeepsReady(f, stages[0], stages[1..], st, now);
      var r := Pipe(g, stages[1..], st, now);
      assert Outputs(stages)[0] == Output(stages[0]) && Outputs(stages)[1..] == Outputs(stages[1..]);
      KeepsThrough(f, g, r, Outputs(stages));
      r
  }

  /** A stage that keeps all but its output, followed by stages that keep all but theirs, keeps all but every output. */
  lemma KeepsThrough(f: Frame, g: Frame, r: Frame, outs: seq<string>)
    requires outs != [] && WellFormed(f) && WellFormed(g) && WellFormed(r)
    requires |g.rows| == |f.rows| && |r.rows| == |g.rows| && g.columns == Added(f.columns, outs[0])
    requires forall i, d :: 0 <= i < |g.rows| && d in f.columns && d != outs[0] ==> Cell(g, i, d) == Cell(f, i, d)
    requires forall c :: c in g.columns ==> c in r.columns
    requires Keeps(r, g, outs[1..])
    ensures forall c :: c in f.columns ==> c in r.columns
    ensures Keeps(r, f, outs)
  {
    forall i, d | 0 <= i < |f.rows| && d in f.columns && d !in outs ensures Cell(r, i, d) == Cell(f, i, d) {
      assert d in g.columns && d !in outs[1..];
    }
  }

  /** The column list after assigning each of `cs` in turn. */
  function AddedAll(columns: seq<string>, cs: seq<string>): seq<string>
    decreases |cs|
  {
    if cs == [] then columns else AddedAll(Added(columns, cs[0]), cs[1..])
  }

  /** A column is there afterwards exactly when it was there before or was assigned. */
  lemma {:induction false} AddedAllColumns(columns: seq<string>, cs: seq<string>)
    ensures forall c :: c in AddedAll(columns, cs) <==> c in columns || c in cs
    decreases |cs|
  {
    if cs != [] {
      AddedAllColumns(Added(columns, cs[0]), cs[1..]);
      assert forall c :: c in cs <==> c == cs[0] || c in cs[1..];
    }
  }

  /** Assigning columns none of which is present, and no two alike, appends them in order. */
  lemma {:induction false} AddedAllAppends(columns: seq<string>, cs: seq<string>)
    requires Distinct(columns + cs)
    ensures AddedAll(columns, cs) == columns + cs
    decreases |cs|
  {
    if cs != [] {
      var n := |columns|;
      assert (columns + cs)[n] == cs[0];
      assert forall k :: 0 <= k < n ==> columns[k] == (columns + cs)[k] != (columns + cs)[n];
      assert columns + cs == (columns + [cs[0]]) + cs[1..];
      AddedAllAppends(columns + [cs[0]], cs[1..]);
    }
  }

  /** The settings of `add_features` are valid: no feature column is read by a stage, and no company name is empty. */
  lemma FeatureSettingsValid()
    ensures ValidSettings(FeatureSettings)
  {
  }

  /** The columns `add_features` writes, in order; no two alike. */
  lemma FeatureColumnsWritten()
    ensures Outputs(FeaturePipeline) == FeatureColumns && Distinct(FeatureColumns)
  {
  }

  /** After the pipeline, each stage's column holds that stage's value, computed from the input frame. */
  lemma {:induction false} PipeCells(f: Frame, stages: seq<Stage>, st: Settings, now: int)
    requires ValidSettings(st) && WellFormed(f) && ReadyAll(f, stages, st) && Distinct(Outputs(stages))
    ensures forall k :: 0 <= k < |stages| ==> Output(stages[k]) in Pipe(f, stages, st, now).columns
    ensures forall k, i :: 0 <= k < |stages| && 0 <= i < |f.rows| ==>
      Cell(Pipe(f, stages, st, now), i, Output(stages[k])) == StageValue(f, i, stages[k], st, now)
    decreases |stages|
  {
    if stages != [] {
      var r := Pipe(f, stages, st, now);
      var g := Apply(f, stages[0], st, now);
      ApplyKeepsReady(f, stages[0], stages[1..], st, now);
      assert r == Pipe(g, stages[1..], st, now);
      var outs := Outputs(stages);
      assert Outputs(stages[1..]) == outs[1..];
      assert Distinct(outs[1..]);
      PipeCells(g, stages[1..], st, now);
      assert Output(stages[0]) !in outs[1..] by {
        assert forall k :: 1 <= k < |outs| ==> outs[0] != outs[k];
      }
      forall k, i | 0 <= k < |stages| && 0 <= i < |f.rows|
        ensures Output(stages[k]) in r.columns
        ensures Cell(r, i, Output(stages[k])) == StageValue(f, i, stages[k], st, now)
      {
        if k > 0 {
          assert stages[k] == stages[1..][k - 1];
          ReadyKept(f, g, stages[k], st, now);
        }
      }
    }
  }

  /** A frame whose stage columns already hold the stage values is left as it is. */
  lemma {:induction false} PipeFixed(g: Frame, stages: seq<Stage>, st: Settings, now: int)
    requires ValidSettings(st) && WellFormed(g) && ReadyAll(g, stages, st)
    requires forall s :: s in stages ==> Output(s) in g.columns
    requires forall s, i :: s in stages && 0 <= i < |g.rows| ==> Cell(g, i, Output(s)) == StageValue(g, i, s, st, now)
    ensures Pipe(g, stages, st, now) == g
    decreases |stages|
  {
    if stages != [] {
      var g1 := Apply(g, stages[0], st, now);
      forall i, c | 0 <= i < |g.rows| && c in g.columns ensures Cell(g1, i, c) == Cell(g, i, c) {
      }
      SameCells(g1, g);
      PipeFixed(g, stages[1..], st, now);
    }
  }

  /** Running a pipeline twice is running it once: the second run recomputes the same values. */
  lemma PipeIdempotent(f: Frame, stages: seq<Stage>, st: Settings, now: int)
    requires ValidSettings(st) && WellFormed(f) && ReadyAll(f, stages, st) && Distinct(Outputs(stages))
    ensures ReadyAll(Pipe(f, stages, st, now), stages, st)
    ensures Pipe(Pipe(f, stages, st, now), stages, st, now) == Pipe(f, stages, st, now)
  {
    var r := Pipe(f, stages, st, now);
    var outs := Outputs(stages);
    AddedAllColumns(f.columns, outs);
    PipeCells(f, stages, st, now);
    forall s | s in stages ensures Ready(r, s, st) && forall i :: 0 <= i < |r.rows| ==> StageValue(r, i, s, st, now) == StageValue(f, i, s, st, now) {
      forall i, c | 0 <= i < |f.rows| && c in Reads(s, st) ensures Cell(r, i, c) == Cell(f, i, c) {
        assert c !in outs;
      }
      ReadyKept(f, r, s, st, now);
    }
    forall s, i | s in stages && 0 <= i < |r.rows| ensures Cell(r, i, Output(s)) == StageValue(r, i, s, st, now) {
      var k :| 0 <= k < |stages| && stages[k] == s;
    }
    PipeFixed(r, stages, st, now);
  }

  /** When no stage column is present yet, the pipeline appends them in stage order. */
  lemma PipeAppends(f: Frame, stages: seq<Stage>, st: Settings, now: int)
    requires ValidSettings(st) && WellFormed(f) && ReadyAll(f, stages, st) && Distinct(Outputs(stages))
    ensures (forall c :: c in Outputs(stages) ==> c !in f.columns) ==>
      Pipe(f, stages, st, now).columns == f.columns + Outputs(stages)
  {
    if forall c :: c in Outputs(stages) ==> c !in f.columns {
      DisjointConcatDistinct(f.columns, Outputs(stages));
      AddedAllAppends(f.columns, Outputs(stages));
    }
  }

  /** What `add_features` needs of its input: every stage ready. */
  predicate FeatureInputs(f: Frame)
  {
    && Ready(f, BigCompany, FeatureSettings) && Ready(f, PriorityLanguage, FeatureSettings)
    && Ready(f, AboveMinStarsStage, FeatureSettings) && Ready(f, YearsSinceCreation, FeatureSettings)
    && Ready(f, YearsSinceModification, FeatureSettings) && Ready(f, ContainsAiKeywords, FeatureSettings)
  }

  lemma FeatureInputsReady(f: Frame)
    requires FeatureInputs(f)
    ensures WellFormed(f) && ReadyAll(f, FeaturePipeline, FeatureSettings)
  {
  }

  /**
   * `add_features`: the six stages in order. The feature columns are
   * assigned (appended when absent), and every other cell is left as it was.
   */
  function AddFeatures(f: Frame, now: int): (r: Frame)
    requires FeatureInputs(f)
    ensures WellFormed(r) && |r.rows| == |f.rows|
  {
    FeatureInputsReady(f);
    FeatureSettingsValid();
    Pipe(f, FeaturePipeline, FeatureSettings, now)
  }

  /**
   * The feature columns are assigned (appended in order when none is
   * present), and every other cell is left as it was.
   */
  lemma AddFeaturesColumns(f: Frame, now: int)
    requires FeatureInputs(f)
    ensures var r := AddFeatures(f, now);
      && (forall c :: c in r.columns <==> c in f.columns || c in FeatureColumns)
      && ((forall c :: c in FeatureColumns ==> c !in f.columns) ==> r.columns == f.columns + FeatureColumns)
      && forall i, d :: 0 <= i < |f.rows| && d in f.columns && d !in FeatureColumns ==> Cell(r, i, d) == Cell(f, i, d)
  {
    FeatureInputsReady(f);
    FeatureSettingsValid();
    FeatureColumnsWritten();
    AddedAllColumns(f.columns, FeatureColumns);
    PipeAppends(f, FeaturePipeline, FeatureSettings, now);
  }

  /**
   * What each feature column of a row holds after `add_features`: the value
   * its stage computes from the input row (see `StageValue`).
   */
  lemma AddFeaturesCells(f: Frame, now: int, k: nat, i: nat)
    requires FeatureInputs(f) && k < |FeaturePipeline| && i < |f.rows|
    ensures Named(FeatureSettings)
    ensures Output(FeaturePipeline[k]) in AddFeatures(f, now).columns
    ensures Cell(AddFeatures(f, now), i, Output(FeaturePipeline[k])) == StageValue(f, i, FeaturePipeline[k], FeatureSettings, now)
  {
    FeatureSettingsValid();
    FeatureInputsReady(f);
    FeatureColumnsWritten();
    StageCell(f, FeaturePipeline, FeatureSettings, now, FeaturePipeline[k], i);
  }



  lemma StageCell(f: Frame, stages: seq<Stage>, st: Settings, now: int, s: Stage, i: nat)
    requires ValidSettings(st) && WellFormed(f) && ReadyAll(f, stages, st) && Distinct(Outputs(stages))
    requires s in stages && i < |f.rows|
    ensures Output(s) in Pipe(f, stages, st, now).columns
    ensures Cell(Pipe(f, stages, st, now), i, Output(s)) == StageValue(f, i, s, st, now)
  {
    PipeCells(f, stages, st, now);
    var k :| 0 <= k < |stages| && stages[k] == s;
  }

  /** Adding the features to a frame that already has them changes nothing. */
  lemma AddFeaturesIdempotent(f: Frame, now: int)
    requires FeatureInputs(f)
    ensures FeatureInputs(AddFeatures(f, now))
    ensures AddFeatures(AddFeatures(f, now), now) == AddFeatures(f, now)
  {
    FeatureInputsReady(f);
    FeatureSettingsValid();
    FeatureColumnsWritten();
    PipeIdempotent(f, FeaturePipeline, FeatureSettings, now);
  }

  /** Every column a stage of `add_features` reads is one the collector writes. */
  lemma ReadsAreCollected()
    ensures forall s, c :: c in Reads(s, FeatureSettings) ==>
      c in LevelColumns(Repository) + LevelColumns(Owner) + LevelColumns(Organization)
  {
    forall s, c | c in Reads(s, FeatureSettings)
      ensures c in LevelColumns(Repository) + LevelColumns(Owner) + LevelColumns(Organization)
    {
      StageReadsCollected(s, c);
    }
  }

  lemma NameColumnsCollected(c: string)
    requires c in FeatureSettings.nameColumns
    ensures c in LevelColumns(Repository) + LevelColumns(Owner) + LevelColumns(Organization)
  {
    var r, o, g := LevelColumns(Repository), LevelColumns(Owner), LevelColumns(Organization);
    OwnerColumnsNamed();
    OrganizationColumnsNamed();
    RepositoryColumnsNamed();
    assert c == r[1] || c == o[1] || c == g[1];
    assert r[1] == (r + o + g)[1] && o[1] == (r + o + g)[|r| + 1] && g[1] == (r + o + g)[|r| + |o| + 1];
  }

  lemma StageReadsCollected(s: Stage, c: string)
    requires c in Reads(s, FeatureSettings)
    ensures c in LevelColumns(Repository) + LevelColumns(Owner) + LevelColumns(Organization)
  {
    var r, o, g := LevelColumns(Repository), LevelColumns(Owner), LevelColumns(Organization);
    match s
    case BigCompany => NameColumnsCollected(c);
    case PriorityLanguage =>
      assert Repository.attributes[7] == "language";
      assert c == r[7] == (r + o + g)[7];
    case AboveMinStarsStage =>
      RepositoryColumnsNamed();
      assert c == r[2] == (r + o + g)[2];
    case YearsSinceCreation =>
      assert Repository.attributes[11] == "created_at";
      assert c == r[11] == (r + o + g)[11];
    case YearsSinceModification =>
      RepositoryColumnsNamed();
      assert c == r[12] == (r + o + g)[12];
    case ContainsAiKeywords =>
      assert Repository.attributes[4] == "description" && Repository.attributes[5] == "topics";
      assert c == r[4] || c == r[5];
      assert r[4] == (r + o + g)[4] && r[5] == (r + o + g)[5];
  }
}
