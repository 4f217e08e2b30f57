/**
 * The deduplicating collection loop of `GithubCollector`.  The search client
 * is replaced by a function from query text to the stream of raw results it
 * would yield; a stream may raise once it has yielded its items.  A missing
 * attribute on a raw entity (`getattr` raising) makes the whole query fail,
 * like any other exception inside the `try`.  The row layout is the
 * `github_data` argument of the collector, `GithubData` by default.
 */
module Collect {
  import opened Wrappers
  import opened Frames
  import opened Config

  /** At most this many queries of a category are issued. */
  const LimitPerQuery := 10
  /** At most this many results of a query are examined. */
  const TopCandidatesPerQuery := 250
  /** Appended to every query: search the readme and the description. */
  const SearchScope := "+in:readme+in:description"
  const CategoryColumn := "taxo_category"
  const QueryColumn := "query"

  /** The attributes a raw API object exposes, by name. */
  type Attributes = map<string, Value>

  /** A raw search result: the repository, its owner and its organization, if any. */
  datatype RawRepository = RawRepository(attributes: Attributes, owner: Attributes, organization: Option<Attributes>)

  /** What the search client yields for one query: these results, then an exception if `raises`. */
  datatype ResultStream = ResultStream(items: seq<RawRepository>, raises: bool)

  /** One query as issued: its category and its text. */
  datatype Query = Query(category: string, text: string)

  /** The result of running a list of queries: the data, the known ids, and whether a query failed. */
  datatype Progress = Progress(data: Frame, known: set<Value>, failed: bool)

  /** `get_dataset_column_names`: the prefixed attributes of every level, level by level. */
  function ColumnNames(layout: Layout): (names: seq<string>)
    ensures |names| == |layout.repository.attributes| + |layout.owner.attributes| + |layout.organization.attributes|
  {
    LevelColumns(layout.repository) + LevelColumns(layout.owner) + LevelColumns(layout.organization)
  }

  /** No prefix of one level begins the prefix of another. */
  predicate Incomparable(p: string, q: string)
  {
    !(p <= q) && !(q <= p)
  }

  /**
   * A layout the collector can use: attributes unique within a level,
   * prefixes pairwise incomparable, the repository id first, and no column
   * clashing with the two tag columns.
   */
  predicate ValidLayout(layout: Layout)
  {
    && Distinct(layout.repository.attributes)
    && Distinct(layout.owner.attributes)
    && Distinct(layout.organization.attributes)
    && Incomparable(layout.repository.prefix, layout.owner.prefix)
    && Incomparable(layout.repository.prefix, layout.organization.prefix)
    && Incomparable(layout.owner.prefix, layout.organization.prefix)
    && |layout.repository.attributes| > 0 && layout.repository.attributes[0] == "id"
    && Untagged(layout.repository) && Untagged(layout.owner) && Untagged(layout.organization)
  }

  /** No column of the level can be mistaken for a tag column. */
  predicate Untagged(l: Level)
  {
    !(l.prefix <= CategoryColumn) && !(l.prefix <= QueryColumn)
  }

  /** A column of an untagged level is neither tag column. */
  lemma UntaggedColumns(l: Level)
    requires Untagged(l)
    ensures CategoryColumn !in LevelColumns(l) && QueryColumn !in LevelColumns(l)
  {
    var names := LevelColumns(l);
    forall i | 0 <= i < |names| ensures names[i] != CategoryColumn && names[i] != QueryColumn {
      assert names[i][..|l.prefix|] == l.prefix;
    }
  }

  lemma GluedNamesClash(p: string, a: string, q: string, b: string)
    requires p + a == q + b
    ensures p <= q || q <= p
  {
    if |p| <= |q| {
      assert p == (p + a)[..|p|] == (q + b)[..|p|];
    } else {
      assert q == (q + b)[..|q|] == (p + a)[..|q|];
    }
  }

  /** Levels with incomparable prefixes share no column name. */
  lemma LevelColumnsApart(l: Level, m: Level)
    requires Incomparable(l.prefix, m.prefix)
    ensures forall c :: c in LevelColumns(m) ==> c !in LevelColumns(l)
  {
    var ls, ms := LevelColumns(l), LevelColumns(m);
    forall i, j | 0 <= i < |ls| && 0 <= j < |ms| ensures ls[i] != ms[j] {
      if ls[i] == ms[j] {
        GluedNamesClash(l.prefix, l.attributes[i], m.prefix, m.attributes[j]);
      }
    }
  }

  /** A valid layout names every column once, and the repository id comes first. */
  lemma ColumnNamesDistinct(layout: Layout)
    requires ValidLayout(layout)
    ensures Distinct(ColumnNames(layout))
    ensures ColumnNames(layout)[0] == layout.repository.prefix + "id"
    ensures CategoryColumn !in ColumnNames(layout) && QueryColumn !in ColumnNames(layout)
  {
    var r, o, g := layout.repository, layout.owner, layout.organization;
    UntaggedColumns(r);
    UntaggedColumns(o);
    UntaggedColumns(g);
    LevelColumnsDistinct(r);
    LevelColumnsDistinct(o);
    LevelColumnsDistinct(g);
    LevelColumnsApart(r, o);
    LevelColumnsApart(r, g);
    LevelColumnsApart(o, g);
    DisjointConcatDistinct(LevelColumns(r), LevelColumns(o));
    DisjointConcatDistinct(LevelColumns(r) + LevelColumns(o), LevelColumns(g));
  }

  /** The configured layout is valid and gives 53 columns, `repo_id` first. */
  lemma ConfiguredLayout()
    ensures ValidLayout(GithubData)
    ensures |ColumnNames(GithubData)| == 53
  {
    AttributeLists();
    IdLeadsEveryLevel();
    PrefixesIncomparable();
    ConfiguredLevelsUntagged();
  }

  lemma ConfiguredLevelsUntagged()
    ensures Untagged(Repository) && Untagged(Owner) && Untagged(Organization)
  {
    assert CategoryColumn[0] == 't' && QueryColumn[0] == 'q';
    assert Repository.prefix[0] == 'r' && Owner.prefix[0] == 'o' && Organization.prefix[0] == 'o';
  }

  /** The columns of the accumulated data: a record followed by its category and query. */
  function CollectedColumns(layout: Layout): (names: seq<string>)
    requires ValidLayout(layout)
    ensures |names| == |ColumnNames(layout)| + 2
    ensures Distinct(names)
    ensures names[0] == layout.repository.prefix + "id" && IndexOf(names, layout.repository.prefix + "id") == 0
  {
    var base := ColumnNames(layout);
    ColumnNamesDistinct(layout);
    DistinctAppendTwo(base, CategoryColumn, QueryColumn);
    base + [CategoryColumn, QueryColumn]
  }

  /** `create_record`: the entity's value for each property, or nothing when one is missing. */
  function CreateRecord(entity: Attributes, properties: seq<string>): (r: Option<Row>)
    ensures r.Some? <==> forall p :: p in properties ==> p in entity
    ensures r.Some? ==> |r.value| == |properties|
    ensures r.Some? ==> forall i :: 0 <= i < |properties| ==> r.value[i] == entity[properties[i]]
  {
    if forall p :: p in properties ==> p in entity then
      Some(seq(|properties|, i requires 0 <= i < |properties| => entity[properties[i]]))
    else
      None
  }

  predicate HasAll(entity: Attributes, l: Level)
  {
    forall p :: p in l.attributes ==> p in entity
  }

  /**
   * The flat record of one result: repository part, owner part, then the
   * organization part, all null when the repository has no organization.
   */
  function RepositoryRecord(repo: RawRepository, layout: Layout): (r: Option<Row>)
    ensures r.Some? <==>
      HasAll(repo.attributes, layout.repository) && HasAll(repo.owner, layout.owner) &&
      (repo.organization.Some? ==> HasAll(repo.organization.value, layout.organization))
    ensures r.Some? ==> |r.value| == |ColumnNames(layout)|
    ensures r.Some? ==> forall j :: 0 <= j < |layout.repository.attributes| ==>
      r.value[j] == repo.attributes[layout.repository.attributes[j]]
    ensures r.Some? ==> forall j :: 0 <= j < |layout.owner.attributes| ==>
      r.value[|layout.repository.attributes| + j] == repo.owner[layout.owner.attributes[j]]
    ensures r.Some? ==> forall j :: 0 <= j < |layout.organization.attributes| ==>
      r.value[|layout.repository.attributes| + |layout.owner.attributes| + j] ==
        match repo.organization
        case Some(o) => o[layout.organization.attributes[j]]
        case None => Null
  {
    var repoData := CreateRecord(repo.attributes, layout.repository.attributes);
    var ownerData := CreateRecord(repo.owner, layout.owner.attributes);
    var organizationData := match repo.organization
      case Some(o) => CreateRecord(o, layout.organization.attributes)
      case None => Some(seq(|layout.organization.attributes|, _ => Null));
    if repoData.None? || ownerData.None? || organizationData.None? then None
    else Some(repoData.value + ownerData.value + organizationData.value)
  }

  /** Under a valid layout a record starts with the repository id. */
  lemma RecordStartsWithId(repo: RawRepository, layout: Layout)
    requires ValidLayout(layout) && RepositoryRecord(repo, layout).Some?
    ensures "id" in repo.attributes && RepositoryRecord(repo, layout).value[0] == repo.attributes["id"]
  {
    assert layout.repository.attributes[0] in layout.repository.attributes;
  }

  /** The result ends the query: its id is missing, or it is new and its record cannot be built. */
  predicate Faulty(repo: RawRepository, known: set<Value>, layout: Layout)
  {
    "id" !in repo.attributes || (repo.attributes["id"] !in known && RepositoryRecord(repo, layout).None?)
  }

  /** The result yields a row: its id is new and its record can be built. */
  predicate Admitted(repo: RawRepository, known: set<Value>, layout: Layout)
  {
    "id" in repo.attributes && repo.attributes["id"] !in known && RepositoryRecord(repo, layout).Some?
  }

  /**
   * The rows the examination loop builds from `items`, skipping every result
   * whose id is known; nothing when a result is faulty.  Ids are not added to
   * `known` along the way, so a new id that occurs twice yields two rows.
   */
  function Accept(items: seq<RawRepository>, known: set<Value>, layout: Layout): (r: Option<seq<Row>>)
    requires ValidLayout(layout)
    ensures r.Some? ==> forall i :: 0 <= i < |r.value| ==>
      |r.value[i]| == |ColumnNames(layout)| && r.value[i][0] !in known
  {
    if items == [] then Some([])
    else
      var n := |items| - 1;
      var repo := items[n];
      match Accept(items[..n], known, layout)
      case None => None
      case Some(rows) =>
        if "id" !in repo.attributes then None
        else if repo.attributes["id"] in known then Some(rows)
        else match RepositoryRecord(repo, layout)
          case None => None
          case Some(record) =>
            RecordStartsWithId(repo, layout);
            Some(rows + [record])
  }

  /** The query fails exactly when one of the examined results is faulty. */
  lemma {:induction false} AcceptFails(items: seq<RawRepository>, known: set<Value>, layout: Layout)
    requires ValidLayout(layout)
    ensures Accept(items, known, layout).None? <==> exists j :: 0 <= j < |items| && Faulty(items[j], known, layout)
  {
    if items != [] {
      var n := |items| - 1;
      AcceptFails(items[..n], known, layout);
      assert forall j :: 0 <= j < n ==> items[..n][j] == items[j];
      if exists j :: 0 <= j < n && Faulty(items[j], known, layout) {
        var j :| 0 <= j < n && Faulty(items[j], known, layout);
        assert Faulty(items[..n][j], known, layout);
      }
    }
  }

  /** The row is the record of an admitted result among `items`. */
  predicate Produced(row: Row, items: seq<RawRepository>, known: set<Value>, layout: Layout)
  {
    exists j :: 0 <= j < |items| && Admitted(items[j], known, layout) && row == RepositoryRecord(items[j], layout).value
  }

  /**
   * The rows of a successful query are exactly the records of the admitted
   * results: each row is one, and each admitted result gives one.
   */
  lemma {:induction false} AcceptRows(items: seq<RawRepository>, known: set<Value>, layout: Layout)
    requires ValidLayout(layout) && Accept(items, known, layout).Some?
    ensures var rows := Accept(items, known, layout).value;
      forall i :: 0 <= i < |rows| ==> Produced(rows[i], items, known, layout)
    ensures var rows := Accept(items, known, layout).value;
      forall j :: 0 <= j < |items| && Admitted(items[j], known, layout) ==>
        RepositoryRecord(items[j], layout).value in rows
  {
    if items != [] {
      var n := |items| - 1;
      var front := items[..n];
      AcceptRows(front, known, layout);
      var prev := Accept(front, known, layout).value;
      var rows := Accept(items, known, layout).value;
      assert rows[..|prev|] == prev;
      forall i | 0 <= i < |rows| ensures Produced(rows[i], items, known, layout)
      {
        if i < |prev| {
          assert Produced(prev[i], front, known, layout);
          var j :| 0 <= j < |front| && Admitted(front[j], known, layout) && prev[i] == RepositoryRecord(front[j], layout).value;
          assert front[j] == items[j];
        } else {
          assert rows[i] == RepositoryRecord(items[n], layout).value;
        }
      }
      forall j | 0 <= j < |items| && Admitted(items[j], known, layout)
        ensures RepositoryRecord(items[j], layout).value in rows
      {
        if j < n {
          assert front[j] == items[j];
          assert RepositoryRecord(items[j], layout).value in prev;
        }
      }
    }
  }

  /** A new id found twice in one query's results gives two rows: duplicates within a query are kept. */
  lemma DuplicatesWithinQueryKept(repo: RawRepository, layout: Layout)
    requires ValidLayout(layout) && Admitted(repo, {}, layout)
    ensures Accept([repo, repo], {}, layout) ==
      Some([RepositoryRecord(repo, layout).value, RepositoryRecord(repo, layout).value])
  {
    var record := RepositoryRecord(repo, layout).value;
    assert [repo, repo][..1] == [repo];
    assert [repo][..0] == [];
    assert Accept([], {}, layout) == Some([]);
    assert "id" in repo.attributes && repo.attributes["id"] !in {};
    assert Accept([repo], {}, layout) == Some([] + [record]);
    assert [] + [record] == [record];
    assert Accept([repo, repo], {}, layout) == Some([record] + [record]);
    assert [record] + [record] == [record, record];
  }

  /** The results of a stream that are examined: the first 250. */
  function Examined(s: ResultStream): (items: seq<RawRepository>)
    ensures |items| <= TopCandidatesPerQuery && |items| <= |s.items| && items == s.items[..|items|]
    ensures |s.items| <= TopCandidatesPerQuery ==> items == s.items
    ensures |s.items| > TopCandidatesPerQuery ==> |items| == TopCandidatesPerQuery
  {
    if |s.items| <= TopCandidatesPerQuery then s.items else s.items[..TopCandidatesPerQuery]
  }

  /** The stream raises before 250 results have been examined. */
  predicate RaisesWhileExamined(s: ResultStream)
  {
    s.raises && |s.items| < TopCandidatesPerQuery
  }

  /** `_collect_data_from_repositories` as a value: the new rows of one query, or nothing when it throws. */
  function NewRecords(s: ResultStream, known: set<Value>, layout: Layout): (r: Option<seq<Row>>)
    requires ValidLayout(layout)
    ensures RaisesWhileExamined(s) ==> r.None?
    ensures r.Some? ==> forall i :: 0 <= i < |r.value| ==>
      |r.value[i]| == |ColumnNames(layout)| && r.value[i][0] !in known
  {
    if RaisesWhileExamined(s) then None else Accept(Examined(s), known, layout)
  }

  /** Examining one more result: a faulty one fails the whole query, a known one is skipped, another adds its record. */
  lemma AcceptNext(items: seq<RawRepository>, i: nat, known: set<Value>, layout: Layout)
    requires ValidLayout(layout) && i < |items| && Accept(items[..i], known, layout).Some?
    ensures Faulty(items[i], known, layout) ==> Accept(items, known, layout).None?
    ensures "id" in items[i].attributes && items[i].attributes["id"] in known ==>
      Accept(items[..i + 1], known, layout) == Accept(items[..i], known, layout)
    ensures Admitted(items[i], known, layout) ==>
      Accept(items[..i + 1], known, layout) ==
      Some(Accept(items[..i], known, layout).value + [RepositoryRecord(items[i], layout).value])
  {
    assert items[..i + 1][..i] == items[..i];
    if Faulty(items[i], known, layout) {
      AcceptFails(items, known, layout);
    }
  }

  /**
   * `_collect_data_from_repositories`: walks the first 250 results, skips
   * those whose id is in `known`, and turns each other one into a record.
   */
  method CollectFromRepositories(s: ResultStream, known: set<Value>, layout: Layout) returns (current: Option<Frame>)
    requires ValidLayout(layout)
    ensures current.None? <==> NewRecords(s, known, layout).None?
    ensures current.Some? ==> current.value == Frame(ColumnNames(layout), NewRecords(s, known, layout).value)
    ensures current.Some? ==> WellFormed(current.value)
  {
    var examined := if |s.items| <= TopCandidatesPerQuery then s.items else s.items[..TopCandidatesPerQuery];
    var data: seq<Row> := [];
    var i := 0;
    while i < |examined|
      invariant 0 <= i <= |examined|
      invariant Accept(examined[..i], known, layout) == Some(data)
    {
      var repo := examined[i];
      AcceptNext(examined, i, known, layout);
      if "id" !in repo.attributes {
        return None;
      }
      var repoId := repo.attributes["id"];
      if repoId in known {
        i := i + 1;
        continue;
      }
      var record := RepositoryRecord(repo, layout);
      if record.None? {
        return None;
      }
      data := data + [record.value];
      i := i + 1;
    }
    assert examined[..i] == examined == Examined(s);
    if s.raises && |s.items| < TopCandidatesPerQuery {
      return None;
    }
    ColumnNamesDistinct(layout);
    current := Some(Frame(ColumnNames(layout), data));
  }

  /** `_get_repo_ids`: nothing for no frame, otherwise exactly the distinct values of the id column. */
  function RepoIds(f: Option<Frame>, idColumn: string): (ids: set<Value>)
    requires f.Some? ==> WellFormed(f.value) && idColumn in f.value.columns
    ensures f.None? ==> ids == {}
    ensures f.Some? ==> forall i :: 0 <= i < |f.value.rows| ==> Cell(f.value, i, idColumn) in ids
    ensures f.Some? ==> forall v :: v in ids ==>
      exists i :: 0 <= i < |f.value.rows| && Cell(f.value, i, idColumn) == v
  {
    match f
    case None => {}
    case Some(frame) =>
      var k := IndexOf(frame.columns, idColumn);
      assert forall i :: 0 <= i < |frame.rows| ==> Cell(frame, i, idColumn) == frame.rows[i][k];
      Keys(frame.rows, k)
  }

  /** The id column of the accumulated data. */
  function IdColumn(layout: Layout): string
  {
    layout.repository.prefix + "id"
  }

  /** The queries of a category that are issued: its first ten, in order. */
  function Issued(c: Category): (qs: seq<Query>)
    ensures |qs| <= LimitPerQuery && |qs| <= |c.queries|
    ensures |c.queries| <= LimitPerQuery ==> |qs| == |c.queries|
    ensures |c.queries| > LimitPerQuery ==> |qs| == LimitPerQuery
    ensures forall i :: 0 <= i < |qs| ==> qs[i] == Query(c.name, c.queries[i])
  {
    var limited := if |c.queries| <= LimitPerQuery then c.queries else c.queries[..LimitPerQuery];
    seq(|limited|, i requires 0 <= i < |limited| => Query(c.name, limited[i]))
  }

  /** Every query the collector issues, category by category. */
  function Plan(taxonomy: seq<Category>): (plan: seq<Query>)
    ensures |plan| <= LimitPerQuery * |taxonomy|
  {
    if taxonomy == [] then [] else Issued(taxonomy[0]) + Plan(taxonomy[1..])
  }

  /** A query is issued exactly when it is among the first ten of its category. */
  lemma {:induction false} PlanQueries(taxonomy: seq<Category>, q: Query)
    ensures q in Plan(taxonomy) <==>
      exists c, i :: c in taxonomy && 0 <= i < |c.queries| && i < LimitPerQuery && q == Query(c.name, c.queries[i])
  {
    if taxonomy != [] {
      var c0 := taxonomy[0];
      PlanQueries(taxonomy[1..], q);
      if q in Plan(taxonomy) {
        if q in Issued(c0) {
          var i :| 0 <= i < |Issued(c0)| && Issued(c0)[i] == q;
          assert c0 in taxonomy;
        } else {
          var c, i :| c in taxonomy[1..] && 0 <= i < |c.queries| && i < LimitPerQuery && q == Query(c.name, c.queries[i]);
          assert c in taxonomy;
        }
      }
      if exists c, i :: c in taxonomy && 0 <= i < |c.queries| && i < LimitPerQuery && q == Query(c.name, c.queries[i]) {
        var c, i :| c in taxonomy && 0 <= i < |c.queries| && i < LimitPerQuery && q == Query(c.name, c.queries[i]);
        if c == c0 {
          assert Issued(c0)[i] == q;
        } else {
          assert c in taxonomy[1..];
        }
      }
    }
  }

  /** Forty-four queries of the configured taxonomy are issued: none of its categories is cut. */
  lemma ConfiguredPlanLength()
    ensures |Plan(Taxonomy)| == 44
  {
    var t := Taxonomy;
    assert |t| == 6;
    assert |t[0].queries| == 7 && |t[1].queries| == 10 && |t[2].queries| == 7;
    assert |t[3].queries| == 9 && |t[4].queries| == 6 && |t[5].queries| == 5;
    PlanOfSix(t);
  }

  /** The plan of six categories issues the queries of each in turn. */
  lemma PlanOfSix(t: seq<Category>)
    requires |t| == 6
    ensures |Plan(t)| == |Issued(t[0])| + |Issued(t[1])| + |Issued(t[2])| + |Issued(t[3])| + |Issued(t[4])| + |Issued(t[5])|
  {
    assert |Plan(t[6..])| == 0;
    PlanSuffix(t, 5);
    PlanSuffix(t, 4);
    PlanSuffix(t, 3);
    PlanSuffix(t, 2);
    PlanSuffix(t, 1);
    PlanSuffix(t, 0);
    assert t[0..] == t;
  }

  lemma PlanSuffix(taxonomy: seq<Category>, k: nat)
    requires k < |taxonomy|
    ensures Plan(taxonomy[k..]) == Issued(taxonomy[k]) + Plan(taxonomy[k + 1..])
  {
    assert taxonomy[k..][1..] == taxonomy[k + 1..];
  }

  /** A column holding `v` in each of `n` rows. */
  function Constant(n: nat, v: Value): (col: seq<Value>)
    ensures |col| == n && forall i :: 0 <= i < n ==> col[i] == v
  {
    seq(n, _ => v)
  }

  /** The two tag assignments: the category and the query text, on every row. */
  function Tag(current: Frame, q: Query): (r: Frame)
    requires WellFormed(current)
    ensures WellFormed(r) && |r.rows| == |current.rows|
  {
    var n := |current.rows|;
    var withCategory := Assign(current, CategoryColumn, Constant(n, Str(q.category)));
    Assign(withCategory, QueryColumn, Constant(n, Str(q.text)))
  }

  /** The records of one query with its category and text appended. */
  function TaggedRows(rows: seq<Row>, q: Query): (r: seq<Row>)
    ensures |r| == |rows| && forall i :: 0 <= i < |rows| ==> r[i] == rows[i] + [Str(q.category), Str(q.text)]
  {
    seq(|rows|, i requires 0 <= i < |rows| => rows[i] + [Str(q.category), Str(q.text)])
  }

  /** Tagging a query's records appends the two tag columns and both tags to every row. */
  lemma TagAppends(current: Frame, q: Query, layout: Layout)
    requires ValidLayout(layout) && WellFormed(current) && current.columns == ColumnNames(layout)
    ensures Tag(current, q) == Frame(CollectedColumns(layout), TaggedRows(current.rows, q))
  {
    ColumnNamesDistinct(layout);
    var n := |current.rows|;
    var cols := ColumnNames(layout);
    var withCategory := Assign(current, CategoryColumn, Constant(n, Str(q.category)));
    assert withCategory.rows == seq(n, i requires 0 <= i < n => current.rows[i] + [Str(q.category)]);
    assert QueryColumn !in withCategory.columns;
    var r := Tag(current, q);
    assert r.columns == cols + [CategoryColumn] + [QueryColumn] == cols + [CategoryColumn, QueryColumn];
    forall i | 0 <= i < n ensures r.rows[i] == TaggedRows(current.rows, q)[i] {
      assert r.rows[i] == current.rows[i] + [Str(q.category)] + [Str(q.text)];
    }
  }

  /** The accumulated data: nothing yet, or well-formed rows of the collected columns. */
  predicate Collected(f: Frame, layout: Layout)
    requires ValidLayout(layout)
  {
    f == Empty || (f.columns == CollectedColumns(layout) && WellFormed(f))
  }

  /** Concatenating tagged records onto collected data appends them below it. */
  lemma StepAppends(data: Frame, tagged: Frame, layout: Layout)
    requires ValidLayout(layout) && Collected(data, layout)
    requires WellFormed(tagged) && tagged.columns == CollectedColumns(layout)
    ensures Concat(data, tagged) == Frame(CollectedColumns(layout), data.rows + tagged.rows)
  {
    if data == Empty {
      ConcatOntoEmpty(tagged);
      assert data.rows + tagged.rows == tagged.rows;
    } else {
      ConcatSameColumns(data, tagged);
    }
  }

  /** The ids of collected data: those in its first column. */
  lemma CollectedIds(f: Frame, layout: Layout)
    requires ValidLayout(layout) && WellFormed(f) && f.columns == CollectedColumns(layout)
    ensures RepoIds(Some(f), IdColumn(layout)) == Keys(f.rows, 0)
  {
  }

  /**
   * One query on top of the data gathered so far: its new records, tagged
   * with the query, appended below the data; nothing when the query throws.
   */
  function Step(q: Query, search: string -> ResultStream, known: set<Value>, data: Frame, layout: Layout): (next: Option<Frame>)
    requires ValidLayout(layout) && Collected(data, layout)
    ensures next.None? <==> NewRecords(search(q.text + SearchScope), known, layout).None?
    ensures next.Some? ==>
      next.value == Frame(CollectedColumns(layout), data.rows + TaggedRows(NewRecords(search(q.text + SearchScope), known, layout).value, q))
  {
    match NewRecords(search(q.text + SearchScope), known, layout)
    case None => None
    case Some(rows) =>
      var current := Frame(ColumnNames(layout), rows);
      ColumnNamesDistinct(layout);
      TagAppends(current, q, layout);
      StepAppends(data, Tag(current, q), layout);
      Some(Concat(data, Tag(current, q)))
  }

  /**
   * The outcome of issuing `plan` from the given known ids and data: after
   * each query the ids of the data become known; the first query that throws
   * ends the run with the data gathered before it.
   */
  function Run(plan: seq<Query>, search: string -> ResultStream, known: set<Value>, data: Frame, layout: Layout): (p: Progress)
    requires ValidLayout(layout) && Collected(data, layout)
    ensures Collected(p.data, layout)
    ensures known <= p.known
    decreases |plan|
  {
    if plan == [] then Progress(data, known, false)
    else match Step(plan[0], search, known, data, layout)
      case None => Progress(data, known, true)
      case Some(next) => Run(plan[1..], search, known + RepoIds(Some(next), IdColumn(layout)), next, layout)
  }

  /** Running `pre + post` runs `pre`, then `post` from where it left off unless it failed. */
  lemma {:induction false} RunSplit(pre: seq<Query>, post: seq<Query>, search: string -> ResultStream,
                                    known: set<Value>, data: Frame, layout: Layout)
    requires ValidLayout(layout) && Collected(data, layout)
    ensures var p := Run(pre, search, known, data, layout);
      Run(pre + post, search, known, data, layout) ==
        if p.failed then p else Run(post, search, p.known, p.data, layout)
    decreases |pre|
  {
    if pre == [] {
      assert pre + post == post;
    } else {
      assert (pre + post)[0] == pre[0];
      assert (pre + post)[1..] == pre[1..] + post;
      match Step(pre[0], search, known, data, layout)
      case None =>
      case Some(next) =>
        RunSplit(pre[1..], post, search, known + RepoIds(Some(next), IdColumn(layout)), next, layout);
    }
  }

  /** Once a query has thrown, the queries after it change nothing. */
  lemma FailureIgnoresLaterQueries(pre: seq<Query>, post: seq<Query>, search: string -> ResultStream,
                                   known: set<Value>, data: Frame, layout: Layout)
    requires ValidLayout(layout) && Collected(data, layout)
    requires Run(pre, search, known, data, layout).failed
    ensures Run(pre + post, search, known, data, layout) == Run(pre, search, known, data, layout)
    ensures Run(pre + post, search, known, data, layout).failed
  {
    RunSplit(pre, post, search, known, data, layout);
  }

  lemma PrefixOfPrefix(a: seq<Row>, b: seq<Row>, c: seq<Row>)
    requires |a| <= |b| <= |c| && b[..|a|] == a && c[..|b|] == b
    ensures c[..|a|] == a
  {
    assert c[..|a|] == c[..|b|][..|a|];
  }

  /** The data grows by appending only: the rows gathered earlier stay on top, unchanged. */
  lemma {:induction false} RunKeepsEarlierRows(plan: seq<Query>, search: string -> ResultStream,
                                               known: set<Value>, data: Frame, layout: Layout)
    requires ValidLayout(layout) && Collected(data, layout)
    ensures var p := Run(plan, search, known, data, layout);
      |data.rows| <= |p.data.rows| && p.data.rows[..|data.rows|] == data.rows
    decreases |plan|
  {
    if plan != [] {
      var s := Step(plan[0], search, known, data, layout);
      if s.Some? {
        var next := s.value;
        var later := known + RepoIds(Some(next), IdColumn(layout));
        RunKeepsEarlierRows(plan[1..], search, later, next, layout);
        var rows := TaggedRows(NewRecords(search(plan[0].text + SearchScope), known, layout).value, plan[0]);
        assert next.rows == data.rows + rows;
        assert next.rows[..|data.rows|] == data.rows;
        PrefixOfPrefix(data.rows, next.rows, Run(plan[1..], search, later, next, layout).data.rows);
      }
    }
  }

  /** No row gathered by a run has an id that was known when it started. */
  lemma {:induction false} RunCollectsOnlyNew(plan: seq<Query>, search: string -> ResultStream,
                                              known: set<Value>, data: Frame, layout: Layout)
    requires ValidLayout(layout) && Collected(data, layout)
    ensures var p := Run(plan, search, known, data, layout);
      forall i :: |data.rows| <= i < |p.data.rows| ==> |p.data.rows[i]| > 0 && p.data.rows[i][0] !in known
    decreases |plan|
  {
    var p := Run(plan, search, known, data, layout);
    if plan != [] {
      var q := plan[0];
      match Step(q, search, known, data, layout)
      case None =>
      case Some(next) =>
        var known' := known + RepoIds(Some(next), IdColumn(layout));
        RunCollectsOnlyNew(plan[1..], search, known', next, layout);
        RunKeepsEarlierRows(plan[1..], search, known', next, layout);
        var rows := NewRecords(search(q.text + SearchScope), known, layout).value;
        forall i | |data.rows| <= i < |p.data.rows| ensures |p.data.rows[i]| > 0 && p.data.rows[i][0] !in known {
          if i < |next.rows| {
            assert p.data.rows[i] == next.rows[i] == TaggedRows(rows, q)[i - |data.rows|];
          }
        }
    }
  }

  /** Rows with the same id carry the same values from position `w` on. */
  predicate SameIdSameTags(rows: seq<Row>, w: nat)
    requires forall i :: 0 <= i < |rows| ==> w < |rows[i]|
  {
    forall i, j :: 0 <= i < |rows| && 0 <= j < |rows| && rows[i][0] == rows[j][0] ==> rows[i][w..] == rows[j][w..]
  }

  /** Appending rows with unknown ids and one common tag keeps ids and tags together. */
  lemma AppendSameTags(rows: seq<Row>, added: seq<Row>, known: set<Value>, w: nat, tags: seq<Value>)
    requires forall i :: 0 <= i < |rows| ==> w < |rows[i]| && rows[i][0] in known
    requires forall j :: 0 <= j < |added| ==> w < |added[j]| && added[j][0] !in known && added[j][w..] == tags
    requires SameIdSameTags(rows, w)
    ensures forall i :: 0 <= i < |rows + added| ==> w < |(rows + added)[i]|
    ensures SameIdSameTags(rows + added, w)
  {
    var all := rows + added;
    forall i, j | 0 <= i < |all| && 0 <= j < |all| && all[i][0] == all[j][0] ensures all[i][w..] == all[j][w..] {
      if i >= |rows| && j >= |rows| {
        assert all[i] == added[i - |rows|] && all[j] == added[j - |rows|];
      }
    }
  }

  /**
   * Collected data agrees with the known ids: every id in it is known, and
   * rows with the same id carry the same category and query.
   */
  predicate Consistent(data: Frame, known: set<Value>, layout: Layout)
    requires ValidLayout(layout) && Collected(data, layout)
  {
    && (forall i :: 0 <= i < |data.rows| ==> data.rows[i][0] in known)
    && SameIdSameTags(data.rows, |ColumnNames(layout)|)
  }

  /** One successful query keeps the data consistent with the ids known after it. */
  lemma StepConsistent(q: Query, search: string -> ResultStream, known: set<Value>, data: Frame, layout: Layout)
    requires ValidLayout(layout) && Collected(data, layout) && Consistent(data, known, layout)
    requires Step(q, search, known, data, layout).Some?
    ensures var next := Step(q, search, known, data, layout).value;
      Consistent(next, known + RepoIds(Some(next), IdColumn(layout)), layout)
  {
    var next := Step(q, search, known, data, layout).value;
    var rows := NewRecords(search(q.text + SearchScope), known, layout).value;
    var tagged := TaggedRows(rows, q);
    var w := |ColumnNames(layout)|;
    CollectedIds(next, layout);
    forall j | 0 <= j < |tagged|
      ensures w < |tagged[j]| && tagged[j][0] !in known && tagged[j][w..] == [Str(q.category), Str(q.text)]
    {
      assert |rows[j]| == w;
    }
    AppendSameTags(data.rows, tagged, known, w, [Str(q.category), Str(q.text)]);
  }

  /** Every run keeps the data consistent with the ids it knows. */
  lemma {:induction false} RunConsistent(plan: seq<Query>, search: string -> ResultStream,
                                         known: set<Value>, data: Frame, layout: Layout)
    requires ValidLayout(layout) && Collected(data, layout) && Consistent(data, known, layout)
    ensures var p := Run(plan, search, known, data, layout); Consistent(p.data, p.known, layout)
    decreases |plan|
  {
    if plan != [] {
      match Step(plan[0], search, known, data, layout)
      case None =>
      case Some(next) =>
        StepConsistent(plan[0], search, known, data, layout);
        RunConsistent(plan[1..], search, known + RepoIds(Some(next), IdColumn(layout)), next, layout);
    }
  }

  /**
   * What `collect` returns: no repository that was saved before, and a
   * repository found by several queries is attributed to one of them only.
   */
  lemma CollectedRepositories(taxonomy: seq<Category>, search: string -> ResultStream, saved: Frame, layout: Layout)
    requires ValidLayout(layout) && WellFormed(saved) && IdColumn(layout) in saved.columns
    ensures var data := Run(Plan(taxonomy), search, RepoIds(Some(saved), IdColumn(layout)), Empty, layout).data;
      forall i :: 0 <= i < |data.rows| ==>
        (|data.rows[i]| > 0 && data.rows[i][0] !in RepoIds(Some(saved), IdColumn(layout)))
    ensures var data := Run(Plan(taxonomy), search, RepoIds(Some(saved), IdColumn(layout)), Empty, layout).data;
      SameIdSameTags(data.rows, |ColumnNames(layout)|)
  {
    var known := RepoIds(Some(saved), IdColumn(layout));
    RunCollectsOnlyNew(Plan(taxonomy), search, known, Empty, layout);
    RunConsistent(Plan(taxonomy), search, known, Empty, layout);
  }

  /** Issuing the next planned query: a failure ends the run with the data so far, a success runs the rest from the new data. */
  lemma IssueNext(plan: seq<Query>, search: string -> ResultStream, known: set<Value>, data: Frame, layout: Layout)
    requires ValidLayout(layout) && Collected(data, layout) && plan != []
    ensures var s := Step(plan[0], search, known, data, layout);
      var p := Run(plan, search, known, data, layout);
      && (s.None? ==> p == Progress(data, known, true))
      && (s.Some? ==> p == Run(plan[1..], search, known + RepoIds(Some(s.value), IdColumn(layout)), s.value, layout))
  {
  }

  /** The frame the loop body builds for a successful query is the one `Step` describes. */
  lemma StepBuilds(q: Query, search: string -> ResultStream, known: set<Value>, data: Frame, layout: Layout, current: Frame)
    requires ValidLayout(layout) && Collected(data, layout)
    requires NewRecords(search(q.text + SearchScope), known, layout).Some?
    requires current == Frame(ColumnNames(layout), NewRecords(search(q.text + SearchScope), known, layout).value)
    ensures WellFormed(current) && Step(q, search, known, data, layout) == Some(Concat(data, Tag(current, q)))
  {
    ColumnNamesDistinct(layout);
  }

  /**
   * One query of `collect`: search, collect the new records, tag them and
   * append them to the data; nothing when collecting throws.
   */
  method IssueQuery(q: Query, search: string -> ResultStream, known: set<Value>, data: Frame, layout: Layout)
    returns (next: Option<Frame>)
    requires ValidLayout(layout) && Collected(data, layout)
    ensures next == Step(q, search, known, data, layout)
  {
    var repositories := search(q.text + SearchScope);
    var current := CollectFromRepositories(repositories, known, layout);
    if current.None? {
      return None;
    }
    StepBuilds(q, search, known, data, layout, current.value);
    var tagged := Tag(current.value, q);
    next := Some(Concat(data, tagged));
  }

  /**
   * The query at position `qi` of a plan, issued: a failure ends the run with
   * the data so far, a success leaves the rest of the plan to run from the
   * new data and ids.
   */
  method IssuePlanned(plan: seq<Query>, qi: nat, search: string -> ResultStream, known: set<Value>, data: Frame, layout: Layout)
    returns (next: Option<Frame>)
    requires ValidLayout(layout) && Collected(data, layout) && qi < |plan|
    ensures next.None? ==> Run(plan[qi..], search, known, data, layout) == Progress(data, known, true)
    ensures next.Some? ==> next.value.columns == CollectedColumns(layout) && WellFormed(next.value)
    ensures next.Some? ==>
      Run(plan[qi..], search, known, data, layout) ==
      Run(plan[qi + 1..], search, known + RepoIds(Some(next.value), IdColumn(layout)), next.value, layout)
  {
    IssueAt(plan, qi, search, known, data, layout);
    next := IssueQuery(plan[qi], search, known, data, layout);
  }

  /**
   * The inner loop of `collect`: the first ten queries of one category, in
   * order, stopping at the first one that throws.
   */
  method IssueCategory(category: Category, search: string -> ResultStream, known: set<Value>, start: Frame, layout: Layout)
    returns (p: Progress)
    requires ValidLayout(layout) && Collected(start, layout)
    ensures p == Run(Issued(category), search, known, start, layout)
  {
    var data, repoIds := start, known;
    var issued := Issued(category);
    assert issued[0..] == issued;
    for qi := 0 to |issued|
      invariant Collected(data, layout)
      invariant Run(issued, search, known, start, layout) == Run(issued[qi..], search, repoIds, data, layout)
    {
      var next := IssuePlanned(issued, qi, search, repoIds, data, layout);
      if next.None? {
        return Progress(data, repoIds, true);
      }
      data := next.value;
      repoIds := repoIds + RepoIds(Some(data), IdColumn(layout));
    }
    assert issued[|issued|..] == [];
    p := Progress(data, repoIds, false);
  }

  /** Issuing the query at position `qi` of a plan, in terms of the rest of the plan after it. */
  lemma IssueAt(plan: seq<Query>, qi: nat, search: string -> ResultStream, known: set<Value>, data: Frame, layout: Layout)
    requires ValidLayout(layout) && Collected(data, layout) && qi < |plan|
    ensures var s := Step(plan[qi], search, known, data, layout);
      && (s.None? ==> Run(plan[qi..], search, known, data, layout) == Progress(data, known, true))
      && (s.Some? ==> Collected(s.value, layout))
      && (s.Some? ==>
            Run(plan[qi..], search, known, data, layout) ==
            Run(plan[qi + 1..], search, known + RepoIds(Some(s.value), IdColumn(layout)), s.value, layout))
  {
    var rest := plan[qi..];
    assert rest[0] == plan[qi] && rest[1..] == plan[qi + 1..];
    IssueNext(rest, search, known, data, layout);
  }

  /** `collect`: issues every planned query and returns the accumulated data. */
  method Collect(taxonomy: seq<Category>, search: string -> ResultStream, saved: Frame, layout: Layout) returns (data: Frame)
    requires ValidLayout(layout) && WellFormed(saved) && IdColumn(layout) in saved.columns
    ensures data == Run(Plan(taxonomy), search, RepoIds(Some(saved), IdColumn(layout)), Empty, layout).data
  {
    ghost var outcome := Run(Plan(taxonomy), search, RepoIds(Some(saved), IdColumn(layout)), Empty, layout);
    data := Empty;
    var repoIds := RepoIds(Some(saved), IdColumn(layout));
    assert taxonomy[0..] == taxonomy;
    for ci := 0 to |taxonomy|
      invariant Collected(data, layout)
      invariant outcome == Run(Plan(taxonomy[ci..]), search, repoIds, data, layout)
    {
      PlanSuffix(taxonomy, ci);
      RunSplit(Issued(taxonomy[ci]), Plan(taxonomy[ci + 1..]), search, repoIds, data, layout);
      var p := IssueCategory(taxonomy[ci], search, repoIds, data, layout);
      if p.failed {
        return p.data;
      }
      data, repoIds := p.data, p.known;
    }
    assert taxonomy[|taxonomy|..] == [];
  }

  /** `consolidate_data`: the saved repositories with the later ones below them. */
  function Consolidate(earlier: Frame, later: Frame): (r: Frame)
    requires WellFormed(earlier) && WellFormed(later)
    ensures earlier.columns == later.columns ==> r == Frame(earlier.columns, earlier.rows + later.rows)
  {
    if earlier.columns == later.columns then
      ConcatSameColumns(earlier, later);
      Concat(earlier, later)
    else
      Concat(earlier, later)
  }

  /** `save_repositories`: the frame that is written, one row per repository id, the first one kept. */
  function SaveRepositories(f: Frame): (r: Frame)
    requires WellFormed(f) && RepositoryIdColumn in f.columns
    ensures WellFormed(r) && r.columns == f.columns && |r.rows| <= |f.rows|
  {
    Frame(f.columns, DropDuplicateKeys(f.rows, IndexOf(f.columns, RepositoryIdColumn)))
  }

  /** The saved frame holds every repository id once, and no other. */
  lemma SavedIdsUnique(f: Frame)
    requires WellFormed(f) && RepositoryIdColumn in f.columns
    ensures var r := SaveRepositories(f);
      RepoIds(Some(r), RepositoryIdColumn) == RepoIds(Some(f), RepositoryIdColumn) &&
      forall i, j :: 0 <= i < j < |r.rows| ==> Cell(r, i, RepositoryIdColumn) != Cell(r, j, RepositoryIdColumn)
  {
    var k := IndexOf(f.columns, RepositoryIdColumn);
    DropDuplicateKeysKeepsKeys(f.rows, k);
    DropDuplicateKeysUnique(f.rows, k);
  }

  /**
   * The saved frame keeps the order of its input: it is the input with every
   * row dropped whose id an earlier row already holds.
   */
  lemma SavedRowsInOrder(f: Frame)
    requires WellFormed(f) && RepositoryIdColumn in f.columns
    ensures var r, ps := SaveRepositories(f), FirstPositions(f.rows, IndexOf(f.columns, RepositoryIdColumn));
      |r.rows| == |ps| && forall j :: 0 <= j < |r.rows| ==> r.rows[j] == f.rows[ps[j]]
  {
    DropDuplicateKeysInOrder(f.rows, IndexOf(f.columns, RepositoryIdColumn));
  }

  /**
   * When the new repositories are consolidated below the saved ones, the
   * first saved row of each id is what gets saved.
   */
  lemma SavedRowsWin(earlier: Frame, later: Frame)
    requires WellFormed(earlier) && WellFormed(later) && earlier.columns == later.columns && RepositoryIdColumn in earlier.columns
    ensures forall i :: 0 <= i < |earlier.rows| && FirstOfKey(earlier.rows, IndexOf(earlier.columns, RepositoryIdColumn), i) ==>
      earlier.rows[i] in SaveRepositories(Consolidate(earlier, later)).rows
  {
    var k := IndexOf(earlier.columns, RepositoryIdColumn);
    var all := earlier.rows + later.rows;
    DropDuplicateKeysKeepsFirst(all, k);
    forall i | 0 <= i < |earlier.rows| && FirstOfKey(earlier.rows, k, i) ensures earlier.rows[i] in DropDuplicateKeys(all, k) {
      assert all[..i] == earlier.rows[..i];
      assert FirstOfKey(all, k, i);
    }
  }
}
