/**
 * A small model of the data-frame operations the pipeline relies on: a table
 * is an ordered list of distinct column names and a list of rows whose cells
 * line up with those names.  The three operations below follow the pandas
 * calls used by the pipeline: `DataFrame.assign` (replace a column in place
 * or append a new one), `pd.concat(..., ignore_index=True)` (outer union of
 * the columns, missing cells become null) and `drop_duplicates(column)`
 * (keep the first row of every key).
 */
module Frames {

  /** One cell. `Time` holds an instant in whole seconds since an epoch. */
  datatype Value = Null | Bool(b: bool) | Int(i: int) | Num(r: real) | Str(s: string) | Time(t: int)

  /**
   * A numeric cell: a number, a boolean or a missing value.  `>` against a
   * number and the scaler accept these; a string or a timestamp makes them raise.
   */
  predicate Numeric(v: Value)
  {
    v.Null? || v.Bool? || v.Int? || v.Num?
  }

  type Row = seq<Value>

  datatype Frame = Frame(columns: seq<string>, rows: seq<Row>)

  /** The frame `pd.DataFrame()`: no columns and no rows. */
  const Empty := Frame([], [])

  predicate Distinct<T(==)>(s: seq<T>)
  {
    forall i, j :: 0 <= i < j < |s| ==> s[i] != s[j]
  }

  /** Column names are unique and every row has one cell per column. */
  predicate WellFormed(f: Frame)
  {
    Distinct(f.columns) && forall i :: 0 <= i < |f.rows| ==> |f.rows[i]| == |f.columns|
  }

  /** Position of a column name in a list of names (its first occurrence). */
  function IndexOf(names: seq<string>, c: string): (k: nat)
    requires c in names
    ensures k < |names| && names[k] == c && c !in names[..k]
  {
    if names[0] == c then 0 else 1 + IndexOf(names[1..], c)
  }

  lemma IndexOfDistinct(names: seq<string>, k: nat)
    requires Distinct(names) && k < |names|
    ensures IndexOf(names, names[k]) == k
  {
    var j := IndexOf(names, names[k]);
    assert names[j] == names[k];
  }

  /** The cell of row `i` in column `c`. */
  function Cell(f: Frame, i: nat, c: string): Value
    requires WellFormed(f) && i < |f.rows| && c in f.columns
  {
    f.rows[i][IndexOf(f.columns, c)]
  }

  /** Every cell of column `c`, top to bottom. */
  function Column(f: Frame, c: string): (col: seq<Value>)
    requires WellFormed(f) && c in f.columns
    ensures |col| == |f.rows|
    ensures forall i :: 0 <= i < |f.rows| ==> col[i] == Cell(f, i, c)
  {
    seq(|f.rows|, i requires 0 <= i < |f.rows| => Cell(f, i, c))
  }

  /**
   * `f.assign(c=col)`: an existing column keeps its position and gets the new
   * cells; a new column is appended on the right.  Nothing else changes.
   */
  function Assign(f: Frame, c: string, col: seq<Value>): (r: Frame)
    requires WellFormed(f) && |col| == |f.rows|
    ensures WellFormed(r) && |r.rows| == |f.rows|
    ensures r.columns == if c in f.columns then f.columns else f.columns + [c]
    ensures forall i :: 0 <= i < |r.rows| ==> Cell(r, i, c) == col[i]
    ensures forall i, d :: 0 <= i < |r.rows| && d in f.columns && d != c ==> Cell(r, i, d) == Cell(f, i, d)
  {
    if c in f.columns then
      var k := IndexOf(f.columns, c);
      var r := Frame(f.columns, seq(|f.rows|, i requires 0 <= i < |f.rows| => f.rows[i][k := col[i]]));
      assert forall i, d :: 0 <= i < |r.rows| && d in f.columns ==> Cell(r, i, d) == r.rows[i][IndexOf(f.columns, d)];
      r
    else
      var r := Frame(f.columns + [c], seq(|f.rows|, i requires 0 <= i < |f.rows| => f.rows[i] + [col[i]]));
      AppendedColumn(f.columns, c);
      r
  }

  /** Frames with the same columns, as many rows and the same cells are the same frame. */
  lemma SameCells(f: Frame, g: Frame)
    requires WellFormed(f) && WellFormed(g) && f.columns == g.columns && |f.rows| == |g.rows|
    requires forall i, c :: 0 <= i < |f.rows| && c in f.columns ==> Cell(f, i, c) == Cell(g, i, c)
    ensures f == g
  {
    forall i | 0 <= i < |f.rows| ensures f.rows[i] == g.rows[i] {
      forall k | 0 <= k < |f.columns| ensures f.rows[i][k] == g.rows[i][k] {
        IndexOfDistinct(f.columns, k);
        assert Cell(f, i, f.columns[k]) == Cell(g, i, f.columns[k]);
      }
    }
  }

  lemma DistinctAppendTwo(names: seq<string>, c: string, d: string)
    requires Distinct(names) && c !in names && d !in names && c != d
    ensures Distinct(names + [c, d])
  {
  }

  lemma AppendedColumn(names: seq<string>, c: string)
    requires Distinct(names) && c !in names
    ensures Distinct(names + [c])
    ensures IndexOf(names + [c], c) == |names|
    ensures forall d :: d in names ==> IndexOf(names + [c], d) == IndexOf(names, d)
  {
    var ext := names + [c];
    IndexOfDistinct(ext, |names|);
    forall d | d in names ensures IndexOf(ext, d) == IndexOf(names, d) {
      var k := IndexOf(names, d);
      IndexOfDistinct(names, k);
      IndexOfDistinct(ext, k);
    }
  }

  /** Assigning a column the cells it already holds leaves the frame as it was. */
  lemma {:induction false} AssignSame(f: Frame, c: string, col: seq<Value>)
    requires WellFormed(f) && c in f.columns && col == Column(f, c)
    ensures Assign(f, c, col) == f
  {
    var r := Assign(f, c, col);
    var k := IndexOf(f.columns, c);
    assert |r.rows| == |f.rows|;
    forall i | 0 <= i < |f.rows| ensures r.rows[i] == f.rows[i] {
      assert r.rows[i] == f.rows[i][k := col[i]];
    }
  }

  /** The names of `b` that `a` lacks, in `b`'s order. */
  function NewColumns(b: seq<string>, a: seq<string>): (r: seq<string>)
    ensures forall c :: c in r <==> c in b && c !in a
    ensures Distinct(b) ==> Distinct(r)
  {
    if b == [] then []
    else
      var rest := NewColumns(b[1..], a);
      assert Distinct(b) ==> b[0] !in b[1..];
      (if b[0] in a then [] else [b[0]]) + rest
  }

  /** A row laid out for the names `src`, re-laid out for the names `dst`; absent cells are null. */
  function Realign(row: Row, src: seq<string>, dst: seq<string>): (r: Row)
    requires |row| == |src|
    ensures |r| == |dst|
  {
    seq(|dst|, j requires 0 <= j < |dst| => if dst[j] in src then row[IndexOf(src, dst[j])] else Null)
  }

  lemma RealignSame(row: Row, names: seq<string>)
    requires |row| == |names| && Distinct(names)
    ensures Realign(row, names, names) == row
  {
    forall j | 0 <= j < |names| ensures Realign(row, names, names)[j] == row[j] {
      IndexOfDistinct(names, j);
    }
  }

  lemma DisjointConcatDistinct(a: seq<string>, b: seq<string>)
    requires Distinct(a) && Distinct(b)
    requires forall c :: c in b ==> c !in a
    ensures Distinct(a + b)
  {
    forall i, j | 0 <= i < j < |a + b| ensures (a + b)[i] != (a + b)[j] {
      if j >= |a| && i < |a| {
        assert (a + b)[j] in b;
      }
    }
  }

  /**
   * `pd.concat([a, b], ignore_index=True)`: the rows of `a` followed by the
   * rows of `b`, under the columns of `a` followed by the columns only `b`
   * has; a row gets null in every column its own frame lacks.
   */
  function Concat(a: Frame, b: Frame): (r: Frame)
    requires WellFormed(a) && WellFormed(b)
    ensures WellFormed(r)
    ensures r.columns == a.columns + NewColumns(b.columns, a.columns)
    ensures |r.rows| == |a.rows| + |b.rows|
  {
    var names := a.columns + NewColumns(b.columns, a.columns);
    DisjointConcatDistinct(a.columns, NewColumns(b.columns, a.columns));
    var top := seq(|a.rows|, i requires 0 <= i < |a.rows| => Realign(a.rows[i], a.columns, names));
    var bottom := seq(|b.rows|, i requires 0 <= i < |b.rows| => Realign(b.rows[i], b.columns, names));
    Frame(names, top + bottom)
  }

  /**
   * The cells of `Concat(a, b)`: the first rows carry the cells of `a`, the
   * last rows those of `b`, and a column a frame lacks reads as null in its rows.
   */
  lemma ConcatCells(a: Frame, b: Frame, i: nat, c: string)
    requires WellFormed(a) && WellFormed(b)
    requires i < |a.rows| + |b.rows| && c in Concat(a, b).columns
    ensures c in a.columns || c in b.columns
    ensures i < |a.rows| ==> Cell(Concat(a, b), i, c) == if c in a.columns then Cell(a, i, c) else Null
    ensures i >= |a.rows| ==> Cell(Concat(a, b), i, c) == if c in b.columns then Cell(b, i - |a.rows|, c) else Null
  {
    var r := Concat(a, b);
    var names := r.columns;
    var k := IndexOf(names, c);
    if i < |a.rows| {
      assert r.rows[i] == Realign(a.rows[i], a.columns, names);
    } else {
      assert r.rows[i] == Realign(b.rows[i - |a.rows|], b.columns, names);
    }
  }

  /** Concatenating frames with the same columns just appends the rows. */
  lemma ConcatSameColumns(a: Frame, b: Frame)
    requires WellFormed(a) && WellFormed(b) && a.columns == b.columns
    ensures Concat(a, b) == Frame(a.columns, a.rows + b.rows)
  {
    NoNewColumns(a.columns, a.columns);
    ConcatSameColumnsRows(a, b);
  }

  lemma ConcatSameColumnsRows(a: Frame, b: Frame)
    requires WellFormed(a) && WellFormed(b) && a.columns == b.columns
    requires Concat(a, b).columns == a.columns
    ensures Concat(a, b).rows == a.rows + b.rows
  {
    var r := Concat(a, b);
    forall i | 0 <= i < |r.rows| ensures r.rows[i] == (a.rows + b.rows)[i] {
      if i < |a.rows| {
        ConcatTopRow(a, b, i);
        RealignSame(a.rows[i], a.columns);
      } else {
        ConcatBottomRow(a, b, i - |a.rows|);
        RealignSame(b.rows[i - |a.rows|], a.columns);
      }
    }
  }

  /** Row `i` of `a` keeps its place at the top of `Concat(a, b)`, re-laid out for the combined columns. */
  lemma ConcatTopRow(a: Frame, b: Frame, i: nat)
    requires WellFormed(a) && WellFormed(b) && i < |a.rows|
    ensures Concat(a, b).rows[i] == Realign(a.rows[i], a.columns, Concat(a, b).columns)
  {
  }

  lemma {:induction false} NoNewColumns(b: seq<string>, a: seq<string>)
    requires forall c :: c in b ==> c in a
    ensures NewColumns(b, a) == []
  {
    if b != [] {
      NoNewColumns(b[1..], a);
    }
  }

  /** Row `i` of `b` sits below the rows of `a` in `Concat(a, b)`, re-laid out for its columns. */
  lemma ConcatBottomRow(a: Frame, b: Frame, i: nat)
    requires WellFormed(a) && WellFormed(b) && i < |b.rows|
    ensures Concat(a, b).rows[|a.rows| + i] == Realign(b.rows[i], b.columns, Concat(a, b).columns)
  {
  }

  /** Concatenating onto `pd.DataFrame()` gives the other frame back. */
  lemma {:induction false} ConcatOntoEmpty(b: Frame)
    requires WellFormed(b)
    ensures Concat(Empty, b) == b
  {
    NothingExcluded(b.columns);
    ConcatOntoEmptyRows(b);
  }

  lemma ConcatOntoEmptyRows(b: Frame)
    requires WellFormed(b) && Concat(Empty, b).columns == b.columns
    ensures Concat(Empty, b).rows == b.rows
  {
    var r := Concat(Empty, b);
    forall i | 0 <= i < |b.rows| ensures r.rows[i] == b.rows[i] {
      ConcatBottomRow(Empty, b, i);
      RealignSame(b.rows[i], b.columns);
    }
  }

  lemma {:induction false} NothingExcluded(names: seq<string>)
    ensures NewColumns(names, []) == names
  {
    if names != [] {
      NothingExcluded(names[1..]);
      assert names == [names[0]] + names[1..];
    }
  }

  /** The keys found in position `k` of the rows: exactly the values some row holds there. */
  function Keys(rows: seq<Row>, k: nat): (r: set<Value>)
    requires forall i :: 0 <= i < |rows| ==> k < |rows[i]|
    ensures forall i :: 0 <= i < |rows| ==> rows[i][k] in r
    ensures forall v :: v in r ==> exists i :: 0 <= i < |rows| && rows[i][k] == v
  {
    if rows == [] then {}
    else
      var n := |rows| - 1;
      var front := Keys(rows[..n], k);
      assert forall i :: 0 <= i < n ==> rows[..n][i] == rows[i];
      front + {rows[n][k]}
  }

  /** Row `i` is the first row holding its key. */
  predicate FirstOfKey(rows: seq<Row>, k: nat, i: nat)
    requires i < |rows| && forall i :: 0 <= i < |rows| ==> k < |rows[i]|
  {
    rows[i][k] !in Keys(rows[..i], k)
  }

  /**
   * `drop_duplicates` on key position `k`, keeping the first row of each key:
   * a row is dropped when an earlier row holds the same key.
   */
  function DropDuplicateKeys(rows: seq<Row>, k: nat): (r: seq<Row>)
    requires forall i :: 0 <= i < |rows| ==> k < |rows[i]|
    ensures |r| <= |rows|
    ensures forall j :: 0 <= j < |r| ==> r[j] in rows && k < |r[j]|
  {
    if rows == [] then []
    else
      var n := |rows| - 1;
      var init := DropDuplicateKeys(rows[..n], k);
      if rows[n][k] in Keys(rows[..n], k) then init else init + [rows[n]]
  }

  /** Dropping duplicates loses no key. */
  lemma {:induction false} DropDuplicateKeysKeepsKeys(rows: seq<Row>, k: nat)
    requires forall i :: 0 <= i < |rows| ==> k < |rows[i]|
    ensures Keys(DropDuplicateKeys(rows, k), k) == Keys(rows, k)
  {
    if rows != [] {
      var n := |rows| - 1;
      DropDuplicateKeysKeepsKeys(rows[..n], k);
      var init := DropDuplicateKeys(rows[..n], k);
      if rows[n][k] !in Keys(rows[..n], k) {
        assert (init + [rows[n]])[..|init|] == init;
      }
    }
  }

  /** After dropping duplicates no two rows share a key. */
  lemma {:induction false} DropDuplicateKeysUnique(rows: seq<Row>, k: nat)
    requires forall i :: 0 <= i < |rows| ==> k < |rows[i]|
    ensures var r := DropDuplicateKeys(rows, k);
      forall j1, j2 :: 0 <= j1 < j2 < |r| ==> r[j1][k] != r[j2][k]
  {
    if rows != [] {
      var n := |rows| - 1;
      DropDuplicateKeysUnique(rows[..n], k);
      var init := DropDuplicateKeys(rows[..n], k);
      if rows[n][k] !in Keys(rows[..n], k) {
        assert DropDuplicateKeys(rows, k) == init + [rows[n]];
        DropDuplicateKeysKeepsKeys(rows[..n], k);
        AppendFreshKey(init, rows[n], k);
      } else {
        assert DropDuplicateKeys(rows, k) == init;
      }
    }
  }

  /** A row whose key is not yet held keeps the keys of a list unique. */
  lemma AppendFreshKey(init: seq<Row>, row: Row, k: nat)
    requires forall i :: 0 <= i < |init| ==> k < |init[i]|
    requires k < |row| && row[k] !in Keys(init, k)
    requires forall j1, j2 :: 0 <= j1 < j2 < |init| ==> init[j1][k] != init[j2][k]
    ensures var r := init + [row];
      forall j1, j2 :: 0 <= j1 < j2 < |r| ==> r[j1][k] != r[j2][k]
  {
    var r := init + [row];
    forall j1, j2 | 0 <= j1 < j2 < |r| ensures r[j1][k] != r[j2][k] {
      if j2 == |init| {
        assert init[j1][k] in Keys(init, k);
      } else {
        assert r[j2] == init[j2];
      }
    }
  }

  /** The first row of every key survives the dropping of duplicates. */
  lemma {:induction false} DropDuplicateKeysKeepsFirst(rows: seq<Row>, k: nat)
    requires forall i :: 0 <= i < |rows| ==> k < |rows[i]|
    ensures forall i :: 0 <= i < |rows| && FirstOfKey(rows, k, i) ==> rows[i] in DropDuplicateKeys(rows, k)
  {
    if rows != [] {
      var n := |rows| - 1;
      var front := rows[..n];
      DropDuplicateKeysKeepsFirst(front, k);
      forall i | 0 <= i < |rows| && FirstOfKey(rows, k, i) ensures rows[i] in DropDuplicateKeys(rows, k) {
        if i < n {
          assert rows[..i] == front[..i];
          assert FirstOfKey(front, k, i);
        } else {
          assert rows[..i] == front;
        }
      }
    }
  }

  /** Below position `n`, a row holds its key first in `rows` exactly when it does in `rows[..n]`. */
  lemma FirstOfKeyPrefix(rows: seq<Row>, k: nat, n: nat)
    requires n <= |rows| && forall i :: 0 <= i < |rows| ==> k < |rows[i]|
    ensures forall i :: 0 <= i < n ==> (FirstOfKey(rows[..n], k, i) <==> FirstOfKey(rows, k, i))
  {
    forall i | 0 <= i < n ensures FirstOfKey(rows[..n], k, i) <==> FirstOfKey(rows, k, i) {
      assert rows[..n][..i] == rows[..i];
    }
  }

  /** The positions of the rows that hold their key first, in increasing order. */
  function FirstPositions(rows: seq<Row>, k: nat): (ps: seq<nat>)
    requires forall i :: 0 <= i < |rows| ==> k < |rows[i]|
    ensures forall j :: 0 <= j < |ps| ==> ps[j] < |rows|
    ensures forall j1, j2 :: 0 <= j1 < j2 < |ps| ==> ps[j1] < ps[j2]
    ensures forall i :: 0 <= i < |rows| ==> (i in ps <==> FirstOfKey(rows, k, i))
  {
    if rows == [] then []
    else
      var n := |rows| - 1;
      var front := FirstPositions(rows[..n], k);
      FirstOfKeyPrefix(rows, k, n);
      if rows[n][k] in Keys(rows[..n], k) then front else front + [n]
  }

  /**
   * Dropping duplicates keeps the input order: the result is the input
   * filtered to the rows that hold their key first.
   */
  lemma {:induction false} DropDuplicateKeysInOrder(rows: seq<Row>, k: nat)
    requires forall i :: 0 <= i < |rows| ==> k < |rows[i]|
    ensures var r, ps := DropDuplicateKeys(rows, k), FirstPositions(rows, k);
      |r| == |ps| && forall j :: 0 <= j < |r| ==> r[j] == rows[ps[j]]
  {
    if rows != [] {
      var n := |rows| - 1;
      DropDuplicateKeysInOrder(rows[..n], k);
      var init, front := DropDuplicateKeys(rows[..n], k), FirstPositions(rows[..n], k);
      assert forall j :: 0 <= j < |init| ==> init[j] == rows[front[j]];
    }
  }

  /** Column names of one side of a merge: a name the other side also has gets `suffix`. */
  function Suffixed(names: seq<string>, others: seq<string>, suffix: string): (r: seq<string>)
    ensures |r| == |names|
    ensures forall k :: 0 <= k < |names| ==> r[k] == if names[k] in others then names[k] + suffix else names[k]
  {
    seq(|names|, k requires 0 <= k < |names| => if names[k] in others then names[k] + suffix else names[k])
  }

  /** The columns of `left.merge(right, left_index=True, right_index=True)`, suffixes "_x" and "_y". */
  function MergedColumns(left: seq<string>, right: seq<string>): seq<string>
  {
    Suffixed(left, right, "_x") + Suffixed(right, left, "_y")
  }

  /**
   * Frames a merge on the index accepts: both sides well formed, one row of
   * `right` per row of `left`, and no two merged column names alike (pandas
   * refuses suffixes that collide).
   */
  predicate Mergeable(left: Frame, right: Frame)
  {
    WellFormed(left) && WellFormed(right) && |right.rows| == |left.rows| && Distinct(MergedColumns(left.columns, right.columns))
  }

  /** `left.merge(right, left_index=True, right_index=True)` on a positional index: rows side by side. */
  function MergeOnIndex(left: Frame, right: Frame): (r: Frame)
    requires Mergeable(left, right)
    ensures WellFormed(r) && |r.rows| == |left.rows| && r.columns == MergedColumns(left.columns, right.columns)
    ensures forall i :: 0 <= i < |r.rows| ==> r.rows[i] == left.rows[i] + right.rows[i]
  {
    Frame(MergedColumns(left.columns, right.columns),
          seq(|left.rows|, i requires 0 <= i < |left.rows| => left.rows[i] + right.rows[i]))
  }

  /** Every cell of the left side survives the merge, suffixed with "_x" when the right side has its column too. */
  lemma MergeKeepsLeft(left: Frame, right: Frame, i: nat, c: string)
    requires Mergeable(left, right) && i < |left.rows| && c in left.columns
    ensures var n := if c in right.columns then c + "_x" else c;
      n in MergeOnIndex(left, right).columns && Cell(MergeOnIndex(left, right), i, n) == Cell(left, i, c)
  {
    var r := MergeOnIndex(left, right);
    var k := IndexOf(left.columns, c);
    var n := if c in right.columns then c + "_x" else c;
    assert r.columns[k] == n;
    IndexOfDistinct(r.columns, k);
    assert r.rows[i][k] == left.rows[i][k];
  }

  /** Every cell of the right side survives the merge, suffixed with "_y" when the left side has its column too. */
  lemma MergeKeepsRight(left: Frame, right: Frame, i: nat, c: string)
    requires Mergeable(left, right) && i < |left.rows| && c in right.columns
    ensures var n := if c in left.columns then c + "_y" else c;
      n in MergeOnIndex(left, right).columns && Cell(MergeOnIndex(left, right), i, n) == Cell(right, i, c)
  {
    var r := MergeOnIndex(left, right);
    var w := |left.columns|;
    var k := IndexOf(right.columns, c);
    var n := if c in left.columns then c + "_y" else c;
    assert r.columns[w + k] == n;
    IndexOfDistinct(r.columns, w + k);
    assert r.rows[i][w + k] == right.rows[i][k];
  }
}
