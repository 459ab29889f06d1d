/**
 * Flat tables: the model of a pandas DataFrame as the parser uses it.  A table
 * has an ordered list of column names (a name may occur twice, as in pandas)
 * and rows whose cells line up with those columns; a cell pandas would fill
 * with NaN is `Missing`.
 */
module Tables {
  import opened Wrappers
  import opened Json
  import opened Dicts

  datatype Cell = Missing | Present(v: Value)

  type Row = seq<Cell>

  datatype Table = Table(cols: seq<string>, rows: seq<Row>)

  /** The exceptions pandas and Python raise on the paths the model covers. */
  datatype Error =
    | MissingColumn(name: string)     // KeyError from a label lookup
    | AmbiguousColumn(name: string)   // a label that occurs twice where one value is needed
    | NotAList(name: string)          // TypeError from len() of a cell that is not a list
    | NonObjectElement(name: string)  // a list element that is not a JSON object
    | ColumnExists(name: string)      // ValueError from DataFrame.insert
    | CannotAlign                     // InvalidIndexError from concat on repeated labels
    | NothingToConcatenate            // ValueError from pd.concat([])

  /** Every row has one cell per column. */
  predicate Rectangular(t: Table)
  {
    forall i :: 0 <= i < |t.rows| ==> |t.rows[i]| == |t.cols|
  }

  /** `pd.DataFrame()`: no columns, no rows. */
  function Empty(): Table
  {
    Table([], [])
  }

  /** A row of `n` Missing cells (NaN). */
  function Missings(n: nat): (r: Row)
    ensures |r| == n && forall j :: 0 <= j < n ==> r[j] == Missing
  {
    seq(n, _ => Missing)
  }

  /** The cell of `row` under column `name` (its first occurrence); Missing when absent. */
  function Lookup(cols: seq<string>, row: Row, name: string): Cell
  {
    match IndexOf(cols, name)
    case Some(j) => if j < |row| then row[j] else Missing
    case None => Missing
  }

  /** The names of `b` that `a` lacks, in the order of `b`. */
  function Fresh(a: seq<string>, b: seq<string>): (f: seq<string>)
    ensures forall c :: c in f <==> c in b && c !in a
    ensures Distinct(b) ==> Distinct(f)
    ensures a == [] ==> f == b
  {
    if |b| == 0 then []
    else (if b[0] in a then [] else [b[0]]) + Fresh(a, b[1..])
  }

  /**
   * The column union of concatenation: the columns of `a`, then those of `b`
   * that `a` lacks, in order of first appearance.
   */
  function Union(a: seq<string>, b: seq<string>): (u: seq<string>)
    ensures |u| >= |a| && u[..|a|] == a
    ensures forall c :: c in u <==> c in a || c in b
    ensures Distinct(a) && Distinct(b) ==> Distinct(u)
    ensures a == [] ==> u == b
  {
    var f := Fresh(a, b);
    assert (a + f)[..|a|] == a;
    assert forall i, j :: 0 <= i < |a| <= j < |a| + |f| ==> (a + f)[i] == a[i] && (a + f)[j] == f[j - |a|] && f[j - |a|] in f;
    a + f
  }

  /** Nothing is fresh in names that are all already present. */
  lemma {:induction false} FreshCovered(a: seq<string>, b: seq<string>)
    requires forall c :: c in b ==> c in a
    ensures Fresh(a, b) == []
  {
    if |b| > 0 {
      assert b[0] in b;
      assert forall c :: c in b[1..] ==> c in b;
      FreshCovered(a, b[1..]);
    }
  }

  /** The row laid out under `target` by looking each target column up by name (`reindex`). */
  function Reindex(cols: seq<string>, row: Row, target: seq<string>): Row
  {
    seq(|target|, j requires 0 <= j < |target| => Lookup(cols, row, target[j]))
  }

  /**
   * How concatenation lays out a row of a table with columns `cols` under the
   * combined columns `target`: unchanged when the column lists are equal, by
   * name otherwise.
   */
  function Realign(cols: seq<string>, row: Row, target: seq<string>): Row
  {
    if cols == target then row else Reindex(cols, row, target)
  }

  lemma IndexOfDistinct(cols: seq<string>, j: nat)
    requires Distinct(cols) && j < |cols|
    ensures IndexOf(cols, cols[j]) == Some(j)
  {
    var r := IndexOf(cols, cols[j]).value;
    assert cols[r] == cols[j];
  }

  /**
   * Realigning a row of a table without repeated column names gives, at every
   * target column, the cell that row holds under the same name, and Missing
   * where the table has no such column.
   */
  lemma RealignByName(cols: seq<string>, row: Row, target: seq<string>, j: nat)
    requires |row| == |cols| && Distinct(cols) && j < |target|
    ensures |Realign(cols, row, target)| == |target|
    ensures Realign(cols, row, target)[j] == Lookup(cols, row, target[j])
    ensures target[j] in cols ==> Realign(cols, row, target)[j] == row[IndexOf(cols, target[j]).value]
    ensures target[j] !in cols ==> Realign(cols, row, target)[j] == Missing
  {
    if cols == target {
      IndexOfDistinct(cols, j);
    }
  }

  /** In a row whose labels are distinct, looking a label up finds its own cell. */
  lemma LookupOwn(cols: seq<string>, row: Row, x: nat)
    requires |row| == |cols| && Distinct(cols) && x < |cols|
    ensures Lookup(cols, row, cols[x]) == row[x]
  {
    IndexOfDistinct(cols, x);
  }

  /** `df.insert(0, name, c)`: a new first column holding `c` on every row. */
  function InsertFirst(t: Table, name: string, c: Cell): Result<Table, Error>
  {
    if name in t.cols then Err(ColumnExists(name))
    else Ok(Table([name] + t.cols, seq(|t.rows|, i requires 0 <= i < |t.rows| => [c] + t.rows[i])))
  }

  /** The positions at which `name` occurs, in increasing order. */
  function Positions(cols: seq<string>, name: string): (ps: seq<nat>)
    ensures forall q :: 0 <= q < |ps| ==> ps[q] < |cols| && cols[ps[q]] == name
    ensures forall j :: 0 <= j < |cols| && cols[j] == name ==> j in ps
  {
    if |cols| == 0 then []
    else
      var init := cols[..|cols| - 1];
      assert forall j :: 0 <= j < |init| ==> init[j] == cols[j];
      Positions(init, name) + (if cols[|cols| - 1] == name then [|cols| - 1] else [])
  }

  /**
   * The positions `get_indexer` finds for `name`: its one position when no
   * column name repeats, every position otherwise.
   */
  function Indexer(cols: seq<string>, name: string): (ps: seq<nat>)
    ensures forall q :: 0 <= q < |ps| ==> ps[q] < |cols| && cols[ps[q]] == name
    ensures name in cols ==> |ps| > 0
  {
    if Distinct(cols) then
      (match IndexOf(cols, name)
        case Some(j) => [j]
        case None => [])
    else
      var ps := Positions(cols, name);
      assert name in cols ==> exists j :: 0 <= j < |cols| && cols[j] == name && j in ps;
      ps
  }

  /** The column positions `df[names]` selects: for each requested name, every column so named. */
  function Selection(cols: seq<string>, names: seq<string>): (ps: seq<nat>)
    ensures forall q :: 0 <= q < |ps| ==> ps[q] < |cols| && cols[ps[q]] in names
  {
    if |names| == 0 then []
    else Selection(cols, names[..|names| - 1]) + Indexer(cols, names[|names| - 1])
  }

  /** The first requested name that is not a column, if any. */
  function FirstMissing(cols: seq<string>, names: seq<string>): (r: Option<string>)
    ensures r.None? <==> forall q :: 0 <= q < |names| ==> names[q] in cols
    ensures r.Some? ==> r.value in names && r.value !in cols
  {
    if |names| == 0 then None
    else if names[0] !in cols then Some(names[0])
    else FirstMissing(cols, names[1..])
  }

  /** `df[names]`: KeyError when a name is not a column, otherwise the selected columns. */
  function Project(t: Table, names: seq<string>): Result<Table, Error>
  {
    match FirstMissing(t.cols, names)
    case Some(n) => Err(MissingColumn(n))
    case None =>
      var ps := Selection(t.cols, names);
      Ok(Table(seq(|ps|, q requires 0 <= q < |ps| => t.cols[ps[q]]),
               seq(|t.rows|, i requires 0 <= i < |t.rows| =>
                 seq(|ps|, q requires 0 <= q < |ps| =>
                   if ps[q] < |t.rows[i]| then t.rows[i][ps[q]] else Missing))))
  }

  /** A requested name that is a column is selected: the position returned holds a column of that name. */
  lemma {:induction false} SelectionCovers(cols: seq<string>, names: seq<string>, n: string) returns (q: nat)
    requires n in names && n in cols
    ensures q < |Selection(cols, names)| && cols[Selection(cols, names)[q]] == n
  {
    var m := |names|;
    var init := names[..m - 1];
    var left := Selection(cols, init);
    var ps := Indexer(cols, names[m - 1]);
    assert Selection(cols, names) == left + ps;
    if names[m - 1] == n {
      q := |left|;
      assert (left + ps)[q] == ps[0];
    } else {
      assert n in init by {
        assert names == init + [names[m - 1]];
      }
      q := SelectionCovers(cols, init, n);
      assert (left + ps)[q] == left[q];
    }
  }

  lemma {:induction false} SelectionDistinct(cols: seq<string>, names: seq<string>)
    requires Distinct(cols) && forall q :: 0 <= q < |names| ==> names[q] in cols
    ensures |Selection(cols, names)| == |names|
    ensures forall q :: 0 <= q < |names| ==> Selection(cols, names)[q] == IndexOf(cols, names[q]).value
  {
    if |names| > 0 {
      var m := |names|;
      var init := names[..m - 1];
      assert forall q :: 0 <= q < |init| ==> init[q] == names[q];
      SelectionDistinct(cols, init);
      var left := Selection(cols, init);
      var last := IndexOf(cols, names[m - 1]).value;
      assert Indexer(cols, names[m - 1]) == [last];
      var sel := left + [last];
      assert Selection(cols, names) == sel;
      forall q | 0 <= q < m
        ensures sel[q] == IndexOf(cols, names[q]).value
      {
        if q < m - 1 {
          assert sel[q] == left[q];
          assert init[q] == names[q];
        }
      }
    }
  }

  /**
   * `df[names]` fails exactly when some name is not a column; otherwise it keeps
   * every row, and the selected columns are exactly the requested names (in the
   * requested order, cell for cell, when no column name is repeated).
   */
  lemma ProjectSpec(t: Table, names: seq<string>)
    ensures Project(t, names).Ok? <==> forall q :: 0 <= q < |names| ==> names[q] in t.cols
    ensures Project(t, names).Ok? ==>
      var p := Project(t, names).value;
      && |p.rows| == |t.rows|
      && (forall c :: c in p.cols <==> c in names)
      && (Rectangular(t) ==> Rectangular(p))
    ensures Project(t, names).Ok? && Distinct(t.cols) ==>
      var p := Project(t, names).value;
      && p.cols == names
      && forall i, q :: 0 <= i < |p.rows| && 0 <= q < |names| ==> p.rows[i][q] == Lookup(t.cols, t.rows[i], names[q])
  {
    if Project(t, names).Ok? {
      ProjectColumns(t, names);
      if Distinct(t.cols) {
        ProjectDistinct(t, names);
      }
    }
  }

  /** The selected columns are exactly the requested names. */
  lemma ProjectColumns(t: Table, names: seq<string>)
    requires Project(t, names).Ok?
    ensures forall c :: c in Project(t, names).value.cols <==> c in names
  {
    var p := Project(t, names).value;
    forall c | c in names
      ensures c in p.cols
    {
      var q := SelectionCovers(t.cols, names, c);
      assert p.cols[q] == c;
    }
  }

  /** Without repeated column names, the selection is the requested names in order, cell for cell. */
  lemma ProjectDistinct(t: Table, names: seq<string>)
    requires Project(t, names).Ok? && Distinct(t.cols)
    ensures var p := Project(t, names).value;
      && p.cols == names
      && forall i, q :: 0 <= i < |p.rows| && 0 <= q < |names| ==> p.rows[i][q] == Lookup(t.cols, t.rows[i], names[q])
  {
    SelectionDistinct(t.cols, names);
  }
}
