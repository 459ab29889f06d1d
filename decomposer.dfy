/**
 * `json_decomposer` (api_parser.py:269-283): every row of a table is exploded
 * along the list held in one of its columns.  Each list element is meant to
 * become one row holding the row's carried columns beside the element's
 * flattened fields; the per-row frames are concatenated and their column
 * names cleared of `.`.  A table without rows gives no table at all.
 *
 * ExplodeRow and Decompose pair the carried cells with the elements by
 * position.  Line 274 pairs them by row label instead; ExplodeRowAsWritten and
 * DecomposeAsWritten do that, and the lemmas beside them say where the two
 * differ.
 */
module Decomposer {
  import opened Wrappers
  import opened Json
  import opened Dicts
  import opened Tables
  import opened Normalize
  import opened Concat
  import opened Rename

  /** `row[name]` where one value is needed: KeyError when absent, an error when the rowLabel repeats. */
  function LabelValue(cols: seq<string>, row: Row, name: string): Result<Cell, Error>
  {
    if name !in cols then Err(MissingColumn(name))
    else if |Positions(cols, name)| > 1 then Err(AmbiguousColumn(name))
    else Ok(Lookup(cols, row, name))
  }

  /** The first carried name that is repeated, among the carried names or among the columns. */
  function FirstAmbiguous(cols: seq<string>, left: seq<string>): Option<string>
  {
    if |left| == 0 then None
    else if |Positions(cols, left[0])| > 1 || left[0] in left[1..] then Some(left[0])
    else FirstAmbiguous(cols, left[1..])
  }

  /** No carried name is reported ambiguous exactly when none repeats, among themselves or among the columns. */
  lemma {:induction false} FirstAmbiguousSpec(cols: seq<string>, left: seq<string>)
    ensures FirstAmbiguous(cols, left).None? <==>
      Distinct(left) && forall p :: 0 <= p < |left| ==> |Positions(cols, left[p])| <= 1
  {
    if |left| > 0 {
      FirstAmbiguousSpec(cols, left[1..]);
      assert forall p :: 1 <= p < |left| ==> left[p] == left[1..][p - 1];
    }
  }

  /** The element objects of a list, or an error naming the column when one is not an object. */
  function Objects(items: seq<Value>, name: string): Result<seq<Record>, Error>
  {
    if |items| == 0 then Ok([])
    else if !items[0].Obj? then Err(NonObjectElement(name))
    else
      var rest := Objects(items[1..], name);
      if rest.Err? then Err(rest.error) else Ok([items[0].fields] + rest.value)
  }

  /** The elements are collected exactly when all are objects, and then each element is its record. */
  lemma {:induction false} ObjectsSpec(items: seq<Value>, name: string)
    ensures Objects(items, name).Ok? <==> forall k :: 0 <= k < |items| ==> items[k].Obj?
    ensures Objects(items, name).Ok? ==>
      var r := Objects(items, name).value;
      |r| == |items| && forall k :: 0 <= k < |items| ==> items[k] == Obj(r[k])
  {
    if |items| > 0 {
      ObjectsSpec(items[1..], name);
      assert forall k :: 1 <= k < |items| ==> items[k] == items[1..][k - 1];
    }
  }

  /** The list a row holds under `right`, if it holds one there. */
  function ListAt(cols: seq<string>, row: Row, right: string): Option<seq<Value>>
  {
    match LabelValue(cols, row, right)
    case Ok(Present(Arr(items))) => Some(items)
    case _ => None
  }

  /** The number of elements of the list a row holds under `right` (zero when it holds none). */
  function ListLength(cols: seq<string>, row: Row, right: string): nat
  {
    match ListAt(cols, row, right)
    case Some(items) => |items|
    case None => 0
  }

  /** The records of a list's elements (an element that is not an object counts as empty). */
  function ElementRecords(items: seq<Value>): seq<Record>
  {
    seq(|items|, k requires 0 <= k < |items| => if items[k].Obj? then items[k].fields else [])
  }

  /** The carried cells of a row: its value under each carried column. */
  function Carried(cols: seq<string>, row: Row, left: seq<string>): Row
  {
    seq(|left|, p requires 0 <= p < |left| => Lookup(cols, row, left[p]))
  }

  /**
   * The carried cells repeated once per row of an element table, beside it:
   * each row holds the carried cells, then that element's cells.
   */
  function SideBySide(carried: Row, left: seq<string>, e: Table): Table
  {
    Table(left + e.cols, seq(|e.rows|, k requires 0 <= k < |e.rows| => carried + e.rows[k]))
  }

  /**
   * The frame built for one source row (api_parser.py:272-274):
   * `row[left_cols]` repeated once per list element beside
   * `json_normalize` of the list, side by side.
   */
  function ExplodeRow(cols: seq<string>, row: Row, left: seq<string>, right: string): Result<Table, Error>
  {
    match FirstMissing(cols, left)
    case Some(n) => Err(MissingColumn(n))
    case None =>
      var cell :- LabelValue(cols, row, right);
      if !(cell.Present? && cell.v.Arr?) then Err(NotAList(right))
      else
        var items := cell.v.items;
        if |items| == 0 then Ok(Empty())
        else
          match FirstAmbiguous(cols, left)
          case Some(n) => Err(AmbiguousColumn(n))
          case None =>
            var elems :- Objects(items, right);
            Ok(SideBySide(Carried(cols, row, left), left, JsonNormalize(elems)))
  }

  lemma ObjectsRecords(items: seq<Value>, name: string)
    requires Objects(items, name).Ok?
    ensures Objects(items, name).value == ElementRecords(items)
  {
    ObjectsSpec(items, name);
    var r := Objects(items, name).value;
    assert forall k :: 0 <= k < |items| ==> r[k] == items[k].fields;
  }

  /** The carried names, each present in the columns, and how many times each occurs there. */
  lemma CarriedPresent(cols: seq<string>, left: seq<string>)
    requires FirstMissing(cols, left).None?
    ensures forall p :: 0 <= p < |left| ==> |Positions(cols, left[p])| >= 1
  {
    forall p | 0 <= p < |left|
      ensures |Positions(cols, left[p])| >= 1
    {
      var j :| 0 <= j < |cols| && cols[j] == left[p];
      assert j in Positions(cols, left[p]);
    }
  }

  /**
   * A row explodes without error exactly when every carried column exists, the
   * list column exists once and holds a list, and, when that list is not
   * empty, no carried name repeats and every element is an object.
   */
  lemma ExplodeRowOk(cols: seq<string>, row: Row, left: seq<string>, right: string)
    ensures ExplodeRow(cols, row, left, right).Ok? <==>
      && (forall p :: 0 <= p < |left| ==> left[p] in cols)
      && ListAt(cols, row, right).Some?
      && (|ListAt(cols, row, right).value| > 0 ==>
            && Distinct(left)
            && (forall p :: 0 <= p < |left| ==> |Positions(cols, left[p])| == 1)
            && (forall k :: 0 <= k < |ListAt(cols, row, right).value| ==> ListAt(cols, row, right).value[k].Obj?))
  {
    match FirstMissing(cols, left) {
      case Some(n) =>
      case None =>
        CarriedPresent(cols, left);
        match LabelValue(cols, row, right) {
          case Err(_) =>
            assert ListAt(cols, row, right).None?;
          case Ok(cell) =>
            if cell.Present? && cell.v.Arr? {
              var items := cell.v.items;
              assert ListAt(cols, row, right) == Some(items);
              if |items| > 0 {
                FirstAmbiguousSpec(cols, left);
                ObjectsSpec(items, right);
              }
            } else {
              assert ListAt(cols, row, right).None?;
            }
        }
    }
  }

  /**
   * An exploded row has one row per list element; element `k`'s row holds the
   * source row's carried values verbatim followed by element `k`'s flattened
   * fields.
   */
  lemma ExplodeRowShape(cols: seq<string>, row: Row, left: seq<string>, right: string)
    requires ExplodeRow(cols, row, left, right).Ok?
    ensures ListAt(cols, row, right).Some?
    ensures
      var items := ListAt(cols, row, right).value;
      var f := ExplodeRow(cols, row, left, right).value;
      && |f.rows| == |items|
      && Rectangular(f)
      && (|items| == 0 ==> f == Empty())
      && (|items| > 0 ==> f == SideBySide(Carried(cols, row, left), left, JsonNormalize(ElementRecords(items))))
      && (|items| > 0 ==> f.cols == left + JsonNormalize(ElementRecords(items)).cols)
      && (|items| > 0 ==> forall k :: 0 <= k < |items| ==>
            f.rows[k] == Carried(cols, row, left) + JsonNormalize(ElementRecords(items)).rows[k])
  {
    var cell := LabelValue(cols, row, right).value;
    var items := cell.v.items;
    var f := ExplodeRow(cols, row, left, right).value;
    assert ListAt(cols, row, right) == Some(items);
    if |items| > 0 {
      var c := Carried(cols, row, left);
      var e := JsonNormalize(ElementRecords(items));
      assert f == SideBySide(c, left, e) by {
        ObjectsRecords(items, right);
      }
      JsonNormalizeShape(ElementRecords(items));
      SideBySideRows(c, left, e);
    }
  }

  /** A side-by-side frame: the carried names then the element columns; each row the carried cells then the element's. */
  lemma SideBySideRows(carried: Row, left: seq<string>, e: Table)
    requires |carried| == |left| && Rectangular(e)
    ensures var f := SideBySide(carried, left, e);
      && |f.rows| == |e.rows| && f.cols == left + e.cols && Rectangular(f)
      && forall k :: 0 <= k < |e.rows| ==> f.rows[k] == carried + e.rows[k]
  {
  }

  /** Exploding a row of a table with columns `cols`, as a function of the row. */
  function RowExploder(cols: seq<string>, left: seq<string>, right: string): Row -> Result<Table, Error>
  {
    row => ExplodeRow(cols, row, left, right)
  }

  /** What `explode` gives for each row, row by row. */
  function Results(rows: seq<Row>, explode: Row -> Result<Table, Error>): (rs: seq<Result<Table, Error>>)
    ensures |rs| == |rows|
  {
    seq(|rows|, i requires 0 <= i < |rows| => explode(rows[i]))
  }

  /** What exploding each row of `t` gives, row by row. */
  function RowFrames(t: Table, left: seq<string>, right: string): (rs: seq<Result<Table, Error>>)
    ensures |rs| == |t.rows|
    ensures forall i :: 0 <= i < |t.rows| ==> rs[i] == ExplodeRow(t.cols, t.rows[i], left, right)
  {
    Results(t.rows, RowExploder(t.cols, left, right))
  }

  /** The concatenated frames before the renaming, or None when the table has no rows. */
  function Stack(t: Table, left: seq<string>, right: string): Result<Option<Table>, Error>
  {
    if |t.rows| == 0 then Ok(None)
    else
      var frames :- Collect(RowFrames(t, left, right), |t.rows|);
      var s :- ConcatAll(frames);
      Ok(Some(s))
  }

  /**
   * What `json_decomposer(df, left_cols, right_cols)` returns: None exactly
   * when `df` has no rows, otherwise the exploded table (or the error raised),
   * whose column names hold no `.`.
   */
  function Decompose(t: Table, left: seq<string>, right: string): (r: Result<Option<Table>, Error>)
    ensures r == Ok(None) <==> |t.rows| == 0
    ensures r.Ok? && r.value.Some? ==> DotFree(r.value.value)
  {
    match Stack(t, left, right)
    case Err(e) => Err(e)
    case Ok(None) => Ok(None)
    case Ok(Some(s)) =>
      ReplacePeriodSpec(s);
      Ok(Some(ReplacePeriod(s)))
  }

  /** The frames of all rows, where every row explodes (an empty frame stands in for a failed row). */
  function Frames(t: Table, left: seq<string>, right: string): (fs: seq<Table>)
    ensures |fs| == |t.rows|
  {
    seq(|t.rows|, i requires 0 <= i < |t.rows| =>
      var f := ExplodeRow(t.cols, t.rows[i], left, right);
      if f.Ok? then f.value else Empty())
  }

  /** The number of list elements held under `right` by the given rows together. */
  function ElementCount(cols: seq<string>, rows: seq<Row>, right: string): nat
  {
    if |rows| == 0 then 0
    else ElementCount(cols, rows[..|rows| - 1], right) + ListLength(cols, rows[|rows| - 1], right)
  }

  /** For a table with rows, stacking is the concatenation of the rows' frames. */
  lemma StackIsConcat(t: Table, left: seq<string>, right: string)
    requires |t.rows| > 0
    ensures Stack(t, left, right).Ok? <==>
      (forall i :: 0 <= i < |t.rows| ==> RowFrames(t, left, right)[i].Ok?) && ConcatAll(Frames(t, left, right)).Ok?
    ensures Stack(t, left, right).Ok? ==> Stack(t, left, right).value == Some(ConcatAll(Frames(t, left, right)).value)
  {
    var rs := RowFrames(t, left, right);
    CollectOk(rs, |t.rows|);
    if Collect(rs, |t.rows|).Ok? {
      assert Collect(rs, |t.rows|).value == Frames(t, left, right);
    }
  }

  /** A row that explodes gives as many frame rows as its list has elements. */
  lemma FrameRowCount(t: Table, left: seq<string>, right: string, i: nat)
    requires i < |t.rows| && RowFrames(t, left, right)[i].Ok?
    ensures |Frames(t, left, right)[i].rows| == ListLength(t.cols, t.rows[i], right)
  {
    ExplodeRowShape(t.cols, t.rows[i], left, right);
  }

  /** The frames of the first `m` rows hold as many rows as those rows' lists hold elements. */
  lemma {:induction false} FramesRowCount(t: Table, left: seq<string>, right: string, m: nat)
    requires m <= |t.rows|
    requires forall i :: 0 <= i < |t.rows| ==> RowFrames(t, left, right)[i].Ok?
    ensures TotalRows(Frames(t, left, right)[..m]) == ElementCount(t.cols, t.rows[..m], right)
  {
    if m > 0 {
      var fs := Frames(t, left, right);
      FramesRowCount(t, left, right, m - 1);
      FrameRowCount(t, left, right, m - 1);
      assert fs[..m][..m - 1] == fs[..m - 1];
      assert TotalRows(fs[..m]) == TotalRows(fs[..m - 1]) + |fs[m - 1].rows|;
      assert t.rows[..m][..m - 1] == t.rows[..m - 1];
      assert ElementCount(t.cols, t.rows[..m], right) ==
        ElementCount(t.cols, t.rows[..m - 1], right) + ListLength(t.cols, t.rows[m - 1], right);
    }
  }

  /**
   * `json_decomposer` succeeds exactly when every row explodes and, for a
   * table with rows, the frames concatenate (which they always do when no
   * frame repeats a column name).  Its table then has one row per list
   * element across all rows, and its columns are the union of the frames'
   * columns with `.` replaced by `_`.
   */
  lemma DecomposeSpec(t: Table, left: seq<string>, right: string)
    ensures Decompose(t, left, right).Ok? <==>
      && (forall i :: 0 <= i < |t.rows| ==> RowFrames(t, left, right)[i].Ok?)
      && (|t.rows| > 0 ==> ConcatAll(Frames(t, left, right)).Ok?)
    ensures
      && |t.rows| > 0
      && (forall i :: 0 <= i < |t.rows| ==> RowFrames(t, left, right)[i].Ok?)
      && (forall i :: 0 <= i < |t.rows| ==> Distinct(Frames(t, left, right)[i].cols))
      ==> Decompose(t, left, right).Ok?
    ensures Decompose(t, left, right).Ok? && |t.rows| > 0 ==>
      var out := Decompose(t, left, right).value.value;
      var u := UnionAll(Frames(t, left, right));
      && |out.rows| == ElementCount(t.cols, t.rows, right)
      && Rectangular(out)
      && |out.cols| == |u|
      && forall j :: 0 <= j < |u| ==> out.cols[j] == ReplaceDots(u[j])
  {
    if |t.rows| > 0 {
      var fs := Frames(t, left, right);
      StackIsConcat(t, left, right);
      if forall i :: 0 <= i < |t.rows| ==> RowFrames(t, left, right)[i].Ok? {
        if forall i :: 0 <= i < |t.rows| ==> Distinct(fs[i].cols) {
          ConcatAllDistinct(fs);
        }
        ConcatAllSpec(fs);
        if ConcatAll(fs).Ok? {
          var s := ConcatAll(fs).value;
          forall i | 0 <= i < |fs|
            ensures Rectangular(fs[i])
          {
            assert RowFrames(t, left, right)[i].Ok?;
            ExplodeRowShape(t.cols, t.rows[i], left, right);
          }
          FramesRowCount(t, left, right, |t.rows|);
          assert fs[..|t.rows|] == fs;
          assert t.rows[..|t.rows|] == t.rows;
          ReplacePeriodSpec(s);
        }
      }
    }
  }

  /** A successful result is the renamed concatenation of the frames of rows that all explode. */
  lemma DecomposeOut(t: Table, left: seq<string>, right: string)
    requires Decompose(t, left, right).Ok? && |t.rows| > 0
    ensures forall i :: 0 <= i < |t.rows| ==> RowFrames(t, left, right)[i].Ok?
    ensures ConcatAll(Frames(t, left, right)).Ok?
    ensures Decompose(t, left, right).value == Some(ReplacePeriod(ConcatAll(Frames(t, left, right)).value))
  {
    StackIsConcat(t, left, right);
  }

  /**
   * Where the rows of row `i`'s frame end up: its row `k` is row
   * `ElementCount(rows before i) + k` of the result, laid out under the
   * combined columns.
   */
  lemma DecomposeRowAt(t: Table, left: seq<string>, right: string, i: nat, k: nat)
    requires Decompose(t, left, right).Ok? && i < |t.rows|
    requires k < ListLength(t.cols, t.rows[i], right)
    ensures ExplodeRow(t.cols, t.rows[i], left, right).Ok?
    ensures k < |Frames(t, left, right)[i].rows|
    ensures
      var out := Decompose(t, left, right).value.value;
      var f := Frames(t, left, right)[i];
      var pos := ElementCount(t.cols, t.rows[..i], right) + k;
      && pos < |out.rows|
      && out.rows[pos] == Realign(f.cols, f.rows[k], UnionAll(Frames(t, left, right)))
  {
    var fs := Frames(t, left, right);
    assert forall i' :: 0 <= i' < |t.rows| ==> RowFrames(t, left, right)[i'].Ok?
      by { DecomposeOut(t, left, right); }
    assert ConcatAll(fs).Ok? && Decompose(t, left, right).value.value == ReplacePeriod(ConcatAll(fs).value)
      by { DecomposeOut(t, left, right); }
    assert RowFrames(t, left, right)[i].Ok?;
    assert k < |fs[i].rows| by { FrameRowCount(t, left, right, i); }
    assert Offset(fs, i) == ElementCount(t.cols, t.rows[..i], right)
      by { FramesRowCount(t, left, right, i); }
    var s := ConcatAll(fs).value;
    assert s.cols == UnionAll(fs) by { ConcatAllSpec(fs); }
    assert ReplacePeriod(s).rows == s.rows by { ReplacePeriodSpec(s); }
    ConcatAllAt(fs, i, k);
  }

  /**
   * The cells of a side-by-side frame's row laid out under combined columns
   * `target` (the frame repeating no name): under the first target column
   * bearing the name of frame column `x` sits carried cell `x`, or, past the
   * carried columns, the element's cell `x - |left|`.
   */
  lemma SideBySideCellAt(carried: Row, left: seq<string>, e: Table, k: nat, target: seq<string>, x: nat)
    requires |carried| == |left| && Rectangular(e) && k < |e.rows|
    requires Distinct(SideBySide(carried, left, e).cols) && x < |SideBySide(carried, left, e).cols|
    requires SideBySide(carried, left, e).cols[x] in target
    ensures
      var f := SideBySide(carried, left, e);
      var j := IndexOf(target, f.cols[x]).value;
      var r := Realign(f.cols, f.rows[k], target);
      && j < |r|
      && (x < |left| ==> r[j] == carried[x])
      && (x >= |left| ==> x - |left| < |e.rows[k]| && r[j] == e.rows[k][x - |left|])
  {
    var f := SideBySide(carried, left, e);
    var row := carried + e.rows[k];
    assert f.rows[k] == row;
    assert |row| == |f.cols| by {
      assert |e.rows[k]| == |e.cols|;
    }
    var j := IndexOf(target, f.cols[x]).value;
    assert target[j] == f.cols[x];
    RealignByName(f.cols, row, target, j);
    LookupOwn(f.cols, row, x);
    assert Realign(f.cols, row, target)[j] == row[x];
    if x >= |left| {
      assert row[x] == e.rows[k][x - |left|];
    }
  }

  /**
   * Where element `k` of row `i`'s list ends up, cell by cell: at row
   * `ElementCount(rows before i) + k` of the result, under the first column
   * bearing the (renamed) name of column `x` of the row's frame, the result
   * holds, for a carried column, the source row's value verbatim and, for an
   * element column, element `k`'s flattened field.
   */
  lemma DecomposeCellAt(t: Table, left: seq<string>, right: string, i: nat, k: nat, x: nat)
    requires Decompose(t, left, right).Ok? && i < |t.rows|
    requires k < ListLength(t.cols, t.rows[i], right)
    requires Distinct(Frames(t, left, right)[i].cols) && x < |Frames(t, left, right)[i].cols|
    ensures
      var out := Decompose(t, left, right).value.value;
      var name := Frames(t, left, right)[i].cols[x];
      var u := UnionAll(Frames(t, left, right));
      var items := ListAt(t.cols, t.rows[i], right).value;
      var elemTable := JsonNormalize(ElementRecords(items));
      var pos := ElementCount(t.cols, t.rows[..i], right) + k;
      && name in u
      && var j := IndexOf(u, name).value;
      && pos < |out.rows| && j < |out.cols| && j < |out.rows[pos]|
      && out.cols[j] == ReplaceDots(name)
      && (x < |left| ==> out.rows[pos][j] == Lookup(t.cols, t.rows[i], left[x]))
      && (x >= |left| ==> x - |left| < |elemTable.rows[k]| && out.rows[pos][j] == elemTable.rows[k][x - |left|])
  {
    var fs := Frames(t, left, right);
    var u := UnionAll(fs);
    var out := Decompose(t, left, right).value.value;
    var row := t.rows[i];
    DecomposeRowAt(t, left, right, i, k);
    var pos := ElementCount(t.cols, t.rows[..i], right) + k;
    var items := ListAt(t.cols, row, right).value;
    var carried := Carried(t.cols, row, left);
    var e := JsonNormalize(ElementRecords(items));
    assert fs[i] == SideBySide(carried, left, e) && k < |e.rows| && Rectangular(e) by {
      ExplodeRowShape(t.cols, row, left, right);
      JsonNormalizeShape(ElementRecords(items));
    }
    var name := fs[i].cols[x];
    assert name in u && |out.cols| == |u| && forall j :: 0 <= j < |u| ==> out.cols[j] == ReplaceDots(u[j]) by {
      assert name in fs[i].cols;
      DecomposeOut(t, left, right);
      ConcatAllSpec(fs);
    }
    SideBySideCellAt(carried, left, e, k, u, x);
    var j := IndexOf(u, name).value;
    assert u[j] == name;
    assert out.cols[j] == ReplaceDots(name);
    assert out.rows[pos] == Realign(fs[i].cols, fs[i].rows[k], u);
    if x < |left| {
      assert carried[x] == Lookup(t.cols, row, left[x]);
    }
  }

  /**
   * The frame line 274 builds for the row labelled `rowLabel`, as written: the
   * carried frame `pd.DataFrame([row[left_cols]] * n)` takes its row labels
   * from the repeated row (all `rowLabel`), the element frame is labelled
   * `0 .. n - 1`, and `pd.concat(axis=1)` pairs rows by rowLabel.  The checks
   * before the concatenation are those of ExplodeRow.
   */
  function ExplodeRowAsWritten(cols: seq<string>, row: Row, rowLabel: int, left: seq<string>, right: string): Result<Table, Error>
  {
    var f :- ExplodeRow(cols, row, left, right);
    match ListAt(cols, row, right)
    case None => Ok(f)  // ExplodeRow has already required a list
    case Some(items) =>
      if |items| == 0 then Ok(f)
      else
        var e := JsonNormalize(ElementRecords(items));
        JsonNormalizeShape(ElementRecords(items));
        ConcatColumnsByLabel(CarriedFrame(cols, row, left, |items|), Repeated(rowLabel, |items|), e, Range(|e.rows|))
  }

  /** `pd.DataFrame([row[left_cols]] * n)`: the carried cells, `n` times. */
  function CarriedFrame(cols: seq<string>, row: Row, left: seq<string>, n: nat): (f: Table)
    ensures |f.rows| == n
  {
    Table(left, seq(n, _ => Carried(cols, row, left)))
  }

  /** `n` copies of one rowLabel. */
  function Repeated(rowLabel: int, n: nat): (ls: seq<int>)
    ensures |ls| == n && forall k :: 0 <= k < n ==> ls[k] == rowLabel
  {
    seq(n, _ => rowLabel)
  }

  /**
   * Both explodes of a row whose list is not empty, written out: the
   * positional frame is the carried cells beside the normalised elements, and
   * the as-written one is the label-aligned concatenation of the same frames.
   */
  lemma ExplodeRowUnfold(cols: seq<string>, row: Row, rowLabel: int, left: seq<string>, right: string)
    requires ExplodeRow(cols, row, left, right).Ok? && ListLength(cols, row, right) > 0
    ensures
      var n := ListLength(cols, row, right);
      var c := Carried(cols, row, left);
      var e := JsonNormalize(ElementRecords(ListAt(cols, row, right).value));
      && |e.rows| == n
      && ExplodeRow(cols, row, left, right).value == SideBySide(c, left, e)
      && ExplodeRowAsWritten(cols, row, rowLabel, left, right) ==
           ConcatColumnsByLabel(CarriedFrame(cols, row, left, n), Repeated(rowLabel, n), e, Range(n))
  {
    var items := ListAt(cols, row, right).value;
    assert |JsonNormalize(ElementRecords(items)).rows| == |items| by {
      JsonNormalizeShape(ElementRecords(items));
    }
    assert ExplodeRow(cols, row, left, right).value ==
      SideBySide(Carried(cols, row, left), left, JsonNormalize(ElementRecords(items))) by {
      ObjectsRecords(items, right);
    }
  }

  /**
   * Where the two agree: a row whose list is empty, or holds one element and
   * is labelled 0, explodes to the same frame either way.
   */
  lemma ExplodeRowAsWrittenAgrees(cols: seq<string>, row: Row, rowLabel: int, left: seq<string>, right: string)
    requires ListLength(cols, row, right) == 0 || (ListLength(cols, row, right) == 1 && rowLabel == 0)
    ensures ExplodeRowAsWritten(cols, row, rowLabel, left, right) == ExplodeRow(cols, row, left, right)
  {
    if ListLength(cols, row, right) == 1 {
      OneElementAtZero(cols, row, left, right);
    }
  }

  /** The one-element case of ExplodeRowAsWrittenAgrees, the row labelled 0. */
  lemma OneElementAtZero(cols: seq<string>, row: Row, left: seq<string>, right: string)
    requires ListLength(cols, row, right) == 1
    ensures ExplodeRowAsWritten(cols, row, 0, left, right) == ExplodeRow(cols, row, left, right)
  {
    if ExplodeRow(cols, row, left, right).Ok? {
      var e := JsonNormalize(ElementRecords(ListAt(cols, row, right).value));
      var c := Carried(cols, row, left);
      assert ExplodeRowAsWritten(cols, row, 0, left, right) ==
        ConcatColumnsByLabel(Table(left, [c]), [0], e, Range(1)) by {
        ExplodeRowUnfold(cols, row, 0, left, right);
        assert CarriedFrame(cols, row, left, 1) == Table(left, [c]);
        assert Repeated(0, 1) == [0];
      }
      assert ExplodeRow(cols, row, left, right) == Ok(SideBySide(c, left, e)) by {
        ExplodeRowUnfold(cols, row, 0, left, right);
      }
      CarriedBesideOneAtZero(c, left, e);
    }
  }

  /** One carried row labelled 0 beside a one-row element frame: paired by position. */
  lemma CarriedBesideOneAtZero(c: Row, left: seq<string>, e: Table)
    requires |e.rows| == 1
    ensures ConcatColumnsByLabel(Table(left, [c]), [0], e, Range(1)) == Ok(SideBySide(c, left, e))
  {
    assert Range(1) == [0];
    var r := ConcatColumnsByLabel(Table(left, [c]), [0], e, Range(1)).value;
    var f := SideBySide(c, left, e);
    assert r.cols == f.cols;
    assert |r.rows| == 1 && r.rows[0] == c + e.rows[0];
    assert |f.rows| == 1 && f.rows[0] == c + e.rows[0];
    assert r.rows == f.rows;
    assert r == f;
  }

  /**
   * A row whose list holds two elements or more raises at line 274 as
   * written (InvalidIndexError: the carried frame repeats its label), where
   * the positional explode succeeds whenever the row is otherwise well formed.
   */
  lemma ExplodeRowAsWrittenRaises(cols: seq<string>, row: Row, rowLabel: int, left: seq<string>, right: string)
    requires ListLength(cols, row, right) >= 2
    ensures ExplodeRowAsWritten(cols, row, rowLabel, left, right).Err?
    ensures ExplodeRow(cols, row, left, right).Ok? ==> ExplodeRowAsWritten(cols, row, rowLabel, left, right) == Err(CannotAlign)
  {
    if ExplodeRow(cols, row, left, right).Ok? {
      var n := ListLength(cols, row, right);
      ExplodeRowUnfold(cols, row, rowLabel, left, right);
      RepeatedAgainstRange(rowLabel, n);
    }
  }

  /** Two or more copies of one label repeat it and differ from the range labels. */
  lemma RepeatedAgainstRange(rowLabel: int, n: nat)
    requires n >= 2
    ensures !UniqueLabels(Repeated(rowLabel, n)) && Repeated(rowLabel, n) != Range(n)
  {
    var la := Repeated(rowLabel, n);
    var lb := Range(n);
    assert la[0] == la[1] && lb[0] != lb[1];
  }

  /**
   * A row whose list holds one element but that is not labelled 0 comes out
   * as two rows as written: the carried cells beside Missing element cells,
   * then Missing carried cells beside the element's, where the positional
   * explode gives the one row holding both.
   */
  lemma ExplodeRowAsWrittenSplits(cols: seq<string>, row: Row, rowLabel: int, left: seq<string>, right: string)
    requires ExplodeRow(cols, row, left, right).Ok? && ListLength(cols, row, right) == 1 && rowLabel != 0
    ensures
      var c := Carried(cols, row, left);
      var e := JsonNormalize(ElementRecords(ListAt(cols, row, right).value));
      var g := ExplodeRowAsWritten(cols, row, rowLabel, left, right);
      && ExplodeRow(cols, row, left, right).value.rows == [c + e.rows[0]]
      && g.Ok? && g.value.cols == ExplodeRow(cols, row, left, right).value.cols
      && g.value.rows == [c + Missings(|e.cols|), Missings(|left|) + e.rows[0]]
  {
    var e := JsonNormalize(ElementRecords(ListAt(cols, row, right).value));
    var c := Carried(cols, row, left);
    ExplodeRowUnfold(cols, row, rowLabel, left, right);
    assert CarriedFrame(cols, row, left, 1) == Table(left, [c]);
    assert Repeated(rowLabel, 1) == [rowLabel];
    CarriedBesideOne(c, left, e, rowLabel);
    assert SideBySide(c, left, e).rows == [c + e.rows[0]];
  }

  /** One carried row under label `rowLabel` beside a one-row element frame labelled 0. */
  lemma CarriedBesideOne(c: Row, left: seq<string>, e: Table, rowLabel: int)
    requires |e.rows| == 1 && rowLabel != 0
    ensures ConcatColumnsByLabel(Table(left, [c]), [rowLabel], e, Range(1)) ==
      Ok(Table(left + e.cols, [c + Missings(|e.cols|), Missings(|left|) + e.rows[0]]))
  {
    ConcatColumnsDisjointRows(Table(left, [c]), rowLabel, e);
  }

  /** `json_decomposer` as written: each row exploded under its label, the row's position. */
  function DecomposeAsWritten(t: Table, left: seq<string>, right: string): Result<Option<Table>, Error>
  {
    if |t.rows| == 0 then Ok(None)
    else
      var frames :- Collect(AsWrittenFrames(t, left, right), |t.rows|);
      var s :- ConcatAll(frames);
      Ok(Some(ReplacePeriod(s)))
  }

  /** What exploding each row of `t` as written gives, row by row. */
  function AsWrittenFrames(t: Table, left: seq<string>, right: string): (rs: seq<Result<Table, Error>>)
    ensures |rs| == |t.rows|
  {
    seq(|t.rows|, i requires 0 <= i < |t.rows| => ExplodeRowAsWritten(t.cols, t.rows[i], i, left, right))
  }

  /**
   * As written, `json_decomposer` raises on any table where some row's list
   * holds two elements or more, whatever the other rows hold.
   */
  lemma DecomposeAsWrittenRaises(t: Table, left: seq<string>, right: string, i: nat)
    requires i < |t.rows| && ListLength(t.cols, t.rows[i], right) >= 2
    ensures DecomposeAsWritten(t, left, right).Err?
  {
    var rs := AsWrittenFrames(t, left, right);
    assert rs[i].Err? by {
      ExplodeRowAsWrittenRaises(t.cols, t.rows[i], i, left, right);
    }
    assert Collect(rs, |t.rows|).Err? by {
      CollectOk(rs, |t.rows|);
    }
  }

  /**
   * As written, a table of `n` rows each holding a one-element list gives
   * `2 * n - 1` rows (every row after the first split in two), where the
   * positional explode gives `n`.
   */
  lemma DecomposeAsWrittenSplitsRows(t: Table, left: seq<string>, right: string)
    requires |t.rows| > 0 && forall i :: 0 <= i < |t.rows| ==> ListLength(t.cols, t.rows[i], right) == 1
    requires DecomposeAsWritten(t, left, right).Ok? && Decompose(t, left, right).Ok?
    ensures |DecomposeAsWritten(t, left, right).value.value.rows| == 2 * |t.rows| - 1
    ensures |Decompose(t, left, right).value.value.rows| == |t.rows|
  {
    AsWrittenRowCount(t, left, right);
    assert |Decompose(t, left, right).value.value.rows| == |t.rows| by {
      DecomposeSpec(t, left, right);
      ElementCountOnes(t.cols, t.rows, right);
    }
  }

  /** As written, one-element lists in `n` rows give one frame row for the first row and two for each other. */
  lemma AsWrittenRowCount(t: Table, left: seq<string>, right: string)
    requires |t.rows| > 0 && forall i :: 0 <= i < |t.rows| ==> ListLength(t.cols, t.rows[i], right) == 1
    requires DecomposeAsWritten(t, left, right).Ok?
    ensures |DecomposeAsWritten(t, left, right).value.value.rows| == 2 * |t.rows| - 1
  {
    var rs := AsWrittenFrames(t, left, right);
    var frames := Collect(rs, |t.rows|).value;
    AsWrittenTotalRows(t, left, right);
    assert |DecomposeAsWritten(t, left, right).value.value.rows| == TotalRows(frames) by {
      ConcatAllSpec(frames);
      ReplacePeriodSpec(ConcatAll(frames).value);
    }
  }

  /** The as-written frames of rows each holding one element hold `2 * n - 1` rows together. */
  lemma AsWrittenTotalRows(t: Table, left: seq<string>, right: string)
    requires |t.rows| > 0 && forall i :: 0 <= i < |t.rows| ==> ListLength(t.cols, t.rows[i], right) == 1
    requires Collect(AsWrittenFrames(t, left, right), |t.rows|).Ok?
    ensures TotalRows(Collect(AsWrittenFrames(t, left, right), |t.rows|).value) == 2 * |t.rows| - 1
  {
    var rs := AsWrittenFrames(t, left, right);
    var frames := Collect(rs, |t.rows|).value;
    assert |frames| == |t.rows| && forall i :: 0 <= i < |t.rows| ==> rs[i] == Ok(frames[i]) by {
      CollectOk(rs, |t.rows|);
    }
    forall i | 0 <= i < |t.rows|
      ensures |frames[i].rows| == if i == 0 then 1 else 2
    {
      AsWrittenFrameRows(t, left, right, i);
    }
    assert frames[..|frames|] == frames;
    TotalRowsSplit(frames, |frames|);
  }

  /** As written, a row holding one element explodes to one row when labelled 0 and to two otherwise. */
  lemma AsWrittenFrameRows(t: Table, left: seq<string>, right: string, i: nat)
    requires i < |t.rows| && ListLength(t.cols, t.rows[i], right) == 1 && AsWrittenFrames(t, left, right)[i].Ok?
    ensures |AsWrittenFrames(t, left, right)[i].value.rows| == if i == 0 then 1 else 2
  {
    assert ExplodeRow(t.cols, t.rows[i], left, right).Ok?;
    if i == 0 {
      ExplodeRowAsWrittenAgrees(t.cols, t.rows[i], i, left, right);
      ExplodeRowShape(t.cols, t.rows[i], left, right);
    } else {
      ExplodeRowAsWrittenSplits(t.cols, t.rows[i], i, left, right);
    }
  }

  /** Frames of one row and then two rows each hold `2 * m - 1` rows together. */
  lemma {:induction false} TotalRowsSplit(fs: seq<Table>, m: nat)
    requires 0 < m <= |fs| && forall i :: 0 <= i < |fs| ==> |fs[i].rows| == if i == 0 then 1 else 2
    ensures TotalRows(fs[..m]) == 2 * m - 1
  {
    if m > 1 {
      TotalRowsSplit(fs, m - 1);
      assert fs[..m][..m - 1] == fs[..m - 1];
    } else {
      assert fs[..1][..0] == [];
    }
    if m == |fs| {
      assert fs[..m] == fs;
    }
  }

  /** Rows each holding a one-element list hold as many elements as there are rows. */
  lemma {:induction false} ElementCountOnes(cols: seq<string>, rows: seq<Row>, right: string)
    requires forall i :: 0 <= i < |rows| ==> ListLength(cols, rows[i], right) == 1
    ensures ElementCount(cols, rows, right) == |rows|
  {
    if |rows| > 0 {
      ElementCountOnes(cols, rows[..|rows| - 1], right);
    }
  }

  /**
   * As written, `json_decomposer` gives the positional result when every
   * list is empty except possibly a one-element list in the first row.
   */
  lemma DecomposeAsWrittenAgrees(t: Table, left: seq<string>, right: string)
    requires forall i :: 0 <= i < |t.rows| ==>
      ListLength(t.cols, t.rows[i], right) == 0 || (i == 0 && ListLength(t.cols, t.rows[i], right) == 1)
    ensures DecomposeAsWritten(t, left, right) == Decompose(t, left, right)
  {
    forall i | 0 <= i < |t.rows|
      ensures AsWrittenFrames(t, left, right)[i] == RowFrames(t, left, right)[i]
    {
      ExplodeRowAsWrittenAgrees(t.cols, t.rows[i], i, left, right);
    }
    assert AsWrittenFrames(t, left, right) == RowFrames(t, left, right);
  }

  /**
   * The loop of `json_decomposer`: the rows visited in order, one frame
   * appended per row, stopping at the first row that raises.
   */
  method ExplodeEach(rows: seq<Row>, explode: Row -> Result<Table, Error>) returns (r: Result<seq<Table>, Error>)
    ensures r == Collect(Results(rows, explode), |rows|)
    ensures r.Ok? ==> |r.value| == |rows|
  {
    ghost var rs := Results(rows, explode);
    var frames: seq<Table> := [];
    var i := 0;
    while i < |rows|
      invariant 0 <= i <= |rows|
      invariant Collect(rs, i) == Ok(frames)
      invariant |frames| == i
    {
      var f := explode(rows[i]);
      assert f == rs[i];
      if f.Err? {
        assert Collect(rs, i + 1) == Err(f.error);
        CollectErr(rs, i + 1, |rows|, f.error);
        return Err(f.error);
      }
      assert Collect(rs, i + 1) == Ok(frames + [f.value]);
      frames := frames + [f.value];
      i := i + 1;
    }
    r := Ok(frames);
  }

  /** `json_decomposer`: the rows exploded, the frames concatenated, the column names cleared of dots. */
  method JsonDecomposer(df: Table, left: seq<string>, right: string) returns (r: Result<Option<Table>, Error>)
    ensures r == Decompose(df, left, right)
  {
    var frames := ExplodeEach(df.rows, RowExploder(df.cols, left, right));
    assert Results(df.rows, RowExploder(df.cols, left, right)) == RowFrames(df, left, right);
    if frames.Err? {
      return Err(frames.error);
    }
    if |frames.value| == 0 {
      assert |df.rows| == 0;
      return Ok(None);
    }
    var stacked := ConcatAll(frames.value);
    if stacked.Err? {
      return Err(stacked.error);
    }
    r := Ok(Some(ReplacePeriod(stacked.value)));
  }
}
