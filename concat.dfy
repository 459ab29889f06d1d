/**
 * `pd.concat(frames)` along the rows: the columns become the union of the
 * frames' columns, and every frame's rows are laid out under it.
 */
module Concat {
  import opened Wrappers
  import opened Dicts
  import opened Tables

  /** The combined columns: the frames' column lists united from left to right. */
  function UnionAll(frames: seq<Table>): (u: seq<string>)
    ensures forall c :: c in u <==> exists i :: 0 <= i < |frames| && c in frames[i].cols
    ensures (forall i :: 0 <= i < |frames| ==> Distinct(frames[i].cols)) ==> Distinct(u)
  {
    if |frames| == 0 then []
    else
      var init := frames[..|frames| - 1];
      assert forall i :: 0 <= i < |init| ==> init[i] == frames[i];
      Union(UnionAll(init), frames[|frames| - 1].cols)
  }

  /**
   * One frame's rows under the combined columns `u`: as they are when the
   * frame already has exactly those columns, reindexed by name when its own
   * names are distinct, and an alignment error otherwise.
   */
  function Aligned(f: Table, u: seq<string>): Result<seq<Row>, Error>
  {
    if f.cols == u then Ok(f.rows)
    else if Distinct(f.cols) then Ok(seq(|f.rows|, k requires 0 <= k < |f.rows| => Reindex(f.cols, f.rows[k], u)))
    else Err(CannotAlign)
  }

  /** The aligned rows of all frames, frame after frame. */
  function StackRows(frames: seq<Table>, u: seq<string>): Result<seq<Row>, Error>
  {
    if |frames| == 0 then Ok([])
    else
      var init :- StackRows(frames[..|frames| - 1], u);
      var last :- Aligned(frames[|frames| - 1], u);
      Ok(init + last)
  }

  /** `pd.concat(frames).reset_index(drop=True)`. */
  function ConcatAll(frames: seq<Table>): Result<Table, Error>
  {
    if |frames| == 0 then Err(NothingToConcatenate)
    else
      var u := UnionAll(frames);
      var rows :- StackRows(frames, u);
      Ok(Table(u, rows))
  }

  /** The number of rows of all frames together. */
  function TotalRows(frames: seq<Table>): nat
  {
    if |frames| == 0 then 0
    else TotalRows(frames[..|frames| - 1]) + |frames[|frames| - 1].rows|
  }

  /** Where the rows of frame `i` start in the concatenation. */
  function Offset(frames: seq<Table>, i: nat): nat
    requires i <= |frames|
  {
    TotalRows(frames[..i])
  }

  /** A frame can be laid out under `u`. */
  predicate Alignable(f: Table, u: seq<string>)
  {
    f.cols == u || Distinct(f.cols)
  }

  lemma {:induction false} StackRowsSpec(frames: seq<Table>, u: seq<string>)
    ensures StackRows(frames, u).Ok? <==> forall i :: 0 <= i < |frames| ==> Alignable(frames[i], u)
    ensures StackRows(frames, u).Ok? ==> |StackRows(frames, u).value| == TotalRows(frames)
    ensures StackRows(frames, u).Ok? && (forall i :: 0 <= i < |frames| ==> Rectangular(frames[i])) ==>
      forall r :: 0 <= r < |StackRows(frames, u).value| ==> |StackRows(frames, u).value[r]| == |u|
  {
    if |frames| > 0 {
      var init := frames[..|frames| - 1];
      assert forall i :: 0 <= i < |init| ==> init[i] == frames[i];
      StackRowsSpec(init, u);
    }
  }

  lemma {:induction false} StackRowsAt(frames: seq<Table>, u: seq<string>, i: nat, k: nat)
    requires StackRows(frames, u).Ok? && i < |frames| && k < |frames[i].rows|
    ensures Offset(frames, i) + k < |StackRows(frames, u).value|
    ensures StackRows(frames, u).value[Offset(frames, i) + k] == Realign(frames[i].cols, frames[i].rows[k], u)
  {
    var n := |frames|;
    var init := frames[..n - 1];
    StackRowsSpec(init, u);
    var rows := StackRows(init, u).value;
    var last := Aligned(frames[n - 1], u).value;
    assert StackRows(frames, u).value == rows + last;
    if i == n - 1 {
      assert Offset(frames, i) == |rows|;
    } else {
      assert init[i] == frames[i];
      assert init[..i] == frames[..i];
      StackRowsAt(init, u, i, k);
      assert TotalRows(frames[..i]) + k < TotalRows(init);
    }
  }

  /**
   * Concatenation fails only on an empty list or when a frame with repeated
   * column names would have to be realigned.  On success its row count is the
   * sum of the frames' row counts, its columns are the union of theirs (with
   * no name repeated when no frame repeats one), and row `k` of frame `i`
   * lands at `Offset(frames, i) + k`, realigned under the combined columns.
   */
  lemma ConcatAllSpec(frames: seq<Table>)
    ensures ConcatAll(frames).Ok? <==>
      |frames| > 0 && forall i :: 0 <= i < |frames| ==> Alignable(frames[i], UnionAll(frames))
    ensures ConcatAll(frames).Ok? ==>
      var out := ConcatAll(frames).value;
      && out.cols == UnionAll(frames)
      && |out.rows| == TotalRows(frames)
      && (forall c :: c in out.cols <==> exists i :: 0 <= i < |frames| && c in frames[i].cols)
      && ((forall i :: 0 <= i < |frames| ==> Rectangular(frames[i])) ==> Rectangular(out))
      && ((forall i :: 0 <= i < |frames| ==> Distinct(frames[i].cols)) ==> Distinct(out.cols))
  {
    StackRowsSpec(frames, UnionAll(frames));
  }

  lemma ConcatAllAt(frames: seq<Table>, i: nat, k: nat)
    requires ConcatAll(frames).Ok? && i < |frames| && k < |frames[i].rows|
    ensures Offset(frames, i) + k < |ConcatAll(frames).value.rows|
    ensures ConcatAll(frames).value.rows[Offset(frames, i) + k] ==
      Realign(frames[i].cols, frames[i].rows[k], ConcatAll(frames).value.cols)
  {
    StackRowsAt(frames, UnionAll(frames), i, k);
  }

  /** Frames without repeated column names always concatenate. */
  lemma ConcatAllDistinct(frames: seq<Table>)
    requires |frames| > 0 && forall i :: 0 <= i < |frames| ==> Distinct(frames[i].cols)
    ensures ConcatAll(frames).Ok?
  {
    StackRowsSpec(frames, UnionAll(frames));
  }

  /**
   * In a concatenation, the cell of frame `i`'s row `k` under its column `x`
   * (a frame without repeated names) is found at that row's place under the
   * first combined column bearing the same name.
   */
  lemma ConcatCellAt(fs: seq<Table>, i: nat, k: nat, x: nat)
    requires ConcatAll(fs).Ok? && i < |fs| && k < |fs[i].rows|
    requires Distinct(fs[i].cols) && |fs[i].rows[k]| == |fs[i].cols| && x < |fs[i].cols|
    ensures
      var s := ConcatAll(fs).value;
      && fs[i].cols[x] in s.cols
      && var j := IndexOf(s.cols, fs[i].cols[x]).value;
      && Offset(fs, i) + k < |s.rows| && j < |s.cols|
      && |s.rows[Offset(fs, i) + k]| == |s.cols|
      && s.rows[Offset(fs, i) + k][j] == fs[i].rows[k][x]
  {
    var s := ConcatAll(fs).value;
    var f := fs[i];
    assert s.cols == UnionAll(fs);
    assert f.cols[x] in fs[i].cols;
    assert f.cols[x] in s.cols;
    var j := IndexOf(s.cols, f.cols[x]).value;
    ConcatAllAt(fs, i, k);
    RealignByName(f.cols, f.rows[k], s.cols, j);
    LookupOwn(f.cols, f.rows[k], x);
    var row := s.rows[Offset(fs, i) + k];
    assert |row| == |s.cols|;
    assert row[j] == f.rows[k][x];
  }

  /** The tables of the first `n` results, or the first error met (a loop that appends each result or raises). */
  function Collect(rs: seq<Result<Table, Error>>, n: nat): Result<seq<Table>, Error>
    requires n <= |rs|
  {
    if n == 0 then Ok([])
    else
      match Collect(rs, n - 1)
      case Err(e) => Err(e)
      case Ok(frames) =>
        match rs[n - 1]
        case Err(e) => Err(e)
        case Ok(f) => Ok(frames + [f])
  }

  /** Once a result is an error, collecting further results keeps that error. */
  lemma {:induction false} CollectErr(rs: seq<Result<Table, Error>>, i: nat, n: nat, e: Error)
    requires i <= n <= |rs| && Collect(rs, i) == Err(e)
    ensures Collect(rs, n) == Err(e)
    decreases n - i
  {
    if i < n {
      CollectErr(rs, i, n - 1, e);
    }
  }

  /** Collecting succeeds exactly when every result does, and then keeps them in order. */
  lemma {:induction false} CollectOk(rs: seq<Result<Table, Error>>, n: nat)
    requires n <= |rs|
    ensures Collect(rs, n).Ok? <==> forall i :: 0 <= i < n ==> rs[i].Ok?
    ensures Collect(rs, n).Ok? ==>
      |Collect(rs, n).value| == n && forall i :: 0 <= i < n ==> rs[i] == Ok(Collect(rs, n).value[i])
  {
    if n > 0 {
      CollectOk(rs, n - 1);
    }
  }


  /** The combined columns begin with the columns of the first frame. */
  lemma {:induction false} UnionAllPrefix(frames: seq<Table>)
    requires |frames| > 0
    ensures |UnionAll(frames)| >= |frames[0].cols|
    ensures UnionAll(frames)[..|frames[0].cols|] == frames[0].cols
  {
    var init := frames[..|frames| - 1];
    if |frames| == 1 {
      assert init == [];
    } else {
      UnionAllPrefix(init);
      assert init[0] == frames[0];
    }
  }

  /**
   * `pd.concat([a, b])`, the two-frame case written out: the columns of `a`
   * then the new ones of `b`, and the rows of `a` then those of `b`, each laid
   * out under them.
   */
  function ConcatPair(a: Table, b: Table): Result<Table, Error>
  {
    var u := Union(a.cols, b.cols);
    var ra :- Aligned(a, u);
    var rb :- Aligned(b, u);
    Ok(Table(u, ra + rb))
  }

  /** The two-frame form is the general concatenation of a list of two frames. */
  lemma ConcatPairIsConcatAll(a: Table, b: Table)
    ensures ConcatPair(a, b) == ConcatAll([a, b])
  {
    var fs := [a, b];
    var u := Union(a.cols, b.cols);
    assert fs[..1] == [a] && [a][..0] == [];
    assert UnionAll([a]) == a.cols;
    assert UnionAll(fs) == u;
    assert StackRows([a], u) == (if Aligned(a, u).Ok? then Ok([] + Aligned(a, u).value) else Err(Aligned(a, u).error));
    if Aligned(a, u).Ok? {
      assert [] + Aligned(a, u).value == Aligned(a, u).value;
    }
  }

  /**
   * Two frames concatenate unless one with repeated column names has to be
   * realigned; the result has the rows of `a` and then those of `b`, each
   * laid out under the columns of either, and one cell per column in every
   * row when the frames have that too.
   */
  lemma ConcatPairSpec(a: Table, b: Table)
    ensures var u := Union(a.cols, b.cols);
      ConcatPair(a, b).Ok? <==> Alignable(a, u) && Alignable(b, u)
    ensures ConcatPair(a, b).Ok? ==>
      var out := ConcatPair(a, b).value;
      && out.cols == Union(a.cols, b.cols)
      && |out.rows| == |a.rows| + |b.rows|
      && out.rows[..|a.rows|] == Aligned(a, out.cols).value
      && out.rows[|a.rows|..] == Aligned(b, out.cols).value
      && (forall c :: c in out.cols <==> c in a.cols || c in b.cols)
      && (Rectangular(a) && Rectangular(b) ==> Rectangular(out))
  {
  }

  /** `pd.concat([pd.DataFrame(), df])` is `df`: the empty frame adds no column and no row. */
  lemma ConcatOntoEmpty(b: Table)
    ensures ConcatPair(Empty(), b) == Ok(b)
  {
    var e := Empty();
    assert Union(e.cols, b.cols) == b.cols;
    if e.cols != b.cols {
      var s: seq<Row> := seq(|e.rows|, k requires 0 <= k < |e.rows| => Reindex(e.cols, e.rows[k], b.cols));
      assert |s| == 0;
      assert Aligned(e, b.cols) == Ok(s);
    }
    assert Aligned(e, b.cols) == Ok([]);
    assert [] + b.rows == b.rows;
  }

  /** Two frames with the same column list concatenate by appending the rows of the second. */
  lemma ConcatSameColumns(a: Table, b: Table)
    requires a.cols == b.cols
    ensures ConcatPair(a, b) == Ok(Table(a.cols, a.rows + b.rows))
  {
    FreshCovered(a.cols, b.cols);
    assert Union(a.cols, b.cols) == a.cols;
  }

  /** One more result: an error ends the collection with that error, a table is appended. */
  lemma CollectNext(rs: seq<Result<Table, Error>>, i: nat, frames: seq<Table>)
    requires i < |rs| && Collect(rs, i) == Ok(frames)
    ensures rs[i].Err? ==> Collect(rs, |rs|) == Err(rs[i].error)
    ensures rs[i].Ok? ==> Collect(rs, i + 1) == Ok(frames + [rs[i].value])
  {
    if rs[i].Err? {
      CollectErr(rs, i + 1, |rs|, rs[i].error);
    }
  }

  /** `ConcatCellAt` with the row position, the column name and the cell given by the caller. */
  lemma ConcatCellOf(fs: seq<Table>, i: nat, k: nat, x: nat, pos: nat, name: string, cell: Cell)
    requires ConcatAll(fs).Ok? && i < |fs| && k < |fs[i].rows|
    requires Distinct(fs[i].cols) && |fs[i].rows[k]| == |fs[i].cols| && x < |fs[i].cols|
    requires pos == Offset(fs, i) + k && name == fs[i].cols[x] && cell == fs[i].rows[k][x]
    ensures var s := ConcatAll(fs).value;
      && name in s.cols && pos < |s.rows|
      && var j := IndexOf(s.cols, name).value;
      && j < |s.cols| && |s.rows[pos]| == |s.cols| && s.rows[pos][j] == cell
  {
    ConcatCellAt(fs, i, k, x);
  }

  /** Row labels (a frame's index) among which none occurs twice. */
  predicate UniqueLabels(ls: seq<int>)
  {
    forall i, j :: 0 <= i < j < |ls| ==> ls[i] != ls[j]
  }

  /** The labels `0 .. n - 1` (a RangeIndex). */
  function Range(n: nat): (ls: seq<int>)
    ensures |ls| == n && UniqueLabels(ls)
    ensures forall k :: 0 <= k < n ==> ls[k] == k
  {
    seq(n, k requires 0 <= k < n => k)
  }

  /** The position of the first occurrence of label `l`. */
  function LabelPos(ls: seq<int>, l: int): (p: nat)
    requires l in ls
    ensures p < |ls| && ls[p] == l
    ensures forall q :: 0 <= q < p ==> ls[q] != l
  {
    if ls[0] == l then 0 else 1 + LabelPos(ls[1..], l)
  }

  /** The labels of `la`, then those of `lb` that `la` lacks, in order (a union without sorting). */
  function LabelUnion(la: seq<int>, lb: seq<int>): (u: seq<int>)
    ensures forall l :: l in u <==> l in la || l in lb
    ensures |u| >= |la| && u[..|la|] == la
    ensures UniqueLabels(la) && UniqueLabels(lb) ==> UniqueLabels(u)
    decreases |lb|
  {
    if |lb| == 0 then la
    else if lb[0] in la then LabelUnion(la, lb[1..])
    else
      var u := LabelUnion(la + [lb[0]], lb[1..]);
      assert u[..|la|] == u[..|la| + 1][..|la|];
      u
  }

  /** The row of `t` labelled `l`, or a row of Missing cells when no row bears that label. */
  function LabelRow(t: Table, ls: seq<int>, l: int): Row
    requires |ls| == |t.rows|
  {
    if l in ls then t.rows[LabelPos(ls, l)] else Missings(|t.cols|)
  }

  /**
   * `pd.concat([a, b], axis=1)` for two frames of as many rows, `b` labelled
   * without repetition: the columns of `a` then those of `b`; the rows paired
   * by position when the labels agree, otherwise paired by label over the
   * union of the labels, which fails when a label of `a` repeats.
   */
  function ConcatColumnsByLabel(a: Table, la: seq<int>, b: Table, lb: seq<int>): (r: Result<Table, Error>)
    requires |la| == |a.rows| && |lb| == |b.rows| && |la| == |lb| && UniqueLabels(lb)
    ensures r.Ok? <==> la == lb || UniqueLabels(la)
    ensures r.Ok? ==> r.value.cols == a.cols + b.cols
  {
    if la == lb then Ok(Table(a.cols + b.cols, seq(|la|, k requires 0 <= k < |la| => a.rows[k] + b.rows[k])))
    else if !UniqueLabels(la) then Err(CannotAlign)
    else
      var u := LabelUnion(la, lb);
      Ok(Table(a.cols + b.cols, seq(|u|, k requires 0 <= k < |u| => LabelRow(a, la, u[k]) + LabelRow(b, lb, u[k]))))
  }

  /** The labels of a column-wise concatenation: `la` itself when both frames bear it, else the union. */
  function ResultLabels(la: seq<int>, lb: seq<int>): (ls: seq<int>)
    ensures forall l :: l in ls <==> l in la || l in lb
  {
    if la == lb then la else LabelUnion(la, lb)
  }

  /**
   * The rows of a label-aligned concatenation are the pairings by label: the
   * row bearing each label of either frame holds `a`'s row with that label
   * beside `b`'s (Missing cells standing in for a frame without it), also
   * when the labels agree and the rows were paired by position.
   */
  lemma ConcatColumnsByLabelRows(a: Table, la: seq<int>, b: Table, lb: seq<int>)
    requires |la| == |a.rows| && |lb| == |b.rows| && |la| == |lb| && UniqueLabels(lb)
    requires ConcatColumnsByLabel(a, la, b, lb).Ok?
    ensures var rows := ConcatColumnsByLabel(a, la, b, lb).value.rows;
      var ls := ResultLabels(la, lb);
      && |rows| == |ls|
      && UniqueLabels(ls)
      && forall k :: 0 <= k < |ls| ==> rows[k] == LabelRow(a, la, ls[k]) + LabelRow(b, lb, ls[k])
  {
    var rows := ConcatColumnsByLabel(a, la, b, lb).value.rows;
    if la == lb {
      forall k | 0 <= k < |la|
        ensures rows[k] == LabelRow(a, la, la[k]) + LabelRow(b, lb, la[k])
      {
        LabelPosOfUnique(la, k);
      }
    }
  }

  /** Two one-row frames with different labels: two rows, each frame's row beside Missing cells for the other. */
  lemma ConcatColumnsDisjointRows(a: Table, la: int, b: Table)
    requires |a.rows| == 1 && |b.rows| == 1 && la != 0
    ensures ConcatColumnsByLabel(a, [la], b, Range(1)).Ok?
    ensures ConcatColumnsByLabel(a, [la], b, Range(1)).value.rows ==
      [a.rows[0] + Missings(|b.cols|), Missings(|a.cols|) + b.rows[0]]
  {
    var lb := Range(1);
    assert lb == [0];
    assert LabelUnion([la], lb) == [la, 0] by {
      assert LabelUnion([la] + [0], []) == [la, 0];
    }
    ConcatColumnsByLabelRows(a, [la], b, lb);
  }

  /** In labels without repetition, the label at position `k` is found at `k`. */
  lemma LabelPosOfUnique(ls: seq<int>, k: nat)
    requires UniqueLabels(ls) && k < |ls|
    ensures LabelPos(ls, ls[k]) == k
  {
  }
}
