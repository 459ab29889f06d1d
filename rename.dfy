/** `replace_period`: every `.` in every column name becomes `_`. */
module Rename {
  import opened Tables

  /** `name.replace('.', '_')`. */
  function ReplaceDots(name: string): (r: string)
    ensures |r| == |name|
    ensures forall i :: 0 <= i < |name| ==> r[i] == if name[i] == '.' then '_' else name[i]
  {
    if |name| == 0 then ""
    else [if name[0] == '.' then '_' else name[0]] + ReplaceDots(name[1..])
  }

  /** A renamed name holds no `.`, and a name without `.` is left as it is. */
  lemma ReplaceDotsSpec(name: string)
    ensures '.' !in ReplaceDots(name)
    ensures ReplaceDots(name) == name <==> '.' !in name
    ensures ReplaceDots(ReplaceDots(name)) == ReplaceDots(name)
  {
    var r := ReplaceDots(name);
    assert forall i :: 0 <= i < |r| ==> r[i] != '.';
    if '.' in name {
      var i :| 0 <= i < |name| && name[i] == '.';
      assert r[i] != name[i];
    }
    assert ReplaceDots(r) == r;
  }

  /** `df.columns = df.columns.str.replace('.', '_', regex=False)`. */
  function ReplacePeriod(t: Table): (r: Table)
    ensures r.rows == t.rows
    ensures |r.cols| == |t.cols|
    ensures forall j :: 0 <= j < |t.cols| ==> r.cols[j] == ReplaceDots(t.cols[j])
  {
    Table(seq(|t.cols|, j requires 0 <= j < |t.cols| => ReplaceDots(t.cols[j])), t.rows)
  }

  /** No column name of the result holds a `.`. */
  predicate DotFree(t: Table)
  {
    forall j :: 0 <= j < |t.cols| ==> '.' !in t.cols[j]
  }

  /**
   * The renaming keeps the data, the number and order of the columns, clears
   * every `.` from the names, and doing it twice is the same as doing it once;
   * the new names are exactly the old ones renamed.
   */
  lemma ReplacePeriodSpec(t: Table)
    ensures ReplacePeriod(t).rows == t.rows
    ensures DotFree(ReplacePeriod(t))
    ensures ReplacePeriod(ReplacePeriod(t)) == ReplacePeriod(t)
    ensures DotFree(t) ==> ReplacePeriod(t) == t
    ensures Rectangular(t) ==> Rectangular(ReplacePeriod(t))
    ensures forall c :: c in ReplacePeriod(t).cols <==> exists n :: n in t.cols && c == ReplaceDots(n)
  {
    var r := ReplacePeriod(t);
    forall j | 0 <= j < |t.cols|
      ensures '.' !in r.cols[j]
      ensures ReplaceDots(r.cols[j]) == r.cols[j]
      ensures '.' !in t.cols[j] ==> r.cols[j] == t.cols[j]
    {
      ReplaceDotsSpec(t.cols[j]);
    }
    assert ReplacePeriod(r).cols == r.cols;
    assert DotFree(t) ==> r.cols == t.cols;
    ReplacePeriodNames(t);
  }

  /** The new names are exactly the old ones renamed. */
  lemma ReplacePeriodNames(t: Table)
    ensures forall c :: c in ReplacePeriod(t).cols <==> exists n :: n in t.cols && c == ReplaceDots(n)
  {
    var r := ReplacePeriod(t);
    forall c | c in r.cols
      ensures exists n :: n in t.cols && c == ReplaceDots(n)
    {
      var j :| 0 <= j < |r.cols| && r.cols[j] == c;
      assert t.cols[j] in t.cols;
    }
    forall c | (exists n :: n in t.cols && c == ReplaceDots(n))
      ensures c in r.cols
    {
      var n :| n in t.cols && c == ReplaceDots(n);
      var j :| 0 <= j < |t.cols| && t.cols[j] == n;
      assert r.cols[j] == c;
    }
  }
}
