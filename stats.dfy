/**
 * `get_df_stats_raw` (api_parser.py:72-92): the fixture ids are cut into
 * batches of 20, every batch's response is normalised, renamed and cut down
 * to six columns (`process_fixtures`), and the batch tables are folded, in
 * the order the batches complete, into an accumulator that starts as the
 * empty frame.  The completion order is an input: any permutation of the
 * batches.
 */
module Stats {
  import opened Wrappers
  import opened Json
  import opened Dicts
  import opened Tables
  import opened Normalize
  import opened Concat
  import opened Rename
  import opened Chunker

  /** The columns `process_fixtures` keeps, in this order. */
  const StatColumns: seq<string> := ["fixture_id", "fixture_date", "events", "lineups", "statistics", "players"]

  /** `process_fixtures` once its response has arrived: normalise, rename, select the six columns. */
  function ProcessFixtures(records: seq<Record>): Result<Table, Error>
  {
    Project(ReplacePeriod(JsonNormalize(records)), StatColumns)
  }

  /**
   * No two columns of the renamed batch share a name; a response holding both
   * a `fixture.id` leaf and a `fixture_id` key would break this.
   */
  predicate CleanBatch(records: seq<Record>)
  {
    Distinct(ReplacePeriod(JsonNormalize(records)).cols)
  }

  /**
   * A batch fails with a KeyError naming one of the six columns that the
   * renamed table lacks, and succeeds exactly when all six are there.  Its
   * table then has one row per record and exactly the six names as columns:
   * in the listed order and holding each record's cell under that name when
   * the batch is clean.
   */
  lemma ProcessFixturesSpec(records: seq<Record>)
    ensures var t := ReplacePeriod(JsonNormalize(records));
      ProcessFixtures(records).Ok? <==> forall q :: 0 <= q < |StatColumns| ==> StatColumns[q] in t.cols
    ensures var t := ReplacePeriod(JsonNormalize(records));
      ProcessFixtures(records).Err? ==>
        && ProcessFixtures(records).error.MissingColumn?
        && ProcessFixtures(records).error.name in StatColumns
        && ProcessFixtures(records).error.name !in t.cols
    ensures ProcessFixtures(records).Ok? ==>
      var p := ProcessFixtures(records).value;
      && |p.rows| == |records|
      && Rectangular(p)
      && (forall c :: c in p.cols <==> c in StatColumns)
    ensures ProcessFixtures(records).Ok? && CleanBatch(records) ==>
      var t := ReplacePeriod(JsonNormalize(records));
      var p := ProcessFixtures(records).value;
      && p.cols == StatColumns
      && |p.rows| == |t.rows|
      && (forall i :: 0 <= i < |p.rows| ==> |p.rows[i]| == |StatColumns|)
      && forall i, q :: 0 <= i < |p.rows| && 0 <= q < |StatColumns| ==>
        p.rows[i][q] == Lookup(t.cols, t.rows[i], StatColumns[q])
  {
    var t := ReplacePeriod(JsonNormalize(records));
    JsonNormalizeShape(records);
    ReplacePeriodSpec(JsonNormalize(records));
    ProjectSpec(t, StatColumns);
  }

  /** Every entry of `order` is the index of one of `m` batches. */
  predicate Within(order: seq<nat>, m: nat)
  {
    forall q :: 0 <= q < |order| ==> order[q] < m
  }

  /** `range(m)`: the batch indices in submission order. */
  function Indices(m: nat): (ix: seq<nat>)
    ensures |ix| == m
    ensures forall i :: 0 <= i < m ==> ix[i] == i
  {
    if m == 0 then [] else Indices(m - 1) + [m - 1]
  }

  /** `order` lists each of the `m` batch indices exactly once: an order in which the batches can complete. */
  predicate IsPermutation(order: seq<nat>, m: nat)
  {
    Within(order, m) && multiset(order) == multiset(Indices(m))
  }

  /** A list with the same elements as `range(m)` has `m` entries, all below `m`, and holds every index. */
  lemma MultisetBounds(order: seq<nat>, m: nat)
    requires multiset(order) == multiset(Indices(m))
    ensures |order| == m && Within(order, m)
    ensures forall k :: 0 <= k < m ==> k in order
  {
    var ix := Indices(m);
    assert |order| == |multiset(order)| == |multiset(ix)| == m;
    forall q | 0 <= q < |order|
      ensures order[q] < m
    {
      assert order[q] in multiset(ix);
    }
    forall k | 0 <= k < m
      ensures k in order
    {
      assert ix[k] == k;
      assert k in multiset(ix);
    }
  }

  /** Where an index sits in a list that holds it. */
  lemma PositionOf(order: seq<nat>, k: nat) returns (q: nat)
    requires k in order
    ensures q < |order| && order[q] == k
  {
    q :| 0 <= q < |order| && order[q] == k;
  }

  /**
   * What the accumulation loop produces from the accumulator `acc` with the
   * batches `order[i..]` still to be taken: each batch's error is raised as it
   * is taken, otherwise the batch is concatenated onto the accumulator.
   */
  function FoldFrom(acc: Table, results: seq<Result<Table, Error>>, order: seq<nat>, i: nat): Result<Table, Error>
    requires i <= |order| && Within(order, |results|)
    decreases |order| - i
  {
    if i == |order| then Ok(acc)
    else
      var batch :- results[order[i]];
      var next :- ConcatPair(acc, batch);
      FoldFrom(next, results, order, i + 1)
  }

  /** The rows of a batch table; a failed batch has none. */
  function BatchRows(r: Result<Table, Error>): seq<Row>
  {
    if r.Ok? then r.value.rows else []
  }

  /** The rows of the batches listed in `idx`, batch after batch. */
  function RowsOf(results: seq<Result<Table, Error>>, idx: seq<nat>): seq<Row>
    requires Within(idx, |results|)
  {
    if |idx| == 0 then [] else BatchRows(results[idx[0]]) + RowsOf(results, idx[1..])
  }

  lemma {:induction false} RowsOfAppend(results: seq<Result<Table, Error>>, a: seq<nat>, b: seq<nat>)
    requires Within(a, |results|) && Within(b, |results|)
    ensures RowsOf(results, a + b) == RowsOf(results, a) + RowsOf(results, b)
  {
    if |a| == 0 {
      assert a + b == b;
    } else {
      RowsOfAppend(results, a[1..], b);
      assert (a + b)[1..] == a[1..] + b;
    }
  }

  /** The rows of a single batch. */
  lemma RowsOfOne(results: seq<Result<Table, Error>>, k: nat)
    requires k < |results|
    ensures RowsOf(results, [k]) == BatchRows(results[k])
  {
    assert [k][1..] == [];
  }

  /** Taking out the entry `x` at `p` leaves the other elements. */
  lemma RemoveAt(s: seq<nat>, p: nat, others: multiset<nat>, x: nat)
    requires p < |s| && s[p] == x && multiset(s) == others + multiset{x}
    ensures multiset(s[..p] + s[p + 1..]) == others
  {
    var front, back := s[..p], s[p + 1..];
    assert s == front + [x] + back;
    assert multiset(s) == multiset(front + back) + multiset{x};
    Cancel(multiset(front + back), others, x);
  }

  lemma Cancel<T>(a: multiset<T>, b: multiset<T>, x: T)
    requires a + multiset{x} == b + multiset{x}
    ensures a == b
  {
    forall o
      ensures a[o] == b[o]
    {
      assert (a + multiset{x})[o] == (b + multiset{x})[o];
    }
  }

  /**
   * A permutation of `range(m)` holds the last index somewhere, and without it
   * is a permutation of `range(m - 1)`.
   */
  lemma PermutationSplit(order: seq<nat>, m: nat) returns (p: nat)
    requires m > 0 && IsPermutation(order, m)
    ensures p < |order| && order[p] == m - 1
    ensures IsPermutation(order[..p] + order[p + 1..], m - 1)
  {
    var last: nat := m - 1;
    var ix := Indices(m);
    assert ix == Indices(last) + [last];
    assert last in multiset(order) by {
      assert ix[last] == last;
      assert last in multiset(ix);
    }
    p :| 0 <= p < |order| && order[p] == last;
    RemoveAt(order, p, multiset(Indices(last)), last);
    MultisetBounds(order[..p] + order[p + 1..], last);
  }

  /** Taking one batch out of a list takes its rows out of the rows listed. */
  lemma RowsOfRemoved(results: seq<Result<Table, Error>>, order: seq<nat>, p: nat)
    requires Within(order, |results|) && p < |order|
    ensures multiset(RowsOf(results, order)) ==
      multiset(RowsOf(results, order[..p] + order[p + 1..])) + multiset(BatchRows(results[order[p]]))
  {
    var front, back := order[..p], order[p + 1..];
    var x := order[p];
    assert order == front + ([x] + back);
    RowsOfOne(results, x);
    RowsOfAppend(results, [x], back);
    RowsOfAppend(results, front, [x] + back);
    RowsOfAppend(results, front, back);
  }

  /** The rows of the first `m` batches are those of the first `m - 1` and then batch `m - 1`'s. */
  lemma RowsOfIndicesLast(results: seq<Result<Table, Error>>, m: nat)
    requires 0 < m <= |results|
    ensures RowsOf(results, Indices(m)) == RowsOf(results, Indices(m - 1)) + BatchRows(results[m - 1])
  {
    RowsOfOne(results, m - 1);
    RowsOfAppend(results, Indices(m - 1), [m - 1]);
  }

  /**
   * The rows of all batches taken in any completion order are those taken in
   * submission order, rearranged.
   */
  lemma {:induction false} RowsOfPermutation(results: seq<Result<Table, Error>>, order: seq<nat>, m: nat)
    requires m <= |results| && IsPermutation(order, m)
    ensures multiset(RowsOf(results, order)) == multiset(RowsOf(results, Indices(m)))
  {
    if m == 0 {
      MultisetBounds(order, m);
      assert order == [] && Indices(m) == [];
    } else {
      var p := PermutationSplit(order, m);
      RowsOfRemoved(results, order, p);
      RowsOfIndicesLast(results, m);
      RowsOfPermutation(results, order[..p] + order[p + 1..], m - 1);
    }
  }

  /** Some successful batch listed in `idx` has a column named `c`. */
  predicate InSomeBatch(results: seq<Result<Table, Error>>, idx: seq<nat>, c: string)
    requires Within(idx, |results|)
  {
    exists q :: 0 <= q < |idx| && results[idx[q]].Ok? && c in results[idx[q]].value.cols
  }

  /** Every successful batch has one cell per column in each row. */
  predicate BatchesRectangular(results: seq<Result<Table, Error>>)
  {
    forall k :: 0 <= k < |results| && results[k].Ok? ==> Rectangular(results[k].value)
  }

  /**
   * While the loop succeeds, every batch it takes succeeds; the rows it ends
   * with are the accumulator's and the batches' together, its column set the
   * union of theirs, and its rows have one cell per column when theirs do.
   */
  lemma {:induction false} FoldShape(acc: Table, results: seq<Result<Table, Error>>, order: seq<nat>, i: nat)
    requires i <= |order| && Within(order, |results|)
    ensures FoldFrom(acc, results, order, i).Ok? ==>
      var out := FoldFrom(acc, results, order, i).value;
      && (forall q :: i <= q < |order| ==> results[order[q]].Ok?)
      && |out.rows| == |acc.rows| + |RowsOf(results, order[i..])|
      && (forall c :: c in out.cols <==> (c in acc.cols || InSomeBatch(results, order[i..], c)))
      && (Rectangular(acc) && BatchesRectangular(results) ==> Rectangular(out))
    decreases |order| - i
  {
    if i < |order| && FoldFrom(acc, results, order, i).Ok? {
      var b := results[order[i]].value;
      var next := ConcatPair(acc, b).value;
      assert FoldFrom(acc, results, order, i) == FoldFrom(next, results, order, i + 1);
      ConcatPairSpec(acc, b);
      FoldShape(next, results, order, i + 1);
      FoldStep(results, order, i);
    }
  }

  /** Taking the batch at position `i` first splits the rows and the columns of positions `i..` accordingly. */
  lemma FoldStep(results: seq<Result<Table, Error>>, order: seq<nat>, i: nat)
    requires i < |order| && Within(order, |results|) && results[order[i]].Ok?
    ensures RowsOf(results, order[i..]) == results[order[i]].value.rows + RowsOf(results, order[i + 1..])
    ensures forall c :: InSomeBatch(results, order[i..], c) <==>
      (c in results[order[i]].value.cols || InSomeBatch(results, order[i + 1..], c))
  {
    var rest, later := order[i..], order[i + 1..];
    assert rest[1..] == later;
    forall c
      ensures InSomeBatch(results, rest, c) <==> c in results[order[i]].value.cols || InSomeBatch(results, later, c)
    {
      if InSomeBatch(results, later, c) {
        var q :| 0 <= q < |later| && results[later[q]].Ok? && c in results[later[q]].value.cols;
        assert rest[q + 1] == later[q];
      }
      if InSomeBatch(results, rest, c) && c !in results[order[i]].value.cols {
        var q :| 0 <= q < |rest| && results[rest[q]].Ok? && c in results[rest[q]].value.cols;
        assert q > 0 && later[q - 1] == rest[q];
      }
      if c in results[order[i]].value.cols {
        assert results[rest[0]].Ok? && c in results[rest[0]].value.cols;
      }
    }
  }

  /**
   * When every batch succeeds with the accumulator's columns, the loop never
   * fails: it ends with those columns and the batches' rows appended in the
   * order they are taken.
   */
  lemma {:induction false} FoldSameColumns(acc: Table, results: seq<Result<Table, Error>>, order: seq<nat>, i: nat)
    requires i <= |order| && Within(order, |results|)
    requires forall k :: 0 <= k < |results| ==> results[k].Ok? && results[k].value.cols == acc.cols
    ensures FoldFrom(acc, results, order, i) == Ok(Table(acc.cols, acc.rows + RowsOf(results, order[i..])))
    decreases |order| - i
  {
    if i < |order| {
      var b := results[order[i]].value;
      ConcatSameColumns(acc, b);
      var next := Table(acc.cols, acc.rows + b.rows);
      FoldSameColumns(next, results, order, i + 1);
      assert order[i..][1..] == order[i + 1..];
      assert next.rows + RowsOf(results, order[i + 1..]) == acc.rows + RowsOf(results, order[i..]);
    } else {
      assert acc.rows + [] == acc.rows;
    }
  }

  /** With one entry per record list, the rows of the first `n` batches number as many as their records. */
  lemma {:induction false} RowsOfCount(results: seq<Result<Table, Error>>, fetched: seq<seq<Record>>, n: nat)
    requires n <= |results| == |fetched|
    requires forall k :: 0 <= k < |results| ==> |BatchRows(results[k])| == |fetched[k]|
    ensures |RowsOf(results, Indices(n))| == RecordCount(fetched[..n])
  {
    if n > 0 {
      RowsOfCount(results, fetched, n - 1);
      RowsOfAppend(results, Indices(n - 1), [n - 1]);
      RowsOfOne(results, n - 1);
      assert fetched[..n][..n - 1] == fetched[..n - 1];
    }
  }

  /**
   * From the empty frame, with all `m` batches taken in any completion order:
   * on success every batch succeeded, the rows are as many as all batches
   * hold, the column set is the union of theirs, and the rows have one cell
   * per column when theirs do.
   */
  lemma FoldAll(results: seq<Result<Table, Error>>, order: seq<nat>)
    requires IsPermutation(order, |results|)
    ensures FoldFrom(Empty(), results, order, 0).Ok? ==>
      var out := FoldFrom(Empty(), results, order, 0).value;
      && (forall k :: 0 <= k < |results| ==> results[k].Ok?)
      && |out.rows| == |RowsOf(results, Indices(|results|))|
      && (forall c :: c in out.cols <==> exists k :: 0 <= k < |results| && results[k].Ok? && c in results[k].value.cols)
      && (BatchesRectangular(results) ==> Rectangular(out))
  {
    FoldShape(Empty(), results, order, 0);
    assert order[0..] == order;
    if FoldFrom(Empty(), results, order, 0).Ok? {
      TakenInAnyOrder(results, order);
      assert Rectangular(Empty());
    }
  }

  /**
   * Positions that list every batch once: all of them succeed when the listed
   * ones do, a column occurs in a listed batch exactly when it occurs in some
   * batch, and the listed batches hold as many rows as all batches in index order.
   */
  lemma TakenInAnyOrder(results: seq<Result<Table, Error>>, order: seq<nat>)
    requires IsPermutation(order, |results|)
    ensures (forall q :: 0 <= q < |order| ==> results[order[q]].Ok?) ==> forall k :: 0 <= k < |results| ==> results[k].Ok?
    ensures forall c :: InSomeBatch(results, order, c) <==>
      exists k :: 0 <= k < |results| && results[k].Ok? && c in results[k].value.cols
    ensures |RowsOf(results, order)| == |RowsOf(results, Indices(|results|))|
  {
    var m := |results|;
    MultisetBounds(order, m);
    if forall q :: 0 <= q < |order| ==> results[order[q]].Ok? {
      forall k | 0 <= k < m
        ensures results[k].Ok?
      {
        var q := PositionOf(order, k);
      }
    }
    forall c
      ensures InSomeBatch(results, order, c) <==> exists k :: 0 <= k < m && results[k].Ok? && c in results[k].value.cols
    {
      if exists k :: 0 <= k < m && results[k].Ok? && c in results[k].value.cols {
        var k :| 0 <= k < m && results[k].Ok? && c in results[k].value.cols;
        var q := PositionOf(order, k);
        assert results[order[q]].Ok? && c in results[order[q]].value.cols;
      }
    }
    RowsOfPermutation(results, order, m);
    assert |RowsOf(results, order)| == |multiset(RowsOf(results, order))|;
    assert |RowsOf(results, Indices(m))| == |multiset(RowsOf(results, Indices(m)))|;
  }

  /**
   * From the empty frame, when every batch succeeds with the same columns, the
   * loop succeeds with those columns (none when there is no batch) and, up to
   * their order, the rows of all batches.
   */
  lemma FoldAllSame(results: seq<Result<Table, Error>>, order: seq<nat>, cols: seq<string>)
    requires IsPermutation(order, |results|)
    requires forall k :: 0 <= k < |results| ==> results[k].Ok? && results[k].value.cols == cols
    ensures FoldFrom(Empty(), results, order, 0).Ok?
    ensures FoldFrom(Empty(), results, order, 0).value.cols == if |results| == 0 then [] else cols
    ensures multiset(FoldFrom(Empty(), results, order, 0).value.rows) == multiset(RowsOf(results, Indices(|results|)))
  {
    var m := |results|;
    MultisetBounds(order, m);
    RowsOfPermutation(results, order, m);
    if m == 0 {
      assert order == [];
    } else {
      var b := results[order[0]].value;
      ConcatOntoEmpty(b);
      assert FoldFrom(Empty(), results, order, 0) == FoldFrom(b, results, order, 1);
      FoldSameColumns(b, results, order, 1);
      assert RowsOf(results, order) == b.rows + RowsOf(results, order[1..]);
    }
  }

  /** The submitted batches: `process_fixtures` on the response to each query value. */
  function Batches(queries: seq<string>, fetch: string -> seq<Record>): (rs: seq<Result<Table, Error>>)
    ensures |rs| == |queries|
  {
    seq(|queries|, k requires 0 <= k < |queries| => ProcessFixtures(fetch(queries[k])))
  }

  /** The records each query value's response holds. */
  function Fetched(queries: seq<string>, fetch: string -> seq<Record>): (rs: seq<seq<Record>>)
    ensures |rs| == |queries|
  {
    seq(|queries|, k requires 0 <= k < |queries| => fetch(queries[k]))
  }

  /**
   * `get_df_stats_raw` with the responses given by `fetch` and the batches
   * completing in `order`.
   */
  function StatsRaw(ids: seq<int>, fetch: string -> seq<Record>, order: seq<nat>): Result<Table, Error>
    requires Within(order, |BreakdownList(ids)|)
  {
    FoldFrom(Empty(), Batches(BreakdownList(ids), fetch), order, 0)
  }

  /** Each batch that succeeds has one row per record it fetched and one cell per column in each row. */
  lemma BatchesShape(queries: seq<string>, fetch: string -> seq<Record>)
    ensures forall k :: 0 <= k < |queries| && Batches(queries, fetch)[k].Ok? ==>
      |BatchRows(Batches(queries, fetch)[k])| == |Fetched(queries, fetch)[k]|
    ensures BatchesRectangular(Batches(queries, fetch))
  {
    forall k | 0 <= k < |queries| && Batches(queries, fetch)[k].Ok?
      ensures |BatchRows(Batches(queries, fetch)[k])| == |Fetched(queries, fetch)[k]|
      ensures Rectangular(Batches(queries, fetch)[k].value)
    {
      ProcessFixturesSpec(fetch(queries[k]));
    }
  }

  /** Clean batches that succeed all have the six columns, in the listed order. */
  lemma CleanBatchColumns(queries: seq<string>, fetch: string -> seq<Record>)
    requires forall k :: 0 <= k < |queries| ==> Batches(queries, fetch)[k].Ok? && CleanBatch(fetch(queries[k]))
    ensures forall k :: 0 <= k < |queries| ==> Batches(queries, fetch)[k].value.cols == StatColumns
  {
    forall k | 0 <= k < |queries|
      ensures Batches(queries, fetch)[k].value.cols == StatColumns
    {
      ProcessFixturesSpec(fetch(queries[k]));
    }
  }

  /**
   * Without fixture ids the result is the empty frame.  On success every batch
   * succeeded, the rows number as many as the records fetched, the column set
   * is the union of the batches' column sets, and every row has one cell per
   * column.
   */
  lemma StatsRawSpec(ids: seq<int>, fetch: string -> seq<Record>, order: seq<nat>)
    requires IsPermutation(order, |BreakdownList(ids)|)
    ensures |ids| == 0 ==> StatsRaw(ids, fetch, order) == Ok(Empty())
    ensures StatsRaw(ids, fetch, order).Ok? ==>
      var qs := BreakdownList(ids);
      var rs := Batches(qs, fetch);
      var out := StatsRaw(ids, fetch, order).value;
      && (forall k :: 0 <= k < |rs| ==> rs[k].Ok?)
      && |out.rows| == RecordCount(Fetched(qs, fetch))
      && (forall c :: c in out.cols <==> exists k :: 0 <= k < |rs| && rs[k].Ok? && c in rs[k].value.cols)
      && Rectangular(out)
  {
    var qs := BreakdownList(ids);
    var rs := Batches(qs, fetch);
    var m := |qs|;
    FoldAll(rs, order);
    if StatsRaw(ids, fetch, order).Ok? {
      BatchesShape(qs, fetch);
      RowsOfCount(rs, Fetched(qs, fetch), m);
      assert Fetched(qs, fetch)[..m] == Fetched(qs, fetch);
    }
    if |ids| == 0 {
      MultisetBounds(order, m);
      assert order == [];
    }
  }

  /**
   * When every batch succeeds without repeated column names, the loop
   * succeeds with exactly the six columns (none without fixture ids) and, up to
   * their order, the rows of the batches in submission order.
   */
  lemma StatsRawClean(ids: seq<int>, fetch: string -> seq<Record>, order: seq<nat>)
    requires IsPermutation(order, |BreakdownList(ids)|)
    ensures
      var qs := BreakdownList(ids);
      var rs := Batches(qs, fetch);
      (forall k :: 0 <= k < |qs| ==> rs[k].Ok? && CleanBatch(fetch(qs[k]))) ==>
        && StatsRaw(ids, fetch, order).Ok?
        && StatsRaw(ids, fetch, order).value.cols == (if |ids| == 0 then [] else StatColumns)
        && multiset(StatsRaw(ids, fetch, order).value.rows) == multiset(RowsOf(rs, Indices(|qs|)))
  {
    var qs := BreakdownList(ids);
    var rs := Batches(qs, fetch);
    if forall k :: 0 <= k < |qs| ==> rs[k].Ok? && CleanBatch(fetch(qs[k])) {
      CleanBatchColumns(qs, fetch);
      FoldAllSame(rs, order, StatColumns);
    }
  }

  /**
   * The completion order does not matter to what survives of the result: any
   * two orders give the same column set and row count when both succeed, and
   * with clean batches the same columns and the same rows up to their order.
   */
  lemma StatsRawOrderFree(ids: seq<int>, fetch: string -> seq<Record>, o1: seq<nat>, o2: seq<nat>)
    requires IsPermutation(o1, |BreakdownList(ids)|) && IsPermutation(o2, |BreakdownList(ids)|)
    ensures StatsRaw(ids, fetch, o1).Ok? && StatsRaw(ids, fetch, o2).Ok? ==>
      var a := StatsRaw(ids, fetch, o1).value;
      var b := StatsRaw(ids, fetch, o2).value;
      && (forall c :: c in a.cols <==> c in b.cols)
      && |a.rows| == |b.rows|
    ensures
      var qs := BreakdownList(ids);
      (forall k :: 0 <= k < |qs| ==> Batches(qs, fetch)[k].Ok? && CleanBatch(fetch(qs[k]))) ==>
        && StatsRaw(ids, fetch, o1).Ok? && StatsRaw(ids, fetch, o2).Ok?
        && StatsRaw(ids, fetch, o1).value.cols == StatsRaw(ids, fetch, o2).value.cols
        && multiset(StatsRaw(ids, fetch, o1).value.rows) == multiset(StatsRaw(ids, fetch, o2).value.rows)
  {
    StatsRawSpec(ids, fetch, o1);
    StatsRawSpec(ids, fetch, o2);
    StatsRawClean(ids, fetch, o1);
    StatsRawClean(ids, fetch, o2);
  }

  /**
   * `get_df_stats_raw`: the batches are submitted in breakdown order and
   * taken in completion order, each concatenated onto `df_stats`, which
   * starts as the empty frame; a batch's error is raised when it is taken.
   */
  method GetDfStatsRaw(ids: seq<int>, fetch: string -> seq<Record>, order: seq<nat>) returns (r: Result<Table, Error>)
    requires IsPermutation(order, |BreakdownList(ids)|)
    ensures r == StatsRaw(ids, fetch, order)
  {
    var breakdown := BreakdownList(ids);
    var results := Batches(breakdown, fetch);
    var stats := Empty();
    var i := 0;
    while i < |order|
      invariant 0 <= i <= |order|
      invariant FoldFrom(stats, results, order, i) == StatsRaw(ids, fetch, order)
    {
      var batch := results[order[i]];
      if batch.Err? {
        return Err(batch.error);
      }
      var next := ConcatPair(stats, batch.value);
      if next.Err? {
        return Err(next.error);
      }
      stats := next.value;
      i := i + 1;
    }
    r := Ok(stats);
  }
}
