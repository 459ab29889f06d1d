/**
 * The flattening `pd.json_normalize` performs on a list of decoded records
 * (api_parser.py, `get_response_df` and `json_decomposer`): nested objects are
 * walked and each leaf becomes one column named by its key path joined with
 * `.`; a list is a leaf, kept whole in one cell.
 */
module Normalize {
  import opened Wrappers
  import opened Json
  import opened Dicts
  import opened Tables

  /** The column name of `key` under the path `prefix`; a nameless prefix adds no separator. */
  function JoinPath(prefix: string, key: string): string
  {
    if prefix == "" then key else prefix + "." + key
  }

  /** The column name a key path through nested objects turns into. */
  function DottedPath(prefix: string, path: seq<string>): string
    decreases |path|
  {
    if |path| == 0 then prefix else DottedPath(JoinPath(prefix, path[0]), path[1..])
  }

  /** Scalars and lists end the walk; only objects are entered. */
  predicate IsLeaf(v: Value)
  {
    !v.Obj?
  }

  /** The (column, value) pairs the walk emits for `v` found under the column name `path`. */
  function ValueLeaves(v: Value, path: string): (leaves: seq<(string, Value)>)
    ensures forall x :: x in leaves ==> IsLeaf(x.1)
    decreases v, 1
  {
    match v
    case Obj(_) => FieldLeaves(v, 0, path)
    case _ => [(path, v)]
  }

  /** The pairs the walk emits for the fields of object `o` from index `i` on. */
  function FieldLeaves(o: Value, i: nat, prefix: string): (leaves: seq<(string, Value)>)
    requires o.Obj? && i <= |o.fields|
    ensures forall x :: x in leaves ==> IsLeaf(x.1)
    decreases o, 0, |o.fields| - i
  {
    if i == |o.fields| then []
    else ValueLeaves(o.fields[i].1, JoinPath(prefix, o.fields[i].0)) + FieldLeaves(o, i + 1, prefix)
  }

  /** The fields of a record that are not objects. */
  function TopLevel(rec: Record): (r: Record)
    ensures forall x :: x in r <==> x in rec && IsLeaf(x.1)
  {
    if |rec| == 0 then []
    else (if IsLeaf(rec[0].1) then [rec[0]] else []) + TopLevel(rec[1..])
  }

  /** The fields of a record that are objects. */
  function Nested(rec: Record): (r: Record)
    ensures forall x :: x in r <==> x in rec && !IsLeaf(x.1)
  {
    if |rec| == 0 then []
    else (if IsLeaf(rec[0].1) then [] else [rec[0]]) + Nested(rec[1..])
  }

  /** Every leaf of a record with its column name: the top-level leaves first, then the nested ones. */
  function LeafPairs(rec: Record): seq<(string, Value)>
  {
    TopLevel(rec) + FieldLeaves(Obj(Nested(rec)), 0, "")
  }

  /** A flat row: distinct column names, no object left in a cell. */
  predicate Flat(row: seq<(string, Value)>)
  {
    Distinct(Keys(row)) && forall x :: x in row ==> IsLeaf(x.1)
  }

  lemma KeysAppend<V>(a: seq<(string, V)>, b: seq<(string, V)>)
    ensures Keys(a + b) == Keys(a) + Keys(b)
  {
  }

  /**
   * One record as one flat row: the dict of top-level leaves updated with the
   * dict the nested walk fills.  Its columns are exactly the leaf paths.
   */
  function FlattenRecord(rec: Record): (row: seq<(string, Value)>)
    ensures Flat(row)
    ensures forall c :: c in Keys(row) <==> c in Keys(LeafPairs(rec))
    ensures forall x :: x in row ==> x in LeafPairs(rec)
  {
    var top := Build(TopLevel(rec));
    var nested := Build(FieldLeaves(Obj(Nested(rec)), 0, ""));
    KeysAppend(top, nested);
    KeysAppend(TopLevel(rec), FieldLeaves(Obj(Nested(rec)), 0, ""));
    Build(top + nested)
  }

  lemma {:induction false} TopLevelOfFlat(row: seq<(string, Value)>)
    requires forall x :: x in row ==> IsLeaf(x.1)
    ensures TopLevel(row) == row
    ensures Nested(row) == []
  {
    if |row| > 0 {
      assert row[0] in row;
      TopLevelOfFlat(row[1..]);
    }
  }

  /** Flattening a row that is already flat (a depth-one record) changes nothing. */
  lemma FlatIsFixed(row: seq<(string, Value)>)
    requires Flat(row)
    ensures FlattenRecord(row) == row
  {
    TopLevelOfFlat(row);
    BuildOfDistinct(row);
    var empty: seq<(string, Value)> := [];
    assert FieldLeaves(Obj(empty), 0, "") == [];
    assert row + empty == row;
  }

  /** Flattening is idempotent. */
  lemma FlattenIdempotent(rec: Record)
    ensures FlattenRecord(FlattenRecord(rec)) == FlattenRecord(rec)
  {
    FlatIsFixed(FlattenRecord(rec));
  }

  /** When no two leaves share a column name, the row holds exactly one column per leaf, in walk order. */
  lemma FlattenExact(rec: Record)
    requires Distinct(Keys(LeafPairs(rec)))
    ensures FlattenRecord(rec) == LeafPairs(rec)
  {
    var a := TopLevel(rec);
    var b := FieldLeaves(Obj(Nested(rec)), 0, "");
    KeysAppend(a, b);
    assert Keys(a) == Keys(a + b)[..|a|];
    assert Keys(b) == Keys(a + b)[|a|..];
    BuildOfDistinct(a);
    BuildOfDistinct(b);
    BuildOfDistinct(a + b);
  }

  lemma {:induction false} FieldLeavesContain(o: Value, i: nat, prefix: string, j: nat, x: (string, Value))
    requires o.Obj? && i <= j < |o.fields|
    requires x in ValueLeaves(o.fields[j].1, JoinPath(prefix, o.fields[j].0))
    ensures x in FieldLeaves(o, i, prefix)
    decreases j - i
  {
    if i < j {
      FieldLeavesContain(o, i + 1, prefix, j, x);
    }
  }

  lemma {:induction false} FindIndex(fields: seq<(string, Value)>, key: string)
    requires Find(fields, key).Some?
    ensures exists j :: 0 <= j < |fields| && fields[j] == (key, Find(fields, key).value)
  {
    if fields[0].0 != key {
      FindIndex(fields[1..], key);
      var j :| 0 <= j < |fields[1..]| && fields[1..][j] == (key, Find(fields, key).value);
      assert fields[j + 1] == fields[1..][j];
    }
  }

  lemma {:induction false} LeafAtPath(v: Value, prefix: string, path: seq<string>, leaf: Value)
    requires At(v, path) == Some(leaf) && IsLeaf(leaf)
    ensures (DottedPath(prefix, path), leaf) in ValueLeaves(v, prefix)
    decreases |path|
  {
    if |path| > 0 {
      var child := Find(v.fields, path[0]).value;
      FindIndex(v.fields, path[0]);
      var j :| 0 <= j < |v.fields| && v.fields[j] == (path[0], child);
      LeafAtPath(child, JoinPath(prefix, path[0]), path[1..], leaf);
      FieldLeavesContain(v, 0, prefix, j, (DottedPath(prefix, path), leaf));
    }
  }

  lemma LeafInPairs(rec: Record, path: seq<string>, leaf: Value)
    requires |path| > 0 && At(Obj(rec), path) == Some(leaf) && IsLeaf(leaf)
    ensures (DottedPath("", path), leaf) in LeafPairs(rec)
  {
    var child := Find(rec, path[0]).value;
    assert At(child, path[1..]) == Some(leaf);
    FindIndex(rec, path[0]);
    assert (path[0], child) in rec;
    if |path| == 1 {
      assert DottedPath("", path) == path[0];
      assert (path[0], child) in TopLevel(rec);
    } else {
      assert path == [path[0]] + path[1..];
      NestedLeafInPairs(rec, path[0], child, path[1..], leaf);
    }
  }

  lemma NestedLeafInPairs(rec: Record, key: string, child: Value, rest: seq<string>, leaf: Value)
    requires (key, child) in rec && |rest| > 0
    requires At(child, rest) == Some(leaf) && IsLeaf(leaf)
    ensures (DottedPath("", [key] + rest), leaf) in LeafPairs(rec)
  {
    var x := (DottedPath("", [key] + rest), leaf);
    assert ([key] + rest)[1..] == rest;
    assert DottedPath("", [key] + rest) == DottedPath(JoinPath("", key), rest);
    var nested := Nested(rec);
    assert (key, child) in nested;
    var j :| 0 <= j < |nested| && nested[j] == (key, child);
    LeafAtPath(child, JoinPath("", key), rest, leaf);
    FieldLeavesContain(Obj(nested), 0, "", j, x);
  }

  /**
   * Every leaf reached by a key path becomes a column named by the path joined
   * with `.`; a list is such a leaf and stays whole.  When no two leaves share a
   * column name, the flat row holds exactly that value there.
   */
  lemma LeafBecomesColumn(rec: Record, path: seq<string>, leaf: Value)
    requires |path| > 0 && At(Obj(rec), path) == Some(leaf) && IsLeaf(leaf)
    ensures (DottedPath("", path), leaf) in LeafPairs(rec)
    ensures DottedPath("", path) in Keys(FlattenRecord(rec))
    ensures Distinct(Keys(LeafPairs(rec))) ==> (DottedPath("", path), leaf) in FlattenRecord(rec)
  {
    var x := (DottedPath("", path), leaf);
    LeafInPairs(rec, path, leaf);
    var pairs := LeafPairs(rec);
    var k :| 0 <= k < |pairs| && pairs[k] == x;
    assert Keys(pairs)[k] == x.0;
    if Distinct(Keys(pairs)) {
      FlattenExact(rec);
    }
  }

  /** A decoded JSON document: no object in it repeats a key, as no Python dict does. */
  predicate NoRepeatedKeys(v: Value)
    decreases v
  {
    match v
    case Obj(fields) =>
      && Distinct(Keys(fields))
      && forall j :: 0 <= j < |fields| ==> NoRepeatedKeys(fields[j].1)
    case _ => true
  }

  /** In an object without repeated keys, `d[key]` finds the value paired with that key. */
  lemma FindMember(fields: seq<(string, Value)>, key: string, v: Value)
    requires Distinct(Keys(fields)) && (key, v) in fields
    ensures Find(fields, key) == Some(v)
  {
    var j :| 0 <= j < |fields| && fields[j] == (key, v);
    var w := Find(fields, key).value;
    FindIndex(fields, key);
    var q :| 0 <= q < |fields| && fields[q] == (key, w);
    assert Keys(fields)[q] == Keys(fields)[j];
  }

  /** A pair the walk emits for `v` is a leaf reached from `v` by a key path that names it. */
  lemma {:induction false} ValueLeafPath(v: Value, path: string, x: (string, Value)) returns (p: seq<string>)
    requires NoRepeatedKeys(v) && x in ValueLeaves(v, path)
    ensures DottedPath(path, p) == x.0 && At(v, p) == Some(x.1)
    decreases v, 1
  {
    match v
    case Obj(fields) =>
      var j, rest := FieldLeafPath(v, 0, path, x);
      var key := fields[j].0;
      p := [key] + rest;
      assert p[1..] == rest;
      FindMember(fields, key, fields[j].1);
    case _ =>
      p := [];
  }

  /** A pair the walk emits for the fields of `o` from `i` on comes from one field `j` by a key path. */
  lemma {:induction false} FieldLeafPath(o: Value, i: nat, prefix: string, x: (string, Value)) returns (j: nat, p: seq<string>)
    requires o.Obj? && i <= |o.fields| && x in FieldLeaves(o, i, prefix)
    requires forall q :: 0 <= q < |o.fields| ==> NoRepeatedKeys(o.fields[q].1)
    ensures i <= j < |o.fields|
    ensures DottedPath(JoinPath(prefix, o.fields[j].0), p) == x.0 && At(o.fields[j].1, p) == Some(x.1)
    decreases o, 0, |o.fields| - i
  {
    if x in ValueLeaves(o.fields[i].1, JoinPath(prefix, o.fields[i].0)) {
      j := i;
      p := ValueLeafPath(o.fields[i].1, JoinPath(prefix, o.fields[i].0), x);
    } else {
      j, p := FieldLeafPath(o, i + 1, prefix, x);
    }
  }

  /** A nested pair of a record: its key path starts at one of the record's object fields. */
  lemma NestedLeafPath(rec: Record, x: (string, Value)) returns (p: seq<string>)
    requires NoRepeatedKeys(Obj(rec)) && x in FieldLeaves(Obj(Nested(rec)), 0, "")
    ensures |p| > 0 && DottedPath("", p) == x.0 && At(Obj(rec), p) == Some(x.1)
  {
    var nested := Nested(rec);
    forall q | 0 <= q < |nested|
      ensures NoRepeatedKeys(nested[q].1)
    {
      assert nested[q] in rec;
    }
    var j, rest := FieldLeafPath(Obj(nested), 0, "", x);
    var key := nested[j].0;
    assert nested[j] in rec;
    FindMember(rec, key, nested[j].1);
    p := [key] + rest;
    assert p[1..] == rest;
  }

  /**
   * Conversely to LeafBecomesColumn: every column of a record's flat row is
   * named by the key path of a leaf of the record and holds that leaf.
   */
  lemma ColumnIsLeafPath(rec: Record, x: (string, Value)) returns (p: seq<string>)
    requires NoRepeatedKeys(Obj(rec)) && x in FlattenRecord(rec)
    ensures |p| > 0 && DottedPath("", p) == x.0 && At(Obj(rec), p) == Some(x.1) && IsLeaf(x.1)
  {
    assert x in LeafPairs(rec);
    assert x in TopLevel(rec) || x in FieldLeaves(Obj(Nested(rec)), 0, "");
    if x in TopLevel(rec) {
      p := TopLevelLeafPath(rec, x);
    } else {
      p := NestedLeafPath(rec, x);
    }
  }

  /** A top-level pair of a record: its key path is its own key. */
  lemma TopLevelLeafPath(rec: Record, x: (string, Value)) returns (p: seq<string>)
    requires Distinct(Keys(rec)) && x in TopLevel(rec)
    ensures |p| > 0 && DottedPath("", p) == x.0 && At(Obj(rec), p) == Some(x.1) && IsLeaf(x.1)
  {
    FindMember(rec, x.0, x.1);
    p := [x.0];
    assert p[1..] == [];
  }

  /** The cell a flat row gives column `name`: its value, or Missing (NaN). */
  function CellOf(row: seq<(string, Value)>, name: string): Cell
  {
    match Find(row, name)
    case Some(v) => Present(v)
    case None => Missing
  }

  /** The columns of a list of flat rows: every name, in order of first appearance. */
  function ColumnsOf(rows: seq<seq<(string, Value)>>): seq<string>
  {
    if |rows| == 0 then []
    else Union(ColumnsOf(rows[..|rows| - 1]), Keys(rows[|rows| - 1]))
  }

  /** The columns name every key of every row, only those, and none twice when no row repeats a key. */
  lemma {:induction false} ColumnsOfSpec(rows: seq<seq<(string, Value)>>)
    ensures (forall i :: 0 <= i < |rows| ==> Distinct(Keys(rows[i]))) ==> Distinct(ColumnsOf(rows))
    ensures forall i, c :: 0 <= i < |rows| && c in Keys(rows[i]) ==> c in ColumnsOf(rows)
    ensures forall c :: c in ColumnsOf(rows) ==> exists i :: 0 <= i < |rows| && c in Keys(rows[i])
  {
    if |rows| > 0 {
      var init := rows[..|rows| - 1];
      ColumnsOfSpec(init);
      assert forall i :: 0 <= i < |init| ==> init[i] == rows[i];
    }
  }

  /** The flat rows of the records, one per record. */
  function FlatRows(records: seq<Record>): seq<seq<(string, Value)>>
  {
    seq(|records|, i requires 0 <= i < |records| => FlattenRecord(records[i]))
  }

  /** How many records the response lists hold together. */
  function RecordCount(responses: seq<seq<Record>>): nat
  {
    if |responses| == 0 then 0
    else RecordCount(responses[..|responses| - 1]) + |responses[|responses| - 1]|
  }

  /** `pd.json_normalize(records)`: one flat row per record laid out under the union of their columns. */
  function JsonNormalize(records: seq<Record>): Table
  {
    var rows := FlatRows(records);
    var cols := ColumnsOf(rows);
    Table(cols, seq(|rows|, i requires 0 <= i < |rows| =>
      seq(|cols|, j requires 0 <= j < |cols| => CellOf(rows[i], cols[j]))))
  }

  /**
   * Normalising gives one row per record and no repeated column; the columns
   * are exactly the names some record's flat row has; an empty list gives the
   * empty table.
   */
  lemma JsonNormalizeShape(records: seq<Record>)
    ensures |JsonNormalize(records).rows| == |records|
    ensures Rectangular(JsonNormalize(records))
    ensures Distinct(JsonNormalize(records).cols)
    ensures forall c :: c in JsonNormalize(records).cols <==>
      exists i :: 0 <= i < |records| && c in Keys(FlattenRecord(records[i]))
    ensures records == [] ==> JsonNormalize(records) == Empty()
  {
    var rows := FlatRows(records);
    ColumnsOfSpec(rows);
    assert forall i :: 0 <= i < |records| ==> rows[i] == FlattenRecord(records[i]);
  }

  lemma CellOfSpec(row: seq<(string, Value)>, name: string)
    ensures CellOf(row, name).Present? <==> name in Keys(row)
    ensures CellOf(row, name).Present? ==> (name, CellOf(row, name).v) in row
  {
    if name in Keys(row) {
      var k :| 0 <= k < |row| && Keys(row)[k] == name;
      assert row[k].0 == name;
    }
    if Find(row, name).Some? {
      var k :| 0 <= k < |row| && row[k] == (name, Find(row, name).value);
      assert Keys(row)[k] == name;
    }
  }

  /**
   * Row `i`, column `j` of the normalised table holds the value record `i`'s
   * flat row has under that column name, and is Missing exactly when the flat
   * row lacks that name.
   */
  lemma JsonNormalizeCell(records: seq<Record>, i: nat, j: nat)
    requires i < |records| && j < |JsonNormalize(records).cols|
    ensures var t := JsonNormalize(records);
      && (t.rows[i][j].Present? <==> t.cols[j] in Keys(FlattenRecord(records[i])))
      && (t.rows[i][j].Present? ==> (t.cols[j], t.rows[i][j].v) in FlattenRecord(records[i]))
  {
    var t := JsonNormalize(records);
    var rows := FlatRows(records);
    assert rows[i] == FlattenRecord(records[i]);
    assert t.rows[i][j] == CellOf(rows[i], t.cols[j]);
    CellOfSpec(rows[i], t.cols[j]);
  }
}
