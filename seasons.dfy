/**
 * The per-season tables of `get_all_teams` and `get_all_fixtures_info`: for
 * every season of the league, the `response` list is normalised into a table,
 * the league and the season are inserted as its first two columns, and the
 * season tables are stacked and renamed.  Both methods run the same steps
 * against different endpoints, so one model serves both; the HTTP call is a
 * parameter (the decoded `response` list of each season).
 */
module Seasons {
  import opened Wrappers
  import opened Json
  import opened Dicts
  import opened Tables
  import opened Normalize
  import opened Concat
  import opened Rename
  import opened Chunker

  const LeagueColumn: string := "league_id"
  const SeasonColumn: string := "season"

  /** `season_list`: the year of every season, as its decimal string. */
  function SeasonList(years: seq<nat>): seq<string>
  {
    seq(|years|, i requires 0 <= i < |years| => NatToString(years[i]))
  }

  /** `int(season)` on an entry of the season list gives back its year. */
  lemma SeasonListYears(years: seq<nat>)
    ensures |SeasonList(years)| == |years|
    ensures forall i :: 0 <= i < |years| ==> ParseDigits(SeasonList(years)[i]) == years[i]
  {
    forall i | 0 <= i < |years|
      ensures ParseDigits(SeasonList(years)[i]) == years[i]
    {
      ParseNatToString(years[i]);
    }
  }

  /** The two provenance cells: the league id as given, the season as a number. */
  function LeagueCell(leagueId: string): Cell
  {
    Present(Scalar(Str(leagueId)))
  }

  function SeasonCell(season: string): Cell
  {
    Present(Scalar(Int(ParseDigits(season))))
  }

  /** `df.insert(0, 'season', int(season))` followed by `df.insert(0, 'league_id', league_id)`. */
  function TagSeason(t: Table, leagueId: string, season: string): Result<Table, Error>
  {
    var withSeason :- InsertFirst(t, SeasonColumn, SeasonCell(season));
    InsertFirst(withSeason, LeagueColumn, LeagueCell(leagueId))
  }

  /** The provenance names hold no `.`, so the renaming keeps them. */
  lemma ProvenanceNamesKept()
    ensures ReplaceDots(LeagueColumn) == LeagueColumn
    ensures ReplaceDots(SeasonColumn) == SeasonColumn
  {
    ReplaceDotsSpec(LeagueColumn);
    ReplaceDotsSpec(SeasonColumn);
  }

  /** The fixtures endpoint's `league.id` column is renamed to `league_id`. */
  lemma LeagueIdRenamed()
    ensures "league.id" != LeagueColumn
    ensures ReplaceDots("league.id") == LeagueColumn
  {
  }

  /** Neither provenance name is already a column. */
  predicate Untagged(t: Table)
  {
    SeasonColumn !in t.cols && LeagueColumn !in t.cols
  }

  /** The tagged table: `league_id` and `season` in front of the columns and of every row. */
  function Tag(t: Table, leagueId: string, season: string): Table
  {
    Table([LeagueColumn, SeasonColumn] + t.cols,
      seq(|t.rows|, k requires 0 <= k < |t.rows| => [LeagueCell(leagueId), SeasonCell(season)] + t.rows[k]))
  }

  /**
   * Tagging fails exactly when the table already has a `season` or a
   * `league_id` column (`season` is inserted first, so it is the one reported
   * when both are present); otherwise it is the tagged table.
   */
  lemma TagSeasonSpec(t: Table, leagueId: string, season: string)
    ensures TagSeason(t, leagueId, season).Ok? <==> Untagged(t)
    ensures SeasonColumn in t.cols ==> TagSeason(t, leagueId, season) == Err(ColumnExists(SeasonColumn))
    ensures SeasonColumn !in t.cols && LeagueColumn in t.cols ==>
      TagSeason(t, leagueId, season) == Err(ColumnExists(LeagueColumn))
    ensures Untagged(t) ==> TagSeason(t, leagueId, season) == Ok(Tag(t, leagueId, season))
  {
    if Untagged(t) {
      var f := TagSeason(t, leagueId, season).value;
      var g := Tag(t, leagueId, season);
      assert f.cols == g.cols;
      forall k | 0 <= k < |t.rows|
        ensures f.rows[k] == g.rows[k]
      {
        assert f.rows[k] == [LeagueCell(leagueId)] + ([SeasonCell(season)] + t.rows[k]);
      }
      assert f.rows == g.rows;
    }
  }

  /**
   * The tagged table has the two provenance names in front of the table's
   * own columns, the same number of rows, and every row starts with the
   * league id and the season followed by the row's own cells; no name repeats
   * when the table's do not and the provenance names are not among them.
   */
  lemma TagShape(t: Table, leagueId: string, season: string)
    ensures var f := Tag(t, leagueId, season);
      && f.cols == [LeagueColumn, SeasonColumn] + t.cols
      && |f.rows| == |t.rows|
      && (forall k :: 0 <= k < |t.rows| ==> f.rows[k] == [LeagueCell(leagueId), SeasonCell(season)] + t.rows[k])
      && (Rectangular(t) ==> Rectangular(f))
      && (Distinct(t.cols) && Untagged(t) ==> Distinct(f.cols))
  {
    var f := Tag(t, leagueId, season);
    if Distinct(t.cols) && Untagged(t) {
      forall i, j | 0 <= i < j < |f.cols|
        ensures f.cols[i] != f.cols[j]
      {
        if i >= 2 {
          assert f.cols[i] == t.cols[i - 2] && f.cols[j] == t.cols[j - 2];
        } else {
          assert f.cols[j] in t.cols || (i == 0 && j == 1);
        }
      }
    }
  }

  /** `get_response_df` for every season: each `response` list normalised. */
  function Normalized(responses: seq<seq<Record>>): (ts: seq<Table>)
    ensures |ts| == |responses|
  {
    seq(|responses|, i requires 0 <= i < |responses| => JsonNormalize(responses[i]))
  }

  /** A normalised response has one row per record, distinct column names and rectangular rows. */
  predicate WellFormed(t: Table)
  {
    Distinct(t.cols) && Rectangular(t)
  }

  lemma {:induction false} NormalizedShape(responses: seq<seq<Record>>, m: nat)
    requires m <= |responses|
    ensures forall i :: 0 <= i < |responses| ==> WellFormed(Normalized(responses)[i])
    ensures TotalRows(Normalized(responses)[..m]) == RecordCount(responses[..m])
  {
    var ts := Normalized(responses);
    forall i | 0 <= i < |responses|
      ensures WellFormed(ts[i]) && |ts[i].rows| == |responses[i]|
    {
      JsonNormalizeShape(responses[i]);
    }
    if m > 0 {
      NormalizedShape(responses, m - 1);
      assert ts[..m][..m - 1] == ts[..m - 1];
      assert responses[..m][..m - 1] == responses[..m - 1];
      assert TotalRows(ts[..m]) == TotalRows(ts[..m - 1]) + |ts[m - 1].rows|;
      assert RecordCount(responses[..m]) == RecordCount(responses[..m - 1]) + |responses[m - 1]|;
    }
  }

  /** The tagging of every season's table, in the order of the season list. */
  function TagResults(leagueId: string, seasons: seq<string>, tables: seq<Table>): (rs: seq<Result<Table, Error>>)
    requires |seasons| == |tables|
    ensures |rs| == |seasons|
  {
    seq(|seasons|, i requires 0 <= i < |seasons| => TagSeason(tables[i], leagueId, seasons[i]))
  }

  /** The tagged table of every season. */
  function Tagged(leagueId: string, seasons: seq<string>, tables: seq<Table>): (fs: seq<Table>)
    requires |seasons| == |tables|
    ensures |fs| == |seasons|
  {
    seq(|seasons|, i requires 0 <= i < |seasons| => Tag(tables[i], leagueId, seasons[i]))
  }

  /** The season tables tagged, stacked and renamed: `frames`, `pd.concat`, `replace_period`. */
  function StackSeasons(leagueId: string, seasons: seq<string>, tables: seq<Table>): Result<Table, Error>
    requires |seasons| == |tables|
  {
    var frames :- Collect(TagResults(leagueId, seasons, tables), |seasons|);
    var all :- ConcatAll(frames);
    Ok(ReplacePeriod(all))
  }

  /** What `get_all_teams` / `get_all_fixtures_info` return for these seasons and responses. */
  function AllSeasons(leagueId: string, seasons: seq<string>, responses: seq<seq<Record>>): Result<Table, Error>
    requires |seasons| == |responses|
  {
    StackSeasons(leagueId, seasons, Normalized(responses))
  }

  /** A season that tags: its table has the provenance columns, then its own, and keeps its rows behind the provenance cells. */
  lemma TaggedShape(leagueId: string, seasons: seq<string>, tables: seq<Table>, i: nat)
    requires i < |seasons| == |tables| && WellFormed(tables[i]) && Untagged(tables[i])
    ensures var f := Tagged(leagueId, seasons, tables)[i];
      && f.cols == [LeagueColumn, SeasonColumn] + tables[i].cols
      && WellFormed(f)
      && |f.rows| == |tables[i].rows|
      && forall k :: 0 <= k < |tables[i].rows| ==> f.rows[k] == [LeagueCell(leagueId), SeasonCell(seasons[i])] + tables[i].rows[k]
  {
    TagShape(tables[i], leagueId, seasons[i]);
  }

  /** Row `k` of a tagged season: the provenance cells, then the table's own row. */
  lemma TaggedRow(leagueId: string, seasons: seq<string>, tables: seq<Table>, i: nat, k: nat)
    requires i < |seasons| == |tables| && WellFormed(tables[i]) && Untagged(tables[i]) && k < |tables[i].rows|
    ensures var f := Tagged(leagueId, seasons, tables)[i];
      && f.cols == [LeagueColumn, SeasonColumn] + tables[i].cols
      && Distinct(f.cols)
      && k < |f.rows| && |f.rows[k]| == |f.cols|
      && f.rows[k] == [LeagueCell(leagueId), SeasonCell(seasons[i])] + tables[i].rows[k]
  {
    TagShape(tables[i], leagueId, seasons[i]);
  }

  /** The first `m` tagged tables hold as many rows as the untagged ones. */
  lemma {:induction false} TaggedRowCount(leagueId: string, seasons: seq<string>, tables: seq<Table>, m: nat)
    requires m <= |seasons| == |tables|
    requires forall i :: 0 <= i < |tables| ==> WellFormed(tables[i]) && Untagged(tables[i])
    ensures TotalRows(Tagged(leagueId, seasons, tables)[..m]) == TotalRows(tables[..m])
  {
    if m > 0 {
      var fs := Tagged(leagueId, seasons, tables);
      TaggedRowCount(leagueId, seasons, tables, m - 1);
      TaggedShape(leagueId, seasons, tables, m - 1);
      assert fs[..m][..m - 1] == fs[..m - 1];
      assert tables[..m][..m - 1] == tables[..m - 1];
      assert TotalRows(fs[..m]) == TotalRows(fs[..m - 1]) + |fs[m - 1].rows|;
      assert TotalRows(tables[..m]) == TotalRows(tables[..m - 1]) + |tables[m - 1].rows|;
    }
  }

  /** Stacking succeeds exactly when every season tags and the tagged tables concatenate, and is then their renamed concatenation. */
  lemma StackSeasonsOut(leagueId: string, seasons: seq<string>, tables: seq<Table>)
    requires |seasons| == |tables|
    ensures StackSeasons(leagueId, seasons, tables).Ok? <==>
      (forall i :: 0 <= i < |seasons| ==> Untagged(tables[i]))
      && ConcatAll(Tagged(leagueId, seasons, tables)).Ok?
    ensures StackSeasons(leagueId, seasons, tables).Ok? ==>
      StackSeasons(leagueId, seasons, tables).value == ReplacePeriod(ConcatAll(Tagged(leagueId, seasons, tables)).value)
  {
    var rs := TagResults(leagueId, seasons, tables);
    CollectOk(rs, |seasons|);
    forall i | 0 <= i < |seasons|
      ensures rs[i].Ok? <==> Untagged(tables[i])
      ensures rs[i].Ok? ==> rs[i].value == Tagged(leagueId, seasons, tables)[i]
    {
      TagSeasonSpec(tables[i], leagueId, seasons[i]);
    }
    if Collect(rs, |seasons|).Ok? {
      assert Collect(rs, |seasons|).value == Tagged(leagueId, seasons, tables);
    }
  }

  /** The combined columns of the tagged tables start with `league_id` and `season`. */
  lemma TaggedUnion(leagueId: string, seasons: seq<string>, tables: seq<Table>)
    requires 0 < |seasons| == |tables| && WellFormed(tables[0]) && Untagged(tables[0])
    ensures var u := UnionAll(Tagged(leagueId, seasons, tables));
      |u| >= 2 && u[0] == LeagueColumn && u[1] == SeasonColumn
  {
    var fs := Tagged(leagueId, seasons, tables);
    UnionAllPrefix(fs);
    TaggedShape(leagueId, seasons, tables, 0);
    assert UnionAll(fs)[..|fs[0].cols|][0] == LeagueColumn;
    assert UnionAll(fs)[..|fs[0].cols|][1] == SeasonColumn;
  }

  /** Well-formed tables that all tag concatenate, into all their rows under columns led by `league_id` and `season`. */
  lemma TaggedConcat(leagueId: string, seasons: seq<string>, tables: seq<Table>)
    requires 0 < |seasons| == |tables|
    requires forall i :: 0 <= i < |tables| ==> WellFormed(tables[i]) && Untagged(tables[i])
    ensures ConcatAll(Tagged(leagueId, seasons, tables)).Ok?
    ensures var s := ConcatAll(Tagged(leagueId, seasons, tables)).value;
      && s.cols == UnionAll(Tagged(leagueId, seasons, tables))
      && |s.rows| == TotalRows(tables)
      && Rectangular(s)
      && |s.cols| >= 2 && s.cols[0] == LeagueColumn && s.cols[1] == SeasonColumn
  {
    var fs := Tagged(leagueId, seasons, tables);
    forall i | 0 <= i < |fs|
      ensures WellFormed(fs[i])
    {
      TaggedShape(leagueId, seasons, tables, i);
    }
    ConcatAllDistinct(fs);
    ConcatAllSpec(fs);
    TaggedRowCount(leagueId, seasons, tables, |seasons|);
    assert fs[..|seasons|] == fs;
    assert tables[..|seasons|] == tables;
    TaggedUnion(leagueId, seasons, tables);
  }

  /**
   * Stacking well-formed tables fails with "no objects to concatenate" when
   * there is no season, and otherwise exactly when some table already has a
   * `season` or `league_id` column.  On success it has all their rows, no
   * column name with a `.`, `league_id` and `season` as first columns, and
   * besides those exactly the renamed columns of the season tables.
   */
  lemma StackSeasonsSpec(leagueId: string, seasons: seq<string>, tables: seq<Table>)
    requires |seasons| == |tables| && forall i :: 0 <= i < |tables| ==> WellFormed(tables[i])
    ensures |seasons| == 0 ==> StackSeasons(leagueId, seasons, tables) == Err(NothingToConcatenate)
    ensures StackSeasons(leagueId, seasons, tables).Ok? <==>
      |seasons| > 0 && forall i :: 0 <= i < |seasons| ==> Untagged(tables[i])
    ensures StackSeasons(leagueId, seasons, tables).Ok? ==>
      var out := StackSeasons(leagueId, seasons, tables).value;
      && |out.rows| == TotalRows(tables)
      && Rectangular(out)
      && DotFree(out)
      && |out.cols| >= 2 && out.cols[0] == LeagueColumn && out.cols[1] == SeasonColumn
    ensures StackSeasons(leagueId, seasons, tables).Ok? ==>
      forall c :: c in StackSeasons(leagueId, seasons, tables).value.cols <==>
        || c == LeagueColumn
        || c == SeasonColumn
        || exists i, j :: 0 <= i < |tables| && 0 <= j < |tables[i].cols| && c == ReplaceDots(tables[i].cols[j])
  {
    StackSeasonsOut(leagueId, seasons, tables);
    if |seasons| == 0 {
      assert Collect(TagResults(leagueId, seasons, tables), 0) == Ok([]);
    } else if forall i :: 0 <= i < |seasons| ==> Untagged(tables[i]) {
      TaggedConcat(leagueId, seasons, tables);
      var s := ConcatAll(Tagged(leagueId, seasons, tables)).value;
      ReplacePeriodSpec(s);
      var out := ReplacePeriod(s);
      assert out.cols[0] == LeagueColumn && out.cols[1] == SeasonColumn by {
        ProvenanceNamesKept();
      }
      StackSeasonsColumns(leagueId, seasons, tables);
    }
  }

  /**
   * The stacked table's columns are exactly `league_id`, `season` and the
   * renamed columns of the season tables.
   */
  lemma StackSeasonsColumns(leagueId: string, seasons: seq<string>, tables: seq<Table>)
    requires |seasons| == |tables| && StackSeasons(leagueId, seasons, tables).Ok?
    ensures forall c :: c in StackSeasons(leagueId, seasons, tables).value.cols <==>
      || c == LeagueColumn
      || c == SeasonColumn
      || exists i, j :: 0 <= i < |tables| && 0 <= j < |tables[i].cols| && c == ReplaceDots(tables[i].cols[j])
  {
    var fs := Tagged(leagueId, seasons, tables);
    assert ConcatAll(fs).Ok? && StackSeasons(leagueId, seasons, tables).value == ReplacePeriod(ConcatAll(fs).value) by {
      StackSeasonsOut(leagueId, seasons, tables);
    }
    var s := ConcatAll(fs).value;
    assert |fs| > 0 && s.cols == UnionAll(fs);
    TaggedNames(fs, tables, s.cols);
    ReplacePeriodNames(s);
    RenamedTagged(s.cols, tables, ReplacePeriod(s).cols);
  }

  /** The combined columns of tagged tables: the provenance names and the tables' own. */
  lemma TaggedNames(fs: seq<Table>, tables: seq<Table>, u: seq<string>)
    requires 0 < |fs| == |tables|
    requires forall i :: 0 <= i < |fs| ==> fs[i].cols == [LeagueColumn, SeasonColumn] + tables[i].cols
    requires forall c :: c in u <==> exists i :: 0 <= i < |fs| && c in fs[i].cols
    ensures forall c :: c in u <==>
      || c == LeagueColumn
      || c == SeasonColumn
      || exists i, j :: 0 <= i < |tables| && 0 <= j < |tables[i].cols| && c == tables[i].cols[j]
  {
    forall c | c in u
      ensures || c == LeagueColumn
              || c == SeasonColumn
              || exists i, j :: 0 <= i < |tables| && 0 <= j < |tables[i].cols| && c == tables[i].cols[j]
    {
      var i :| 0 <= i < |fs| && c in fs[i].cols;
      if c != LeagueColumn && c != SeasonColumn {
        assert c in tables[i].cols;
        var j :| 0 <= j < |tables[i].cols| && tables[i].cols[j] == c;
      }
    }
    forall c | || c == LeagueColumn
               || c == SeasonColumn
               || exists i, j :: 0 <= i < |tables| && 0 <= j < |tables[i].cols| && c == tables[i].cols[j]
      ensures c in u
    {
      if c == LeagueColumn || c == SeasonColumn {
        assert c in fs[0].cols;
      } else {
        var i, j :| 0 <= i < |tables| && 0 <= j < |tables[i].cols| && c == tables[i].cols[j];
        assert c in fs[i].cols;
      }
    }
  }

  /** Renaming the combined columns of tagged tables keeps the provenance names and renames the rest. */
  lemma RenamedTagged(u: seq<string>, tables: seq<Table>, names: seq<string>)
    requires forall c :: c in u <==>
      || c == LeagueColumn
      || c == SeasonColumn
      || exists i, j :: 0 <= i < |tables| && 0 <= j < |tables[i].cols| && c == tables[i].cols[j]
    requires forall c :: c in names <==> exists n :: n in u && c == ReplaceDots(n)
    ensures forall c :: c in names <==>
      || c == LeagueColumn
      || c == SeasonColumn
      || exists i, j :: 0 <= i < |tables| && 0 <= j < |tables[i].cols| && c == ReplaceDots(tables[i].cols[j])
  {
    ProvenanceNamesKept();
    forall c | c in names
      ensures || c == LeagueColumn
              || c == SeasonColumn
              || exists i, j :: 0 <= i < |tables| && 0 <= j < |tables[i].cols| && c == ReplaceDots(tables[i].cols[j])
    {
      var n :| n in u && c == ReplaceDots(n);
      if n != LeagueColumn && n != SeasonColumn {
        var i, j :| 0 <= i < |tables| && 0 <= j < |tables[i].cols| && n == tables[i].cols[j];
      }
    }
    forall c | || c == LeagueColumn
               || c == SeasonColumn
               || exists i, j :: 0 <= i < |tables| && 0 <= j < |tables[i].cols| && c == ReplaceDots(tables[i].cols[j])
      ensures c in names
    {
      if c == LeagueColumn || c == SeasonColumn {
        assert c in u && c == ReplaceDots(c);
      } else {
        var i, j :| 0 <= i < |tables| && 0 <= j < |tables[i].cols| && c == ReplaceDots(tables[i].cols[j]);
        assert tables[i].cols[j] in u;
      }
    }
  }

  /** Row `k` of season `i`'s table starts, in the concatenation, with the league id and the season. */
  lemma TaggedRowAt(leagueId: string, seasons: seq<string>, tables: seq<Table>, i: nat, k: nat)
    requires i < |seasons| == |tables| && WellFormed(tables[i]) && Untagged(tables[i]) && k < |tables[i].rows|
    requires ConcatAll(Tagged(leagueId, seasons, tables)).Ok?
    requires var u := ConcatAll(Tagged(leagueId, seasons, tables)).value.cols;
      |u| >= 2 && u[0] == LeagueColumn && u[1] == SeasonColumn
    ensures var fs := Tagged(leagueId, seasons, tables);
      var s := ConcatAll(fs).value;
      var pos := Offset(fs, i) + k;
      && pos < |s.rows| && |s.rows[pos]| == |s.cols|
      && s.rows[pos][0] == LeagueCell(leagueId)
      && s.rows[pos][1] == SeasonCell(seasons[i])
  {
    var fs := Tagged(leagueId, seasons, tables);
    assert Distinct(fs[i].cols) && k < |fs[i].rows| && |fs[i].rows[k]| == |fs[i].cols|
      && fs[i].cols[0] == LeagueColumn && fs[i].cols[1] == SeasonColumn
      && fs[i].rows[k][0] == LeagueCell(leagueId) && fs[i].rows[k][1] == SeasonCell(seasons[i]) by {
      TaggedRow(leagueId, seasons, tables, i, k);
    }
    LeadingCells(fs, i, k, Offset(fs, i) + k, LeagueCell(leagueId), SeasonCell(seasons[i]));
  }

  /** The first two cells of a row of frame `i` stay first when the combined columns start with the same two names. */
  lemma LeadingCells(fs: seq<Table>, i: nat, k: nat, pos: nat, a: Cell, b: Cell)
    requires ConcatAll(fs).Ok? && i < |fs| && pos == Offset(fs, i) + k
    requires Distinct(fs[i].cols) && k < |fs[i].rows| && |fs[i].rows[k]| == |fs[i].cols| >= 2
    requires fs[i].rows[k][0] == a && fs[i].rows[k][1] == b
    requires var u := ConcatAll(fs).value.cols;
      |u| >= 2 && u[0] == fs[i].cols[0] && u[1] == fs[i].cols[1]
    ensures var s := ConcatAll(fs).value;
      && pos < |s.rows| && |s.rows[pos]| == |s.cols|
      && s.rows[pos][0] == a && s.rows[pos][1] == b
  {
    var s := ConcatAll(fs).value;
    ConcatCellOf(fs, i, k, 0, pos, fs[i].cols[0], a);
    ConcatCellOf(fs, i, k, 1, pos, fs[i].cols[1], b);
    assert IndexOf(s.cols, fs[i].cols[0]) == Some(0);
    assert IndexOf(s.cols, fs[i].cols[1]) == Some(1);
  }

  /** The cell of season `i`'s table at row `k`, column `x`, in the concatenation. */
  lemma TaggedCellAt(leagueId: string, seasons: seq<string>, tables: seq<Table>, i: nat, k: nat, x: nat)
    requires i < |seasons| == |tables| && WellFormed(tables[i]) && Untagged(tables[i])
    requires k < |tables[i].rows| && x < |tables[i].cols|
    requires ConcatAll(Tagged(leagueId, seasons, tables)).Ok?
    ensures var fs := Tagged(leagueId, seasons, tables);
      var s := ConcatAll(fs).value;
      var pos := Offset(fs, i) + k;
      && tables[i].cols[x] in s.cols
      && var j := IndexOf(s.cols, tables[i].cols[x]).value;
      && pos < |s.rows| && j < |s.cols| && j < |s.rows[pos]| && x < |tables[i].rows[k]|
      && s.rows[pos][j] == tables[i].rows[k][x]
  {
    var fs := Tagged(leagueId, seasons, tables);
    assert Distinct(fs[i].cols) && k < |fs[i].rows| && |fs[i].rows[k]| == |fs[i].cols|
      && fs[i].cols == [LeagueColumn, SeasonColumn] + tables[i].cols
      && fs[i].rows[k] == [LeagueCell(leagueId), SeasonCell(seasons[i])] + tables[i].rows[k] by {
      TaggedRow(leagueId, seasons, tables, i, k);
    }
    assert |tables[i].rows[k]| == |tables[i].cols| by {
      assert WellFormed(tables[i]);
    }
    ShiftedCellAt(fs, tables[i], LeagueCell(leagueId), SeasonCell(seasons[i]), i, k, x, Offset(fs, i));
  }

  /** A cell of frame `i` that sits two columns to the right of where `t` has it. */
  lemma ShiftedCellAt(fs: seq<Table>, t: Table, a: Cell, b: Cell, i: nat, k: nat, x: nat, off: nat)
    requires ConcatAll(fs).Ok? && i < |fs| && off == Offset(fs, i)
    requires k < |t.rows| && x < |t.cols| && |t.rows[k]| == |t.cols|
    requires Distinct(fs[i].cols) && k < |fs[i].rows| && |fs[i].rows[k]| == |fs[i].cols|
    requires fs[i].cols == [LeagueColumn, SeasonColumn] + t.cols
    requires fs[i].rows[k] == [a, b] + t.rows[k]
    ensures var s := ConcatAll(fs).value;
      var pos := off + k;
      && t.cols[x] in s.cols
      && var j := IndexOf(s.cols, t.cols[x]).value;
      && pos < |s.rows| && j < |s.cols| && j < |s.rows[pos]|
      && s.rows[pos][j] == t.rows[k][x]
  {
    ConcatCellOf(fs, i, k, x + 2, off + k, t.cols[x], t.rows[k][x]);
  }

  /**
   * Row `k` of season `i`'s table is row `before + k` of the result, `before`
   * being the number of rows of the tables ahead of it: it starts with the league id and the season, and the cell
   * under the table's own column `x` is found under the first combined column
   * of that name, which the result names with the `.` replaced.
   */
  lemma StackSeasonsAt(leagueId: string, seasons: seq<string>, tables: seq<Table>, i: nat, k: nat, x: nat, before: nat)
    requires |seasons| == |tables| && forall i :: 0 <= i < |tables| ==> WellFormed(tables[i])
    requires StackSeasons(leagueId, seasons, tables).Ok?
    requires i < |seasons| && k < |tables[i].rows| && x < |tables[i].cols|
    requires before == TotalRows(tables[..i])
    ensures var out := StackSeasons(leagueId, seasons, tables).value;
      var u := UnionAll(Tagged(leagueId, seasons, tables));
      var pos := before + k;
      && pos < |out.rows| && |out.rows[pos]| == |out.cols| >= 2
      && out.rows[pos][0] == LeagueCell(leagueId)
      && out.rows[pos][1] == SeasonCell(seasons[i])
      && tables[i].cols[x] in u
      && var j := IndexOf(u, tables[i].cols[x]).value;
      && j < |out.cols| && x < |tables[i].rows[k]|
      && out.cols[j] == ReplaceDots(tables[i].cols[x])
      && out.rows[pos][j] == tables[i].rows[k][x]
  {
    var fs := Tagged(leagueId, seasons, tables);
    assert WellFormed(tables[i]) && Untagged(tables[i]) && ConcatAll(fs).Ok?
      && StackSeasons(leagueId, seasons, tables).value == ReplacePeriod(ConcatAll(fs).value)
      && |ConcatAll(fs).value.cols| >= 2
      && ConcatAll(fs).value.cols[0] == LeagueColumn && ConcatAll(fs).value.cols[1] == SeasonColumn
      && Offset(fs, i) == before by {
      StackSeasonsOut(leagueId, seasons, tables);
      TaggedConcat(leagueId, seasons, tables);
      TaggedRowCount(leagueId, seasons, tables, i);
    }
    TaggedStackAt(leagueId, seasons, tables, i, k, x, before);
  }

  /** `StackSeasonsAt` for a season whose table tags, stated on the renamed concatenation of the tagged tables. */
  lemma TaggedStackAt(leagueId: string, seasons: seq<string>, tables: seq<Table>, i: nat, k: nat, x: nat, before: nat)
    requires i < |seasons| == |tables| && WellFormed(tables[i]) && Untagged(tables[i])
    requires k < |tables[i].rows| && x < |tables[i].cols|
    requires ConcatAll(Tagged(leagueId, seasons, tables)).Ok?
    requires var u := ConcatAll(Tagged(leagueId, seasons, tables)).value.cols;
      |u| >= 2 && u[0] == LeagueColumn && u[1] == SeasonColumn
    requires Offset(Tagged(leagueId, seasons, tables), i) == before
    ensures var fs := Tagged(leagueId, seasons, tables);
      var out := ReplacePeriod(ConcatAll(fs).value);
      var pos := before + k;
      && pos < |out.rows| && |out.rows[pos]| == |out.cols| >= 2
      && out.rows[pos][0] == LeagueCell(leagueId)
      && out.rows[pos][1] == SeasonCell(seasons[i])
      && tables[i].cols[x] in UnionAll(fs)
      && var j := IndexOf(UnionAll(fs), tables[i].cols[x]).value;
      && j < |out.cols| && x < |tables[i].rows[k]|
      && out.cols[j] == ReplaceDots(tables[i].cols[x])
      && out.rows[pos][j] == tables[i].rows[k][x]
  {
    var fs := Tagged(leagueId, seasons, tables);
    var s := ConcatAll(fs).value;
    var p := Offset(fs, i) + k;
    var name, cell := tables[i].cols[x], tables[i].rows[k][x];
    assert p < |s.rows| && |s.rows[p]| == |s.cols| && s.rows[p][0] == LeagueCell(leagueId)
      && s.rows[p][1] == SeasonCell(seasons[i]) by {
      TaggedRowAt(leagueId, seasons, tables, i, k);
    }
    assert name in s.cols && IndexOf(s.cols, name).value < |s.rows[p]|
      && s.rows[p][IndexOf(s.cols, name).value] == cell by {
      TaggedCellAt(leagueId, seasons, tables, i, k, x);
    }
    assert x < |tables[i].rows[k]| by {
      assert Rectangular(tables[i]);
    }
    RenamedAt(s, UnionAll(fs), ReplacePeriod(s), p, before + k, LeagueCell(leagueId), SeasonCell(seasons[i]), name, cell);
  }

  /** Renaming the columns of `s` keeps every row where it is, and a named cell under the renamed name. */
  lemma RenamedAt(s: Table, u: seq<string>, out: Table, p: nat, pos: nat, a: Cell, b: Cell, name: string, cell: Cell)
    requires out == ReplacePeriod(s) && s.cols == u && p == pos
    requires p < |s.rows| && |s.rows[p]| == |s.cols| >= 2 && s.rows[p][0] == a && s.rows[p][1] == b
    requires name in s.cols && IndexOf(s.cols, name).value < |s.rows[p]|
    requires s.rows[p][IndexOf(s.cols, name).value] == cell
    ensures pos < |out.rows| && |out.rows[pos]| == |out.cols| >= 2
    ensures out.rows[pos][0] == a && out.rows[pos][1] == b
    ensures name in u
    ensures var j := IndexOf(u, name).value;
      && j < |out.cols|
      && out.cols[j] == ReplaceDots(name)
      && out.rows[pos][j] == cell
  {
  }

  /**
   * Collecting the seasons fails with "no objects to concatenate" when there
   * is no season, and otherwise exactly when some season's response already
   * has a `season` or `league_id` column.  On success there is one row per
   * record of all responses together, no column name holds a `.`, the first
   * two columns are `league_id` and `season`, and besides those the columns
   * are exactly the renamed columns of the normalised responses.
   */
  lemma AllSeasonsSpec(leagueId: string, seasons: seq<string>, responses: seq<seq<Record>>)
    requires |seasons| == |responses|
    ensures |seasons| == 0 ==> AllSeasons(leagueId, seasons, responses) == Err(NothingToConcatenate)
    ensures AllSeasons(leagueId, seasons, responses).Ok? <==>
      |seasons| > 0 && forall i :: 0 <= i < |seasons| ==> Untagged(Normalized(responses)[i])
    ensures AllSeasons(leagueId, seasons, responses).Ok? ==>
      var out := AllSeasons(leagueId, seasons, responses).value;
      && |out.rows| == RecordCount(responses)
      && Rectangular(out)
      && DotFree(out)
      && |out.cols| >= 2 && out.cols[0] == LeagueColumn && out.cols[1] == SeasonColumn
    ensures AllSeasons(leagueId, seasons, responses).Ok? ==>
      forall c :: c in AllSeasons(leagueId, seasons, responses).value.cols <==>
        || c == LeagueColumn
        || c == SeasonColumn
        || exists i, j :: 0 <= i < |responses| && 0 <= j < |Normalized(responses)[i].cols| &&
             c == ReplaceDots(Normalized(responses)[i].cols[j])
  {
    var ts := Normalized(responses);
    assert (forall i :: 0 <= i < |ts| ==> WellFormed(ts[i])) && TotalRows(ts) == RecordCount(responses) by {
      NormalizedShape(responses, |responses|);
      assert ts[..|responses|] == ts;
      assert responses[..|responses|] == responses;
    }
    StackSeasonsSpec(leagueId, seasons, ts);
  }

  /**
   * Record `k` of season `i`'s response is row `RecordCount(responses before
   * i) + k` of the result: the row starts with the league id as given and the
   * season read as a number, and every cell the record's normalised row has
   * under column `x` is kept, under the first combined column of that name.
   */
  lemma AllSeasonsAt(leagueId: string, seasons: seq<string>, responses: seq<seq<Record>>, i: nat, k: nat, x: nat)
    requires |seasons| == |responses| && AllSeasons(leagueId, seasons, responses).Ok?
    requires i < |seasons| && k < |responses[i]| && x < |JsonNormalize(responses[i]).cols|
    ensures var out := AllSeasons(leagueId, seasons, responses).value;
      var e := JsonNormalize(responses[i]);
      var u := UnionAll(Tagged(leagueId, seasons, Normalized(responses)));
      var pos := RecordCount(responses[..i]) + k;
      && pos < |out.rows| && |out.rows[pos]| == |out.cols| >= 2
      && out.rows[pos][0] == LeagueCell(leagueId)
      && out.rows[pos][1] == SeasonCell(seasons[i])
      && e.cols[x] in u
      && var j := IndexOf(u, e.cols[x]).value;
      && j < |out.cols| && k < |e.rows| && x < |e.rows[k]|
      && out.cols[j] == ReplaceDots(e.cols[x])
      && out.rows[pos][j] == e.rows[k][x]
  {
    var ts := Normalized(responses);
    NormalizedShape(responses, i);
    assert ts[i] == JsonNormalize(responses[i]);
    StackSeasonsAt(leagueId, seasons, ts, i, k, x, RecordCount(responses[..i]));
  }

  /** A table column `league.id` is renamed into a second `league_id` column. */
  lemma StackSeasonsDuplicate(leagueId: string, seasons: seq<string>, tables: seq<Table>, i: nat)
    requires |seasons| == |tables| && forall i :: 0 <= i < |tables| ==> WellFormed(tables[i])
    requires StackSeasons(leagueId, seasons, tables).Ok?
    requires i < |seasons| && "league.id" in tables[i].cols
    ensures !Distinct(StackSeasons(leagueId, seasons, tables).value.cols)
  {
    var fs := Tagged(leagueId, seasons, tables);
    assert (forall k :: 0 <= k < |seasons| ==> Untagged(tables[k]))
      && StackSeasons(leagueId, seasons, tables).value == ReplacePeriod(ConcatAll(fs).value) by {
      StackSeasonsOut(leagueId, seasons, tables);
    }
    assert ConcatAll(fs).Ok? && |ConcatAll(fs).value.cols| > 0 && ConcatAll(fs).value.cols[0] == LeagueColumn by {
      TaggedConcat(leagueId, seasons, tables);
    }
    var s := ConcatAll(fs).value;
    assert "league.id" in s.cols by {
      TaggedShape(leagueId, seasons, tables, i);
      assert "league.id" in fs[i].cols;
      ConcatAllSpec(fs);
    }
    RenamedLeagueIdRepeats(s);
  }

  /** A table led by `league_id` that also has `league.id` repeats `league_id` once renamed. */
  lemma RenamedLeagueIdRepeats(s: Table)
    requires |s.cols| > 0 && s.cols[0] == LeagueColumn && "league.id" in s.cols
    ensures !Distinct(ReplacePeriod(s).cols)
  {
    var out := ReplacePeriod(s);
    var j := IndexOf(s.cols, "league.id").value;
    assert out.cols[0] == LeagueColumn by {
      ProvenanceNamesKept();
    }
    assert j != 0 && out.cols[j] == LeagueColumn by {
      LeagueIdRenamed();
    }
  }

  /**
   * A response column `league.id` (the fixtures endpoint nests the league as
   * an object with an `id`) is renamed into a second `league_id` column, next
   * to the inserted one: the result then repeats a column name.
   */
  lemma DuplicateLeagueId(leagueId: string, seasons: seq<string>, responses: seq<seq<Record>>, i: nat)
    requires |seasons| == |responses| && AllSeasons(leagueId, seasons, responses).Ok?
    requires i < |seasons| && "league.id" in JsonNormalize(responses[i]).cols
    ensures !Distinct(AllSeasons(leagueId, seasons, responses).value.cols)
  {
    var ts := Normalized(responses);
    NormalizedShape(responses, 0);
    assert ts[i] == JsonNormalize(responses[i]);
    StackSeasonsDuplicate(leagueId, seasons, ts, i);
  }

  /**
   * The loop of `get_all_teams` / `get_all_fixtures_info` over the seasons'
   * normalised responses: each tagged (`season`, then `league_id`, inserted in
   * front) and appended to `frames`, stopping at the first insertion that
   * raises.
   */
  method TagEach(leagueId: string, seasons: seq<string>, tables: seq<Table>) returns (r: Result<seq<Table>, Error>)
    requires |seasons| == |tables|
    ensures r == Collect(TagResults(leagueId, seasons, tables), |seasons|)
  {
    ghost var rs := TagResults(leagueId, seasons, tables);
    var frames: seq<Table> := [];
    var i := 0;
    while i < |seasons|
      invariant 0 <= i <= |seasons|
      invariant Collect(rs, i) == Ok(frames)
    {
      var withSeason := InsertFirst(tables[i], SeasonColumn, SeasonCell(seasons[i]));
      if withSeason.Err? {
        assert rs[i] == Err(withSeason.error);
        CollectNext(rs, i, frames);
        return Err(withSeason.error);
      }
      var tagged := InsertFirst(withSeason.value, LeagueColumn, LeagueCell(leagueId));
      assert rs[i] == tagged;
      CollectNext(rs, i, frames);
      if tagged.Err? {
        return Err(tagged.error);
      }
      frames := frames + [tagged.value];
      i := i + 1;
    }
    r := Ok(frames);
  }

  /**
   * `get_all_teams` / `get_all_fixtures_info`: every season's response
   * normalised (`get_response_df`), tagged, concatenated and renamed.
   */
  method CollectSeasons(leagueId: string, seasons: seq<string>, responses: seq<seq<Record>>) returns (r: Result<Table, Error>)
    requires |seasons| == |responses|
    ensures r == AllSeasons(leagueId, seasons, responses)
  {
    var tables := Normalized(responses);
    var frames := TagEach(leagueId, seasons, tables);
    if frames.Err? {
      return Err(frames.error);
    }
    var all := ConcatAll(frames.value);
    if all.Err? {
      return Err(all.error);
    }
    r := Ok(ReplacePeriod(all.value));
  }
}
