/** Cleaning the chunked raw Twitter cascades
    (`code/data_cleaning/clean_raw_data_anon.py`).  A table is a sequence of
    rows, each row a map from column name to cell; `JNull` is a missing
    cell (NaN or `None`).  In full mode the four user columns have their
    "None" strings made missing, every cascade with any missing cell is
    dropped whole, and so is every cascade left with a single row; in
    keep-all mode only the cascades with a missing veracity are dropped. */
module CleanRawData {
  import opened Wrappers
  import opened JsonValue

  type Row = map<string, Json>

  const CascadeIdColumn: string := "cascade_id"
  const VeracityColumn: string := "veracity"

  /** The user columns in which the raw data writes "None". */
  const ColumnsWithNone: seq<string> :=
    ["user_account_age", "user_verified", "user_followers", "user_followees"]

  /** `map_none`: exactly the string "None" becomes missing. */
  function MapNone(val: Json): (r: Json)
    ensures r == JNull <==> val == JNull || val == JStr("None")
    ensures r != JNull ==> r == val
  {
    if val == JStr("None") then JNull else val
  }

  /** Lower-case "none" is a value like any other. */
  lemma LowerCaseNoneKept()
    ensures MapNone(JStr("none")) == JStr("none")
  {
  }

  /** `data.veracity.map(VERACITY_MAP)`.  A Python dictionary finds its
      `False` and `True` keys for the integers 0 and 1 too; the two
      retracted labels map to `None` and every other value is not in the
      dictionary and becomes NaN, so both are missing. */
  function Veracity(v: Json): (r: Json)
    ensures r == JNull || r == JStr("true") || r == JStr("false") || r == JStr("mixed")
    ensures r == JStr("false") <==> v == JBool(false) || v == JInt(0) || v == JStr("FALSE") || v == JStr("False")
    ensures r == JStr("true") <==> v == JBool(true) || v == JInt(1) || v == JStr("TRUE")
    ensures r == JStr("mixed") <==> v == JStr("MIXED")
  {
    if v == JBool(false) || v == JInt(0) || v == JStr("FALSE") || v == JStr("False") then JStr("false")
    else if v == JBool(true) || v == JInt(1) || v == JStr("TRUE") then JStr("true")
    else if v == JStr("MIXED") then JStr("mixed")
    else JNull
  }

  /** The retracted labels, the string "True" (only the boolean is a key)
      and an already cleaned label all end up missing. */
  lemma VeracityMissing()
    ensures Veracity(JStr("r_33")) == JNull && Veracity(JStr("r_45")) == JNull
    ensures Veracity(JStr("True")) == JNull
    ensures Veracity(JStr("true")) == JNull && Veracity(JStr("mixed")) == JNull
  {
  }

  // ---------------------------------------------------------------------
  // The rows where "None" is not consistent (full mode diagnostics)
  // ---------------------------------------------------------------------

  /** The four user cells of a row. */
  function UserItems(row: Row): (items: seq<Json>)
    ensures |items| == 4
  {
    seq(4, j requires 0 <= j < 4 => DictGet(row, ColumnsWithNone[j]))
  }

  /** Some user cell is "None" but not all of them are. */
  predicate InconsistentNone(row: Row) {
    var items := UserItems(row);
    (exists j :: 0 <= j < 4 && items[j] == JStr("None")) &&
    !(forall j :: 0 <= j < 4 ==> items[j] == JStr("None"))
  }

  /** The indices `none_str_indices` collects, in order. */
  function InconsistentIndices(rows: seq<Row>): (idx: seq<nat>)
    decreases |rows|
  {
    if |rows| == 0 then []
    else
      var last := |rows| - 1;
      InconsistentIndices(rows[..last]) + (if InconsistentNone(rows[last]) then [last] else [])
  }

  /** The collected indices are exactly the inconsistent rows, each once
      and in increasing order. */
  lemma {:induction false} InconsistentIndicesExact(rows: seq<Row>)
    ensures forall k :: k in InconsistentIndices(rows) <==> 0 <= k < |rows| && InconsistentNone(rows[k])
    ensures forall a, b :: 0 <= a < b < |InconsistentIndices(rows)| ==>
              InconsistentIndices(rows)[a] < InconsistentIndices(rows)[b]
    decreases |rows|
  {
    if |rows| > 0 {
      var last := |rows| - 1;
      var prev := InconsistentIndices(rows[..last]);
      InconsistentIndicesExact(rows[..last]);
      assert forall k :: 0 <= k < last ==> rows[..last][k] == rows[k];
      assert forall a :: 0 <= a < |prev| ==> prev[a] < last by {
        forall a | 0 <= a < |prev| ensures prev[a] < last {
          assert prev[a] in prev;
        }
      }
    }
  }

  /** The loop over `data.iterrows()` that collects `none_str_indices`. */
  method NoneStrIndices(rows: seq<Row>) returns (idx: seq<nat>)
    ensures idx == InconsistentIndices(rows)
  {
    idx := [];
    for i := 0 to |rows|
      invariant idx == InconsistentIndices(rows[..i])
    {
      assert rows[..i + 1][..i] == rows[..i];
      if InconsistentNone(rows[i]) {
        idx := idx + [i];
      }
    }
    assert rows[..|rows|] == rows;
  }

  // ---------------------------------------------------------------------
  // Dropping cascades
  // ---------------------------------------------------------------------

  function IdOf(row: Row): Json {
    DictGet(row, CascadeIdColumn)
  }

  /** The rows after the veracity map and, in full mode, `map_none` on the
      user columns. */
  function Prepared(rows: seq<Row>, keepAll: bool): (data: seq<Row>)
    ensures |data| == |rows|
  {
    seq(|rows|, k requires 0 <= k < |rows| =>
      var r := rows[k][VeracityColumn := Veracity(DictGet(rows[k], VeracityColumn))];
      if keepAll then r else map c | c in r :: if c in ColumnsWithNone then MapNone(r[c]) else r[c])
  }

  /** The rows that put their cascade on the missing-information list:
      a missing veracity in keep-all mode, any missing cell in full mode.
      Every row of a frame carries all of its columns: a column that one
      chunk lacks is a `JNull` cell in that chunk's rows, as the NaN
      `pd.concat` fills in. */
  predicate Incomplete(row: Row, keepAll: bool) {
    if keepAll then DictGet(row, VeracityColumn) == JNull
    else exists c :: c in row && row[c] == JNull
  }

  /** `cascades_w_missing_info`. */
  function MissingIds(rows: seq<Row>, keepAll: bool): (ids: set<Json>)
    ensures forall k :: 0 <= k < |rows| && Incomplete(rows[k], keepAll) ==> IdOf(rows[k]) in ids
    ensures forall id :: id in ids ==> exists k :: 0 <= k < |rows| && Incomplete(rows[k], keepAll) && IdOf(rows[k]) == id
  {
    set k | 0 <= k < |rows| && Incomplete(rows[k], keepAll) :: IdOf(rows[k])
  }

  /** The rows whose cascade is in `ids` (`inside`) or not in it, in
      their order: `data[data.cascade_id.isin(ids)]` or its negation. */
  function Select(rows: seq<Row>, ids: set<Json>, inside: bool): (sel: seq<Row>)
    ensures forall r :: r in sel <==> r in rows && (IdOf(r) in ids) == inside
    ensures |sel| <= |rows|
    decreases |rows|
  {
    if |rows| == 0 then []
    else
      var last := |rows| - 1;
      var rest := Select(rows[..last], ids, inside);
      if (IdOf(rows[last]) in ids) == inside then rest + [rows[last]] else rest
  }

  /** The number of rows of the cascade `id`. */
  function Count(rows: seq<Row>, id: Json): (n: nat)
    ensures n <= |rows|
    decreases |rows|
  {
    if |rows| == 0 then 0
    else
      var last := |rows| - 1;
      Count(rows[..last], id) + (if IdOf(rows[last]) == id then 1 else 0)
  }

  /** Selecting by cascade keeps a selected cascade whole. */
  lemma {:induction false} SelectKeepsCount(rows: seq<Row>, ids: set<Json>, inside: bool, id: Json)
    requires (id in ids) == inside
    ensures Count(Select(rows, ids, inside), id) == Count(rows, id)
    decreases |rows|
  {
    if |rows| > 0 {
      SelectKeepsCount(rows[..|rows| - 1], ids, inside, id);
      SelectCountStep(rows, ids, inside, id);
    }
  }

  lemma SelectCountStep(rows: seq<Row>, ids: set<Json>, inside: bool, id: Json)
    requires |rows| > 0 && (id in ids) == inside
    requires Count(Select(rows[..|rows| - 1], ids, inside), id) == Count(rows[..|rows| - 1], id)
    ensures Count(Select(rows, ids, inside), id) == Count(rows, id)
  {
    var last := |rows| - 1;
    var rest := Select(rows[..last], ids, inside);
    if (IdOf(rows[last]) in ids) == inside {
      assert Select(rows, ids, inside) == rest + [rows[last]];
      CountSnoc(rest, rows[last], id);
    } else {
      assert Select(rows, ids, inside) == rest;
      assert IdOf(rows[last]) != id;
    }
  }

  /** One more row adds one to the count of its own cascade only. */
  lemma CountSnoc(xs: seq<Row>, r: Row, id: Json)
    ensures Count(xs + [r], id) == Count(xs, id) + (if IdOf(r) == id then 1 else 0)
  {
    assert (xs + [r])[..|xs|] == xs;
  }

  /** The cascades with more than one row (`groupby` leaves out rows
      without a cascade id). */
  function LongIds(rows: seq<Row>): (ids: set<Json>)
    ensures forall id :: id in ids <==> id != JNull && Count(rows, id) > 1 && exists k :: 0 <= k < |rows| && IdOf(rows[k]) == id
  {
    set k | 0 <= k < |rows| && IdOf(rows[k]) != JNull && Count(rows, IdOf(rows[k])) > 1 :: IdOf(rows[k])
  }

  /** The cascades of the table, `data["cascade_id"].unique()` without
      the missing id (which `nunique` does not count). */
  function Cascades(rows: seq<Row>): (ids: set<Json>)
    ensures forall id :: id in ids <==> id != JNull && exists k :: 0 <= k < |rows| && IdOf(rows[k]) == id
  {
    set k | 0 <= k < |rows| && IdOf(rows[k]) != JNull :: IdOf(rows[k])
  }

  /** Preparing the cells leaves every cascade id as it was. */
  lemma PreparedKeepsIds(rows: seq<Row>, keepAll: bool)
    ensures forall k :: 0 <= k < |rows| ==> IdOf(Prepared(rows, keepAll)[k]) == IdOf(rows[k])
    ensures Cascades(Prepared(rows, keepAll)) == Cascades(rows)
  {
    var data := Prepared(rows, keepAll);
    assert CascadeIdColumn != VeracityColumn && CascadeIdColumn !in ColumnsWithNone;
    assert forall k :: 0 <= k < |rows| ==> IdOf(data[k]) == IdOf(rows[k]);
  }

  /** Selecting by cascade keeps exactly the selected cascades. */
  lemma SelectCascades(rows: seq<Row>, ids: set<Json>, inside: bool)
    ensures forall id :: id in Cascades(Select(rows, ids, inside)) <==> id in Cascades(rows) && (id in ids) == inside
  {
    var sel := Select(rows, ids, inside);
    forall id | id in Cascades(rows) && (id in ids) == inside
      ensures id in Cascades(sel)
    {
      var k :| 0 <= k < |rows| && IdOf(rows[k]) == id;
      assert rows[k] in sel;
      var i :| 0 <= i < |sel| && sel[i] == rows[k];
    }
    forall id | id in Cascades(sel)
      ensures id in Cascades(rows) && (id in ids) == inside
    {
      var i :| 0 <= i < |sel| && IdOf(sel[i]) == id;
      assert sel[i] in sel;
      var k :| 0 <= k < |rows| && rows[k] == sel[i];
    }
  }

  /** The table the script saves (before the type conversions), when it
      gets that far. */
  function SavedRows(rows: seq<Row>, keepAll: bool): (out: seq<Row>)
    ensures |out| <= |rows|
  {
    var data := Prepared(rows, keepAll);
    var kept := Select(data, MissingIds(data, keepAll), false);
    if keepAll then kept else Select(kept, LongIds(kept), true)
  }

  /** The cleaning run: the share of cascades with missing information
      divides by the number of cascades, which raises ZeroDivisionError on
      a table without cascade ids; in full mode the share of cascades of
      length one divides by the number of cascades left, which raises when
      every cascade had missing information.  Otherwise the saved table. */
  function CleanRows(rows: seq<Row>, keepAll: bool): (r: Result<seq<Row>>)
    ensures r.Err? <==> Cascades(rows) == {} || (!keepAll && Cascades(rows) <= MissingIds(Prepared(rows, false), false))
    ensures r.Err? ==> r.error == ZeroDivisionError
    ensures r.Ok? ==> r.value == SavedRows(rows, keepAll)
  {
    var data := Prepared(rows, keepAll);
    PreparedKeepsIds(rows, keepAll);
    if Cascades(data) == {} then Err(ZeroDivisionError)
    else
      var kept := Select(data, MissingIds(data, keepAll), false);
      if keepAll then Ok(kept)
      else
        SelectCascades(data, MissingIds(data, keepAll), false);
        if Cascades(kept) == {} then Err(ZeroDivisionError)
        else Ok(Select(kept, LongIds(kept), true))
  }

  /** Keep-all mode: a row stays exactly when no row of its cascade has a
      missing veracity; rows missing other cells stay. */
  lemma KeepAllIff(rows: seq<Row>, r: Row)
    ensures var data := Prepared(rows, true);
            r in SavedRows(rows, true) <==>
              r in data && forall k :: 0 <= k < |data| && IdOf(data[k]) == IdOf(r) ==> DictGet(data[k], VeracityColumn) != JNull
  {
  }

  /** Full mode: a cascade with a missing cell anywhere is gone whole. */
  lemma FullDropsWholeCascades(rows: seq<Row>, r: Row)
    requires r in SavedRows(rows, false)
    ensures var data := Prepared(rows, false);
            forall k :: 0 <= k < |data| && IdOf(data[k]) == IdOf(r) ==> !Incomplete(data[k], false)
  {
  }

  /** Full mode: no saved row has a missing cell. */
  lemma FullHasNoMissing(rows: seq<Row>, r: Row)
    requires r in SavedRows(rows, false)
    ensures forall c :: c in r ==> r[c] != JNull
  {
    var data := Prepared(rows, false);
    assert !Incomplete(r, false);
  }

  /** Full mode: every saved cascade has more than one row, and all its
      rows from the input are there. */
  lemma FullCascadesLong(rows: seq<Row>, r: Row)
    requires r in SavedRows(rows, false)
    ensures var data := Prepared(rows, false);
            Count(SavedRows(rows, false), IdOf(r)) == Count(data, IdOf(r)) > 1
  {
    var data := Prepared(rows, false);
    var missing := MissingIds(data, false);
    var kept := Select(data, missing, false);
    var long := LongIds(kept);
    assert IdOf(r) in long && IdOf(r) !in missing;
    SelectKeepsCount(kept, long, true, IdOf(r));
    SelectKeepsCount(data, missing, false, IdOf(r));
  }

  /** Full mode, the converse: a complete cascade of two or more rows is
      saved whole. */
  lemma FullKeepsCompleteCascades(rows: seq<Row>, k: nat)
    requires var data := Prepared(rows, false);
             k < |data| && IdOf(data[k]) != JNull && Count(data, IdOf(data[k])) > 1 &&
             forall j :: 0 <= j < |data| && IdOf(data[j]) == IdOf(data[k]) ==> !Incomplete(data[j], false)
    ensures Prepared(rows, false)[k] in SavedRows(rows, false)
  {
    var data := Prepared(rows, false);
    var missing := MissingIds(data, false);
    var kept := Select(data, missing, false);
    CompleteCascadeKept(data, missing, k);
    assert Select(kept, LongIds(kept), true) == SavedRows(rows, false);
  }

  /** A row of a complete cascade of two or more rows survives both
      selections of full mode. */
  lemma CompleteCascadeKept(data: seq<Row>, missing: set<Json>, k: nat)
    requires missing == MissingIds(data, false)
    requires k < |data| && IdOf(data[k]) != JNull && Count(data, IdOf(data[k])) > 1
    requires forall j :: 0 <= j < |data| && IdOf(data[j]) == IdOf(data[k]) ==> !Incomplete(data[j], false)
    ensures var kept := Select(data, missing, false);
            data[k] in Select(kept, LongIds(kept), true)
  {
    var id := IdOf(data[k]);
    assert id !in missing;
    var kept := Select(data, missing, false);
    SelectKeepsCount(data, missing, false, id);
    assert data[k] in kept;
    var i :| 0 <= i < |kept| && kept[i] == data[k];
    assert id in LongIds(kept);
  }

  /** The files written: two halves in keep-all mode, one file otherwise. */
  function OutputNames(keepAll: bool): (names: seq<string>)
    ensures keepAll <==> |names| == 2
  {
    if keepAll then ["v_00_clean_raw_data_anon_ALL.parquet", "v_01_clean_raw_data_anon_ALL.parquet"]
    else ["clean_raw_data_anon.parquet"]
  }
}
