/**
  The worksheet as a grid of text cells with 1-based row and column numbers
  (row 1 is the header), the reads the adapter makes of it (one cell, one
  column, the header row), the header map, the id-to-row index and the
  first-match scan (app_v6_deploy.py).
 */
module Grid {
  import opened Wrappers
  import opened Text

  /** The stored rows of a worksheet; row `r` is `rows[r - 1]`, rows may differ in length. */
  type Rows = seq<seq<string>>

  /** The text of cell (r, c); a cell outside the stored rows is empty. */
  function Cell(rows: Rows, r: int, c: int): string
  {
    if 1 <= r <= |rows| && 1 <= c <= |rows[r - 1]| then rows[r - 1][c - 1] else ""
  }

  /** gspread `cell(r, c).value`: `None` for an empty cell. */
  function CellValue(rows: Rows, r: int, c: int): (v: Option<string>)
    ensures v.None? <==> Cell(rows, r, c) == ""
  {
    if Cell(rows, r, c) == "" then None else Some(Cell(rows, r, c))
  }

  /** Python `str(v)` of an optional cell value. */
  function PyStr(v: Option<string>): string
  {
    match v
    case None => "None"
    case Some(s) => s
  }

  /** A list without its trailing empty strings (the Sheets API omits them). */
  function TrimTrailing(s: seq<string>): (r: seq<string>)
    ensures |r| <= |s| && r == s[..|r|]
    ensures r == [] || r[|r| - 1] != ""
    ensures forall i :: |r| <= i < |s| ==> s[i] == ""
  {
    if s == [] || s[|s| - 1] != "" then s else TrimTrailing(s[..|s| - 1])
  }

  /** gspread `col_values(c)`: the cells of column `c` from row 1 down to its last non-empty cell. */
  function ColValues(rows: Rows, c: int): (col: seq<string>)
    ensures |col| <= |rows|
    ensures forall i :: 0 <= i < |col| ==> col[i] == Cell(rows, i + 1, c)
    ensures forall r :: |col| < r <= |rows| ==> Cell(rows, r, c) == ""
  {
    var full := seq(|rows|, i requires 0 <= i < |rows| => Cell(rows, i + 1, c));
    assert forall r :: 1 <= r <= |rows| ==> Cell(rows, r, c) == full[r - 1];
    TrimTrailing(full)
  }

  /** gspread `row_values(1)`: the header cells up to the last non-empty one. */
  function HeaderRow(rows: Rows): (h: seq<string>)
    ensures forall i :: 0 <= i < |h| ==> h[i] == Cell(rows, 1, i + 1)
  {
    if rows == [] then [] else TrimTrailing(rows[0])
  }

  /** Python `str(v).strip()` applied to every entry of a list. */
  function StripAll(s: seq<string>): (r: seq<string>)
    ensures |r| == |s| && forall i :: 0 <= i < |s| ==> r[i] == Strip(s[i])
  {
    seq(|s|, i requires 0 <= i < |s| => Strip(s[i]))
  }

  /**
    `m` maps each non-empty key at 0-based index `skip` or later to the
    1-based position of its last occurrence, and maps nothing else.
   */
  predicate PositionsOf(m: map<string, int>, keys: seq<string>, skip: nat)
  {
    Located(m, keys, skip) && NoLaterCopy(m, keys) && Covered(m, keys, skip)
  }

  /** Each key of `m` is non-empty and sits at its position, past `skip`. */
  predicate Located(m: map<string, int>, keys: seq<string>, skip: nat)
  {
    forall k :: k in m ==> k != "" && skip < m[k] <= |keys| && keys[m[k] - 1] == k
  }

  /** No key of `m` occurs again after its position. */
  predicate NoLaterCopy(m: map<string, int>, keys: seq<string>)
  {
    forall k, i :: k in m && 0 <= m[k] <= i < |keys| ==> keys[i] != k
  }

  /** Every non-empty key from index `skip` on is in `m`. */
  predicate Covered(m: map<string, int>, keys: seq<string>, skip: nat)
  {
    forall i :: skip <= i < |keys| && keys[i] != "" ==> keys[i] in m
  }

  /**
    Each non-empty key at 0-based index `skip` or later mapped to its 1-based
    position; a later duplicate overwrites an earlier one. With the stripped
    header row and `skip` 0 this is `get_header_map`; with the stripped id
    column and `skip` 1 (the header row skipped) it is the index that
    `quest_id_to_row_map` builds.
   */
  function LastPositions(keys: seq<string>, skip: nat): (m: map<string, int>)
    ensures PositionsOf(m, keys, skip)
  {
    if |keys| <= skip then map[]
    else
      var m := LastPositions(keys[..|keys| - 1], skip);
      ExtendPositions(keys, skip, m);
      if keys[|keys| - 1] != "" then m[keys[|keys| - 1] := |keys|] else m
  }

  /** Position maps grow key by key: the map of a prefix, updated with the next key when it is not empty. */
  lemma ExtendPositions(keys: seq<string>, skip: nat, m: map<string, int>)
    requires skip < |keys| && PositionsOf(m, keys[..|keys| - 1], skip)
    ensures PositionsOf(if keys[|keys| - 1] != "" then m[keys[|keys| - 1] := |keys|] else m, keys, skip)
  {
    ExtendLocated(keys, skip, m);
    ExtendNoLaterCopy(keys, skip, m);
    ExtendCovered(keys, skip, m);
  }

  lemma ExtendLocated(keys: seq<string>, skip: nat, m: map<string, int>)
    requires skip < |keys| && Located(m, keys[..|keys| - 1], skip)
    ensures Located(if keys[|keys| - 1] != "" then m[keys[|keys| - 1] := |keys|] else m, keys, skip)
  {
    var n := |keys| - 1;
    var prefix := keys[..n];
    var k := keys[n];
    var m' := if k != "" then m[k := |keys|] else m;
    forall k' | k' in m' ensures k' != "" && skip < m'[k'] <= |keys| && keys[m'[k'] - 1] == k' {
      if k' != k || k == "" {
        assert prefix[m[k'] - 1] == k';
      }
    }
  }

  lemma ExtendNoLaterCopy(keys: seq<string>, skip: nat, m: map<string, int>)
    requires skip < |keys| && Located(m, keys[..|keys| - 1], skip) && NoLaterCopy(m, keys[..|keys| - 1])
    ensures NoLaterCopy(if keys[|keys| - 1] != "" then m[keys[|keys| - 1] := |keys|] else m, keys)
  {
    var n := |keys| - 1;
    var prefix := keys[..n];
    var k := keys[n];
    var m' := if k != "" then m[k := |keys|] else m;
    forall k', i | k' in m' && m'[k'] <= i < |keys| ensures keys[i] != k' {
      if i < n {
        assert k' != k || k == "";
        assert prefix[i] != k';
      }
    }
  }

  lemma ExtendCovered(keys: seq<string>, skip: nat, m: map<string, int>)
    requires skip < |keys| && Covered(m, keys[..|keys| - 1], skip)
    ensures Covered(if keys[|keys| - 1] != "" then m[keys[|keys| - 1] := |keys|] else m, keys, skip)
  {
    var n := |keys| - 1;
    assert forall i :: skip <= i < n ==> keys[..n][i] == keys[i];
  }

  /** One more key: the map of a prefix, updated when the key counts. */
  lemma LastPositionsStep(keys: seq<string>, skip: nat, i: nat)
    requires i < |keys|
    ensures LastPositions(keys[..i + 1], skip) ==
      if i < skip || keys[i] == "" then LastPositions(keys[..i], skip)
      else LastPositions(keys[..i], skip)[keys[i] := i + 1]
  {
    assert keys[..i + 1][..i] == keys[..i];
  }

  /** The stripped column read by `col_values` holds the stripped cells. */
  lemma StrippedColumn(rows: Rows, c: int, j: int)
    requires 0 <= j < |ColValues(rows, c)|
    ensures |StripAll(ColValues(rows, c))| == |ColValues(rows, c)|
    ensures StripAll(ColValues(rows, c))[j] == Strip(Cell(rows, j + 1, c))
  {
  }

  /** Two keys of a position map never share a position: each header has a column of its own. */
  lemma LastPositionsInjective(keys: seq<string>, skip: nat, a: string, b: string)
    requires a in LastPositions(keys, skip) && b in LastPositions(keys, skip) && a != b
    ensures LastPositions(keys, skip)[a] != LastPositions(keys, skip)[b]
  {
  }

  /** `get_header_map(ws)`: stripped non-empty header name to its 1-based column. */
  function HeaderMap(rows: Rows): (m: map<string, int>)
    ensures forall k :: k in m ==> k != "" && m[k] >= 1 && Strip(Cell(rows, 1, m[k])) == k
    ensures forall c :: 1 <= c <= |HeaderRow(rows)| && Strip(Cell(rows, 1, c)) != "" ==>
              Strip(Cell(rows, 1, c)) in m && m[Strip(Cell(rows, 1, c))] >= c
  {
    var keys := StripAll(HeaderRow(rows));
    HeaderPositions(rows, keys, LastPositions(keys, 0));
    LastPositions(keys, 0)
  }

  /** The positions of the stripped header row, read back as header cells. */
  lemma HeaderPositions(rows: Rows, keys: seq<string>, m: map<string, int>)
    requires keys == StripAll(HeaderRow(rows)) && PositionsOf(m, keys, 0)
    ensures forall k :: k in m ==> k != "" && m[k] >= 1 && Strip(Cell(rows, 1, m[k])) == k
    ensures forall c :: 1 <= c <= |HeaderRow(rows)| && Strip(Cell(rows, 1, c)) != "" ==>
              Strip(Cell(rows, 1, c)) in m && m[Strip(Cell(rows, 1, c))] >= c
  {
    forall c | 1 <= c <= |HeaderRow(rows)| && Strip(Cell(rows, 1, c)) != ""
      ensures Strip(Cell(rows, 1, c)) in m && m[Strip(Cell(rows, 1, c))] >= c
    {
      assert keys[c - 1] == Strip(Cell(rows, 1, c));
    }
  }

  /** `max(hmap.values())`: the position of the last non-empty key, 0 when there is none. */
  function MaxPosition(keys: seq<string>): (n: nat)
    ensures n <= |keys|
    ensures n == 0 || keys[n - 1] != ""
    ensures forall i :: n <= i < |keys| ==> keys[i] == ""
  {
    if keys == [] || keys[|keys| - 1] != "" then |keys| else MaxPosition(keys[..|keys| - 1])
  }

  /** The position `MaxPosition` gives is the largest value of the map, and a value of it unless the map is empty. */
  lemma MaxPositionIsMax(keys: seq<string>)
    ensures forall k :: k in LastPositions(keys, 0) ==> LastPositions(keys, 0)[k] <= MaxPosition(keys)
    ensures MaxPosition(keys) > 0 ==>
      (keys[MaxPosition(keys) - 1] in LastPositions(keys, 0) &&
       LastPositions(keys, 0)[keys[MaxPosition(keys) - 1]] == MaxPosition(keys))
    ensures MaxPosition(keys) == 0 <==> LastPositions(keys, 0) == map[]
  {
    var n := MaxPosition(keys);
    var m := LastPositions(keys, 0);
    if n > 0 {
      assert keys[n - 1] in m;
    }
  }

  /** The 1-based position of the first key equal to `target` at 0-based index `i` or later. */
  function FirstMatchFrom(keys: seq<string>, target: string, i: nat): (r: Option<int>)
    ensures r.Some? ==> i < r.value <= |keys| && keys[r.value - 1] == target
    ensures r.Some? ==> forall j :: i <= j < r.value - 1 ==> keys[j] != target
    ensures r.None? ==> forall j :: i <= j < |keys| ==> keys[j] != target
    decreases |keys| - i
  {
    if i >= |keys| then None
    else if keys[i] == target then Some(i + 1)
    else FirstMatchFrom(keys, target, i + 1)
  }

  /**
    The scan and the index agree on where an id lives: the scan finds its
    first row, never below the row the index gives (its last), and the two
    coincide when no id occurs twice.
   */
  lemma ScanMeetsIndex(ids: seq<string>, id: string)
    requires id in LastPositions(ids, 1)
    ensures FirstMatchFrom(ids, id, 1).Some?
    ensures FirstMatchFrom(ids, id, 1).value <= LastPositions(ids, 1)[id]
    ensures (forall j, k :: 1 <= j < k < |ids| && ids[j] != "" ==> ids[j] != ids[k])
      ==> FirstMatchFrom(ids, id, 1).value == LastPositions(ids, 1)[id]
  {
  }

  /** One cell write of a batched update: a column and the text to put there. */
  datatype CellWrite = CellWrite(col: int, value: string)

  /** A row padded with empty cells to at least `n` cells. */
  function Pad(row: seq<string>, n: int): (p: seq<string>)
    ensures |p| >= n && |p| >= |row| && p[..|row|] == row
    ensures forall i :: |row| <= i < |p| ==> p[i] == ""
  {
    if |row| >= n then row else row + seq(n - |row|, _ => "")
  }

  /**
    The grid after putting `v` in cell (r, c), growing it with empty cells
    where needed; a position outside the sheet (row or column below 1) is
    not written.
   */
  function SetCell(rows: Rows, r: int, c: int, v: string): (g: Rows)
    ensures |g| >= |rows|
    ensures forall r', c' :: Cell(g, r', c') == if r' == r && c' == c && r >= 1 && c >= 1 then v else Cell(rows, r', c')
  {
    if r < 1 || c < 1 then rows
    else
      var grown := Pad2(rows, r);
      var row := Pad(grown[r - 1], c);
      grown[r - 1 := row[c - 1 := v]]
  }

  /** The grid grown with empty rows to at least `n` rows; no cell changes. */
  function Pad2(rows: Rows, n: int): (g: Rows)
    ensures |g| >= n && |g| >= |rows|
    ensures forall r, c :: Cell(g, r, c) == Cell(rows, r, c)
  {
    if |rows| >= n then rows else rows + seq(n - |rows|, _ => [])
  }

  /** Every column number lies in `1..n`. */
  predicate InRange(cols: seq<int>, n: int)
  {
    forall i :: 0 <= i < |cols| ==> 1 <= cols[i] <= n
  }

  /** A row in which each value stands in its 1-based column and every other cell is empty. */
  predicate Placed(row: seq<string>, cols: seq<int>, values: seq<string>)
    requires |cols| == |values|
  {
    (forall i :: 0 <= i < |cols| ==> 1 <= cols[i] <= |row| && row[cols[i] - 1] == values[i]) &&
    (forall j :: 0 <= j < |row| && j + 1 !in cols ==> row[j] == "")
  }

  /** The `i`-th value of a placed row, read back from its column. */
  lemma PlacedAt(row: seq<string>, cols: seq<int>, values: seq<string>, i: int)
    requires |cols| == |values| && Placed(row, cols, values) && 0 <= i < |cols|
    ensures 1 <= cols[i] <= |row| && row[cols[i] - 1] == values[i]
  {
  }

  /** Python `[""] * n`. */
  function Blank(n: nat): (row: seq<string>)
    ensures |row| == n && forall j :: 0 <= j < n ==> row[j] == ""
  {
    seq(n, _ => "")
  }

  /** `[""] * n` followed by `row[cols[i] - 1] = values[i]` for each `i` in order. */
  function Layout(n: nat, cols: seq<int>, values: seq<string>): (row: seq<string>)
    requires |cols| == |values| && InRange(cols, n)
    ensures |row| == n
  {
    if cols == [] then Blank(n)
    else Layout(n, cols[..|cols| - 1], values[..|cols| - 1])[cols[|cols| - 1] - 1 := values[|cols| - 1]]
  }

  /** One more assignment of a layout. */
  lemma LayoutStep(n: nat, cols: seq<int>, values: seq<string>, m: nat)
    requires m < |cols| == |values| && InRange(cols, n)
    ensures Layout(n, cols[..m + 1], values[..m + 1]) == Layout(n, cols[..m], values[..m])[cols[m] - 1 := values[m]]
  {
    assert cols[..m + 1][..m] == cols[..m];
    assert values[..m + 1][..m] == values[..m];
  }

  /** With distinct columns no assignment overwrites another: every value ends up in its column. */
  lemma {:induction false} LayoutPlaced(n: nat, cols: seq<int>, values: seq<string>)
    requires |cols| == |values| && InRange(cols, n)
    requires forall i, j :: 0 <= i < j < |cols| ==> cols[i] != cols[j]
    ensures Placed(Layout(n, cols, values), cols, values)
  {
    if cols != [] {
      var m := |cols| - 1;
      LayoutPlaced(n, cols[..m], values[..m]);
      var prev := Layout(n, cols[..m], values[..m]);
      var row := Layout(n, cols, values);
      assert row == prev[cols[m] - 1 := values[m]];
      forall i | 0 <= i < m ensures row[cols[i] - 1] == values[i] {
        assert cols[..m][i] == cols[i] && values[..m][i] == values[i];
      }
      forall j | 0 <= j < |row| && j + 1 !in cols ensures row[j] == "" {
        assert j + 1 !in cols[..m];
      }
    }
  }

  /** The last text written to column `c` by a list of writes, if any. */
  function LastWrite(writes: seq<CellWrite>, c: int): Option<string>
  {
    if writes == [] then None
    else if writes[|writes| - 1].col == c then Some(writes[|writes| - 1].value)
    else LastWrite(writes[..|writes| - 1], c)
  }

  /** A write appended to a batch is the last one to its column. */
  lemma LastWriteSnoc(writes: seq<CellWrite>, w: CellWrite, c: int)
    ensures LastWrite(writes + [w], c) == if w.col == c then Some(w.value) else LastWrite(writes, c)
  {
    assert (writes + [w])[..|writes|] == writes;
  }

  /** The text cell (r', c) holds after writes to row `r` of `rows`. */
  function WrittenOr(rows: Rows, r: int, writes: seq<CellWrite>, r': int, c: int): string
  {
    if r' == r && r >= 1 && c >= 1 && LastWrite(writes, c).Some? then LastWrite(writes, c).value else Cell(rows, r', c)
  }

  /** The grid after the writes of a batch to row `r`, applied in order. */
  function ApplyWrites(rows: Rows, r: int, writes: seq<CellWrite>): (g: Rows)
    ensures forall r', c :: Cell(g, r', c) == WrittenOr(rows, r, writes, r', c)
  {
    if writes == [] then rows
    else
      var w := writes[|writes| - 1];
      SetCell(ApplyWrites(rows, r, writes[..|writes| - 1]), r, w.col, w.value)
  }
}
