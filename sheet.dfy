/**
  The `quests` worksheet as the write path sees it: the cached id-to-row
  index, the cell-level status update with its stale-index guard, and the
  append of a new quest (app_v6_deploy.py).
 */
module QuestSheet {
  import opened Wrappers
  import opened Text
  import opened Grid
  import Quests
  import Normalize

  /** The index `quest_id_to_row_map` builds: stripped id in column 1 to its last row, the header row skipped. */
  function RowIndex(rows: Rows): (m: map<string, int>)
    ensures forall k :: k in m ==> m[k] >= 2
  {
    LastPositions(StripAll(ColValues(rows, 1)), 1)
  }

  /** An index as a cache can hold it: no id is mapped to the header row or above. */
  predicate IndexBelowHeader(m: map<string, int>)
  {
    forall k :: k in m ==> m[k] >= 2
  }

  /** The index a lookup sees: the cached one if present, else a fresh one. */
  function IndexFor(cache: Option<map<string, int>>, rows: Rows): map<string, int>
  {
    if cache.Some? then cache.value else RowIndex(rows)
  }

  /** `hmap.get("id", 1)`: the column the id is read from. */
  function IdColumn(hmap: map<string, int>): int
  {
    if "id" in hmap then hmap["id"] else 1
  }

  /** `str(ws.cell(r, c).value).strip()`: the stripped cell, or `None` for an empty one. */
  function IdCellText(rows: Rows, r: int, c: int): (t: string)
    ensures Cell(rows, r, c) != "" ==> t == Strip(Cell(rows, r, c))
  {
    Strip(PyStr(CellValue(rows, r, c)))
  }

  /** The row a scan of column `idCol` finds holds the target, and no row above it (below the header) does. */
  lemma ScanFindsFirst(rows: Rows, idCol: int, target: string)
    requires FirstMatchFrom(StripAll(ColValues(rows, idCol)), target, 1).Some?
    ensures var t := FirstMatchFrom(StripAll(ColValues(rows, idCol)), target, 1).value;
            t >= 2 && Strip(Cell(rows, t, idCol)) == target &&
            forall j :: 2 <= j < t ==> Strip(Cell(rows, j, idCol)) != target
  {
    var t := FirstMatchFrom(StripAll(ColValues(rows, idCol)), target, 1).value;
    StrippedColumn(rows, idCol, t - 1);
    forall j | 2 <= j < t ensures Strip(Cell(rows, j, idCol)) != target {
      StrippedColumn(rows, idCol, j - 1);
    }
  }

  /** A scan finds nothing when no row below the header holds the target. */
  lemma ScanFindsNone(rows: Rows, idCol: int, target: string)
    requires forall j :: 2 <= j <= |rows| ==> Strip(Cell(rows, j, idCol)) != target
    ensures FirstMatchFrom(StripAll(ColValues(rows, idCol)), target, 1).None?
  {
    var keys := StripAll(ColValues(rows, idCol));
    forall j | 1 <= j < |keys| ensures keys[j] != target {
      StrippedColumn(rows, idCol, j);
    }
  }

  /**
    The row an update lands on: the indexed row when its id cell (read as
    `str(cell.value).strip()`) still holds the id, otherwise the first row
    below the header whose id cell does; `None` when the id is not indexed
    or no row holds it.
   */
  function TargetRow(rows: Rows, idCol: int, index: map<string, int>, questId: string): (r: Option<int>)
    ensures questId !in index ==> r.None?
    ensures questId in index && IdCellText(rows, index[questId], idCol) == Strip(questId) ==> r == Some(index[questId])
  {
    if questId !in index then None
    else if IdCellText(rows, index[questId], idCol) == Strip(questId) then Some(index[questId])
      else FirstMatchFrom(StripAll(ColValues(rows, idCol)), Strip(questId), 1)
  }

  /**
    The writes of one status update: the status, the claimant when one is
    given, the joined teammates when a list is given, or an empty teammate
    cell when the quest is reopened without one. `None` when a header it
    needs is missing (the `KeyError` the source turns into a failure).
   */
  function StatusWrites(hmap: map<string, int>, newStatus: string, hunterId: Option<string>,
                        partnerList: Option<seq<string>>): (w: Option<seq<CellWrite>>)
    ensures w.Some? <==> "status" in hmap && (hunterId.Some? ==> "hunter_id" in hmap) &&
                         ((partnerList.Some? || newStatus == "Open") ==> "partner_id" in hmap)
    ensures w.Some? ==> 1 <= |w.value| <= 3 && w.value[0] == CellWrite(hmap["status"], newStatus)
  {
    if "status" !in hmap then None
    else
      var w0 := [CellWrite(hmap["status"], newStatus)];
      if hunterId.Some? && "hunter_id" !in hmap then None
      else
        var w1 := if hunterId.Some? then w0 + [CellWrite(hmap["hunter_id"], hunterId.value)] else w0;
        if (partnerList.Some? || newStatus == "Open") && "partner_id" !in hmap then None
        else if partnerList.Some? then Some(w1 + [CellWrite(hmap["partner_id"], JoinNames(partnerList.value))])
        else if newStatus == "Open" then Some(w1 + [CellWrite(hmap["partner_id"], "")])
        else Some(w1)
  }

  /** A planned batch: the row and the writes to it. */
  datatype Batch = Batch(row: int, writes: seq<CellWrite>)

  /** `update_quest_status` as a plan: where it writes and what, or `None` when it reports failure. */
  function StatusPlan(rows: Rows, hmap: map<string, int>, index: map<string, int>, questId: string,
                      newStatus: string, hunterId: Option<string>, partnerList: Option<seq<string>>): (b: Option<Batch>)
    ensures b.Some? <==> TargetRow(rows, IdColumn(hmap), index, questId).Some? &&
                         StatusWrites(hmap, newStatus, hunterId, partnerList).Some?
    ensures b.Some? ==> b.value.row == TargetRow(rows, IdColumn(hmap), index, questId).value &&
                        b.value.writes == StatusWrites(hmap, newStatus, hunterId, partnerList).value
  {
    var target := TargetRow(rows, IdColumn(hmap), index, questId);
    var writes := StatusWrites(hmap, newStatus, hunterId, partnerList);
    if target.None? || writes.None? then None else Some(Batch(target.value, writes.value))
  }

  /** The text the teammate cell gets from an update, if it gets one. */
  function PartnerText(newStatus: string, partnerList: Option<seq<string>>): Option<string>
  {
    if partnerList.Some? then Some(JoinNames(partnerList.value))
    else if newStatus == "Open" then Some("")
    else None
  }

  /** No two header names share a column. */
  predicate DistinctColumns(hmap: map<string, int>)
  {
    forall a, b :: a in hmap && b in hmap && a != b ==> hmap[a] != hmap[b]
  }

  lemma HeaderMapDistinct(rows: Rows)
    ensures DistinctColumns(HeaderMap(rows))
    ensures forall k :: k in HeaderMap(rows) ==> HeaderMap(rows)[k] >= 1
  {
    forall a, b | a in HeaderMap(rows) && b in HeaderMap(rows) && a != b
      ensures HeaderMap(rows)[a] != HeaderMap(rows)[b]
    {
      LastPositionsInjective(StripAll(HeaderRow(rows)), 0, a, b);
    }
  }

  /** What a status update writes to column `c` of its row, when the header columns are distinct. */
  lemma StatusWritesLast(hmap: map<string, int>, newStatus: string, hunterId: Option<string>,
                         partnerList: Option<seq<string>>, c: int)
    requires DistinctColumns(hmap)
    requires StatusWrites(hmap, newStatus, hunterId, partnerList).Some?
    ensures LastWrite(StatusWrites(hmap, newStatus, hunterId, partnerList).value, c) ==
      if c == hmap["status"] then Some(newStatus)
      else if hunterId.Some? && c == hmap["hunter_id"] then Some(hunterId.value)
      else if PartnerText(newStatus, partnerList).Some? && c == hmap["partner_id"] then PartnerText(newStatus, partnerList)
      else None
  {
    var w0 := [CellWrite(hmap["status"], newStatus)];
    var w1 := if hunterId.Some? then w0 + [CellWrite(hmap["hunter_id"], hunterId.value)] else w0;
    LastWriteSnoc([], CellWrite(hmap["status"], newStatus), c);
    if hunterId.Some? {
      LastWriteSnoc(w0, CellWrite(hmap["hunter_id"], hunterId.value), c);
    }
    if PartnerText(newStatus, partnerList).Some? {
      LastWriteSnoc(w1, CellWrite(hmap["partner_id"], PartnerText(newStatus, partnerList).value), c);
    }
  }

  /**
    A status batch applied to row `row` changes exactly that row's status
    cell, its claimant cell when a claimant is given and its teammate cell
    when a list is given or the quest is reopened; every other cell keeps its
    text.
   */
  lemma StatusBatchEffect(rows: Rows, h: map<string, int>, row: int, newStatus: string,
                          hunterId: Option<string>, partnerList: Option<seq<string>>, r: int, c: int)
    requires row >= 1 && DistinctColumns(h) && forall k :: k in h ==> h[k] >= 1
    requires StatusWrites(h, newStatus, hunterId, partnerList).Some?
    ensures var writes := StatusWrites(h, newStatus, hunterId, partnerList).value;
            Cell(ApplyWrites(rows, row, writes), r, c) ==
              if r == row && c == h["status"] then newStatus
              else if r == row && hunterId.Some? && c == h["hunter_id"] then hunterId.value
              else if r == row && PartnerText(newStatus, partnerList).Some? && c == h["partner_id"]
                then PartnerText(newStatus, partnerList).value
              else Cell(rows, r, c)
  {
    var writes := StatusWrites(h, newStatus, hunterId, partnerList).value;
    StatusWritesLast(h, newStatus, hunterId, partnerList, c);
    assert Cell(ApplyWrites(rows, row, writes), r, c) == WrittenOr(rows, row, writes, r, c);
  }

  /** A target row is never the header row. */
  lemma TargetRowBelowHeader(rows: Rows, idCol: int, index: map<string, int>, questId: string)
    requires IndexBelowHeader(index)
    requires TargetRow(rows, idCol, index, questId).Some?
    ensures TargetRow(rows, idCol, index, questId).value >= 2
  {
  }

  /**
    The update lands on a row whose id cell holds the quest id (after
    stripping), and when the indexed row no longer does, on the first such
    row below the header. The one exception is an id that strips to the text
    `None`, which an empty id cell also matches, because the cell is read as
    `str(None)`.
   */
  lemma UpdateTargetsMatchingRow(rows: Rows, idCol: int, index: map<string, int>, questId: string)
    requires IndexBelowHeader(index)
    requires Strip(questId) != "None"
    requires TargetRow(rows, idCol, index, questId).Some?
    ensures var t := TargetRow(rows, idCol, index, questId).value;
            t >= 2 && Strip(Cell(rows, t, idCol)) == Strip(questId) &&
            (t != index[questId] ==> forall j :: 2 <= j < t ==> Strip(Cell(rows, j, idCol)) != Strip(questId))
  {
    if IdCellText(rows, index[questId], idCol) != Strip(questId) {
      ScanFindsFirst(rows, idCol, Strip(questId));
    } else {
      IdCellMatches(rows, index[questId], idCol, questId);
    }
  }

  /** An id cell read as the stripped id holds that id, unless the id strips to `None`. */
  lemma IdCellMatches(rows: Rows, r: int, c: int, questId: string)
    requires Strip(questId) != "None" && IdCellText(rows, r, c) == Strip(questId)
    ensures Strip(Cell(rows, r, c)) == Strip(questId)
  {
    if Cell(rows, r, c) == "" {
      assert CellValue(rows, r, c).None?;
      StripNone();
    }
  }

  /** The text of an empty cell is its own strip. */
  lemma StripNone()
    ensures Strip("None") == "None"
  {
    StripNoSpaceEnds("None");
  }

  /**
    An update reports failure, and writes nothing, when the id is not
    indexed, or when the indexed row no longer holds it and no row below the
    header does.
   */
  lemma UpdateFailsWhenNotFound(rows: Rows, h: map<string, int>, index: map<string, int>, questId: string,
                                newStatus: string, hunterId: Option<string>, partnerList: Option<seq<string>>)
    requires questId !in index ||
             (IdCellText(rows, index[questId], IdColumn(h)) != Strip(questId) &&
              forall j :: 2 <= j <= |rows| ==> Strip(Cell(rows, j, IdColumn(h))) != Strip(questId))
    ensures StatusPlan(rows, h, index, questId, newStatus, hunterId, partnerList).None?
  {
    if questId in index {
      ScanFindsNone(rows, IdColumn(h), Strip(questId));
    }
  }

  /** An update reports failure when the sheet has no `status` header. */
  lemma UpdateNeedsStatusHeader(rows: Rows, h: map<string, int>, index: map<string, int>, questId: string,
                                newStatus: string, hunterId: Option<string>, partnerList: Option<seq<string>>)
    requires "status" !in h
    ensures StatusPlan(rows, h, index, questId, newStatus, hunterId, partnerList).None?
  {
  }

  /** The values a new quest row holds, in the order of `Quests.QuestCols`. */
  function NewQuestValues(qId: string, title: string, quote: string, desc: string, category: string,
                          pointsText: string, now: string): (v: seq<string>)
    ensures |v| == |Quests.QuestCols|
  {
    [qId, title, quote, desc, category, pointsText, "Open", "", now, ""]
  }

  /** Every required header is present. */
  predicate HasQuestHeaders(hmap: map<string, int>)
  {
    forall i :: 0 <= i < |Quests.QuestCols| ==> Quests.QuestCols[i] in hmap
  }

  /** The columns of the quest fields under the header map, in the order of `Quests.QuestCols`. */
  function QuestColumns(hmap: map<string, int>): (cols: seq<int>)
    requires HasQuestHeaders(hmap)
    ensures |cols| == |Quests.QuestCols|
  {
    seq(|Quests.QuestCols|, i requires 0 <= i < |Quests.QuestCols| => hmap[Quests.QuestCols[i]])
  }

  /** A quest row added with a non-blank id in column 1 is found by a fresh index at the appended row. */
  lemma AddedQuestIsIndexed(rows: Rows, row: seq<string>, qId: string)
    requires rows != [] && |row| >= 1 && row[0] == qId && Strip(qId) != ""
    ensures Strip(qId) in RowIndex(rows + [row])
    ensures RowIndex(rows + [row])[Strip(qId)] == |rows| + 1
  {
    var g := rows + [row];
    var col := ColValues(g, 1);
    assert Cell(g, |g|, 1) == qId;
    assert |col| == |g|;
    var keys := StripAll(col);
    assert keys[|g| - 1] == Strip(qId);
  }

  /**
    The `quests` worksheet together with the process-wide cache of its id
    index. `rows` may also be changed by others (rows inserted or deleted by
    hand), which the cache does not see until it is invalidated.
   */
  class Worksheet {
    var rows: Rows
    var cache: Option<map<string, int>>

    /** A cached index never points at the header row. */
    ghost predicate Valid()
      reads this
    {
      cache.Some? ==> IndexBelowHeader(cache.value)
    }

    constructor(initial: Rows)
      ensures rows == initial && cache == None && Valid()
    {
      rows := initial;
      cache := None;
    }

    /** `invalidate_cache`: the next lookup rebuilds the index. */
    method Invalidate()
      modifies this
      ensures rows == old(rows) && cache == None && Valid()
    {
      cache := None;
    }

    /** The body of `quest_id_to_row_map`: one pass over column 1, later rows overwriting earlier ones. */
    method BuildRowIndex() returns (m: map<string, int>)
      ensures m == RowIndex(rows)
      ensures forall k :: k in m ==> m[k] >= 2
    {
      var values := ColValues(rows, 1);
      ghost var keys := StripAll(values);
      m := map[];
      var i := 0;
      while i < |values|
        invariant 0 <= i <= |values|
        invariant m == LastPositions(keys[..i], 1)
      {
        var v := Strip(values[i]);
        LastPositionsStep(keys, 1, i);
        if i + 1 != 1 && v != "" {
          m := m[v := i + 1];
        }
        i := i + 1;
      }
      assert keys[..|values|] == keys;
    }

    /** `quest_id_to_row_map()` through its cache. */
    method RowMap() returns (m: map<string, int>)
      requires Valid()
      modifies this
      ensures m == IndexFor(old(cache), old(rows))
      ensures rows == old(rows) && cache == Some(m) && Valid()
    {
      if cache.Some? {
        m := cache.value;
      } else {
        m := BuildRowIndex();
        cache := Some(m);
      }
    }

    /** `_resolve_row_by_scan`: the first row below the header whose id cell strips to the quest id. */
    method ResolveRowByScan(idCol: int, questId: string) returns (r: Option<int>)
      ensures r == FirstMatchFrom(StripAll(ColValues(rows, idCol)), Strip(questId), 1)
      ensures r.Some? ==> r.value >= 2 && Strip(Cell(rows, r.value, idCol)) == Strip(questId)
    {
      var ids := ColValues(rows, idCol);
      ghost var keys := StripAll(ids);
      var target := Strip(questId);
      var i := 0;
      while i < |ids|
        invariant 0 <= i <= |ids|
        invariant FirstMatchFrom(keys, target, 1) == FirstMatchFrom(keys, target, if i < 1 then 1 else i)
      {
        if i + 1 != 1 && Strip(ids[i]) == target {
          assert keys[i] == Strip(Cell(rows, i + 1, idCol));
          return Some(i + 1);
        }
        i := i + 1;
      }
      return None;
    }

    /** `batch_update` on one row: the writes applied in order, padding the grid where needed. */
    method BatchUpdate(row: int, writes: seq<CellWrite>)
      modifies this
      ensures rows == ApplyWrites(old(rows), row, writes) && cache == old(cache)
    {
      var i := 0;
      while i < |writes|
        invariant 0 <= i <= |writes|
        invariant rows == ApplyWrites(old(rows), row, writes[..i]) && cache == old(cache)
      {
        assert writes[..i + 1][..i] == writes[..i];
        rows := SetCell(rows, row, writes[i].col, writes[i].value);
        i := i + 1;
      }
      assert writes[..|writes|] == writes;
    }

    /**
      The row lookup of `update_quest_status`: the indexed row, checked
      against its id cell, with a scan for the id when the check fails.
     */
    method LocateRow(index: map<string, int>, idCol: int, questId: string) returns (t: Option<int>)
      requires IndexBelowHeader(index)
      ensures t == TargetRow(rows, idCol, index, questId)
      ensures t.Some? ==> t.value >= 2
    {
      if questId !in index {
        return None;
      }
      var rowNum := index[questId];
      var cellVal := CellValue(rows, rowNum, idCol);
      if Strip(PyStr(cellVal)) != Strip(questId) {
        t := ResolveRowByScan(idCol, questId);
      } else {
        t := Some(rowNum);
      }
    }

    /**
      `update_quest_status`: locate the row through the index (re-scanning
      when the indexed row no longer holds the id), write the planned cells
      in one batch and invalidate the cache. On failure nothing is written.
     */
    method UpdateQuestStatus(questId: string, newStatus: string, hunterId: Option<string>,
                             partnerList: Option<seq<string>>) returns (ok: bool)
      requires Valid()
      modifies this
      ensures var plan := StatusPlan(old(rows), HeaderMap(old(rows)), IndexFor(old(cache), old(rows)),
                                     questId, newStatus, hunterId, partnerList);
              ok == plan.Some? &&
              (ok ==> plan.value.row >= 2 && rows == ApplyWrites(old(rows), plan.value.row, plan.value.writes)
                      && cache == None) &&
              (!ok ==> rows == old(rows) && cache == Some(IndexFor(old(cache), old(rows))))
      ensures Valid()
    {
      var mapping := RowMap();
      var hmap := HeaderMap(rows);
      var target := LocateRow(mapping, IdColumn(hmap), questId);
      if target.None? {
        return false;
      }
      var writes := StatusWrites(hmap, newStatus, hunterId, partnerList);
      if writes.None? {
        return false;
      }
      BatchUpdate(target.value, writes.value);
      Invalidate();
      return true;
    }

    /**
      `add_quest_to_sheet`: when every required header is present, append a
      row laid out by the header map (as wide as its rightmost named column),
      with the quote number normalised, the status `Open` and no claimant or
      teammates, and invalidate the cache; otherwise report failure and
      change nothing.
     */
    method AddQuest(title: string, quoteNo: string, desc: string, category: string, points: int,
                    qId: string, now: string) returns (ok: bool)
      modifies this
      ensures var planned := QuestRowFor(old(rows), title, quoteNo, desc, category, points, qId, now);
              if planned.Some? then ok && rows == old(rows) + [planned.value] && cache == None
              else !ok && rows == old(rows) && cache == old(cache)
    {
      var row := PlanQuestRow(rows, title, quoteNo, desc, category, points, qId, now);
      if row.None? {
        return false;
      }
      AppendRow(row.value);
      return true;
    }

    /** `append_row` followed by `invalidate_cache`. */
    method AppendRow(row: seq<string>)
      modifies this
      ensures rows == old(rows) + [row] && cache == None
    {
      rows := rows + [row];
      cache := None;
    }
  }

  /**
    The row `add_quest` appends: None when a quest header is missing, otherwise
    the ten values laid out under their columns in a row as wide as the
    rightmost named header.
   */
  function QuestRowFor(rows: Rows, title: string, quoteNo: string, desc: string, category: string,
                       points: int, qId: string, now: string): (row: Option<seq<string>>)
    ensures row.Some? <==> HasQuestHeaders(HeaderMap(rows))
    ensures row.Some? ==> |row.value| == MaxPosition(StripAll(HeaderRow(rows)))
  {
    var hmap := HeaderMap(rows);
    if !HasQuestHeaders(hmap) then None
    else
      var maxCol := MaxPosition(StripAll(HeaderRow(rows)));
      QuestColumnsInRange(rows);
      Some(Layout(maxCol, QuestColumns(hmap), NewQuestValues(qId, title, Normalize.NormalizeQuoteNo(quoteNo), desc, category, IntToString(points), now)))
  }

  /** Computes the row to append, without touching the sheet. */
  method PlanQuestRow(rows: Rows, title: string, quoteNo: string, desc: string, category: string,
                      points: int, qId: string, now: string) returns (row: Option<seq<string>>)
    ensures row == QuestRowFor(rows, title, quoteNo, desc, category, points, qId, now)
  {
    var hmap := HeaderMap(rows);
    if !HasQuestHeaders(hmap) {
      return None;
    }
    var maxCol := MaxPosition(StripAll(HeaderRow(rows)));
    QuestColumnsInRange(rows);
    var r := NewQuestRow(hmap, maxCol, title, quoteNo, desc, category, points, qId, now);
    return Some(r);
  }

  /** Every quest column lies between 1 and the rightmost named column. */
  lemma QuestColumnsInRange(rows: Rows)
    requires HasQuestHeaders(HeaderMap(rows))
    ensures InRange(QuestColumns(HeaderMap(rows)), MaxPosition(StripAll(HeaderRow(rows))))
  {
    MaxPositionIsMax(StripAll(HeaderRow(rows)));
  }

  /** Distinct headers give the quest fields distinct columns. */
  lemma QuestColumnsDistinct(hmap: map<string, int>)
    requires HasQuestHeaders(hmap) && DistinctColumns(hmap)
    ensures var k := QuestColumns(hmap);
            forall i, j :: 0 <= i < j < |k| ==> k[i] != k[j]
  {
    var c := Quests.QuestCols;
    assert forall i, j :: 0 <= i < j < |c| ==> c[i] != c[j];
  }

  /**
    The row `add_quest` appends holds each field in the column of its header
    and nothing anywhere else: the generated id, the title, the normalised
    quote number, the description, the category, the points, status `Open`,
    blank claimant and teammates, and the creation time.
   */
  lemma AddedRowPlacesFields(rows: Rows, title: string, quoteNo: string, desc: string, category: string,
                             points: int, qId: string, now: string)
    requires HasQuestHeaders(HeaderMap(rows))
    ensures var hmap := HeaderMap(rows);
            var row := QuestRowFor(rows, title, quoteNo, desc, category, points, qId, now).value;
            Placed(row, QuestColumns(hmap),
                   NewQuestValues(qId, title, Normalize.NormalizeQuoteNo(quoteNo), desc, category, IntToString(points), now))
  {
    HeaderLayoutPlaced(rows, NewQuestValues(qId, title, Normalize.NormalizeQuoteNo(quoteNo), desc, category, IntToString(points), now));
  }

  /** Any ten values laid out under the quest headers stand each in its own column. */
  lemma HeaderLayoutPlaced(rows: Rows, v: seq<string>)
    requires HasQuestHeaders(HeaderMap(rows)) && |v| == |Quests.QuestCols|
    ensures InRange(QuestColumns(HeaderMap(rows)), MaxPosition(StripAll(HeaderRow(rows))))
    ensures Placed(Layout(MaxPosition(StripAll(HeaderRow(rows))), QuestColumns(HeaderMap(rows)), v), QuestColumns(HeaderMap(rows)), v)
  {
    QuestColumnsInRange(rows);
    HeaderMapDistinct(rows);
    QuestColumnsDistinct(HeaderMap(rows));
    LayoutPlaced(MaxPosition(StripAll(HeaderRow(rows))), QuestColumns(HeaderMap(rows)), v);
  }

  /** In particular the appended row is `Open`, unclaimed, without teammates, and carries the normalised quote number. */
  lemma AddedRowIsOpen(rows: Rows, title: string, quoteNo: string, desc: string, category: string,
                       points: int, qId: string, now: string)
    requires HasQuestHeaders(HeaderMap(rows))
    ensures var hmap := HeaderMap(rows);
            var row := QuestRowFor(rows, title, quoteNo, desc, category, points, qId, now).value;
            "status" in hmap && "hunter_id" in hmap && "partner_id" in hmap && "quote_no" in hmap && "id" in hmap &&
            0 < hmap["status"] <= |row| && row[hmap["status"] - 1] == "Open" &&
            0 < hmap["hunter_id"] <= |row| && row[hmap["hunter_id"] - 1] == "" &&
            0 < hmap["partner_id"] <= |row| && row[hmap["partner_id"] - 1] == "" &&
            0 < hmap["quote_no"] <= |row| && row[hmap["quote_no"] - 1] == Normalize.NormalizeQuoteNo(quoteNo) &&
            0 < hmap["id"] <= |row| && row[hmap["id"] - 1] == qId
  {
    AddedRowPlacesFields(rows, title, quoteNo, desc, category, points, qId, now);
    PlacedQuestFields(HeaderMap(rows), QuestRowFor(rows, title, quoteNo, desc, category, points, qId, now).value,
                      qId, title, Normalize.NormalizeQuoteNo(quoteNo), desc, category, IntToString(points), now);
  }

  /** A row holding the new quest's values under the quest headers, read field by field. */
  lemma PlacedQuestFields(hmap: map<string, int>, row: seq<string>, qId: string, title: string, quote: string,
                          desc: string, category: string, pointsText: string, now: string)
    requires HasQuestHeaders(hmap)
    requires Placed(row, QuestColumns(hmap), NewQuestValues(qId, title, quote, desc, category, pointsText, now))
    ensures "status" in hmap && "hunter_id" in hmap && "partner_id" in hmap && "quote_no" in hmap && "id" in hmap &&
            0 < hmap["status"] <= |row| && row[hmap["status"] - 1] == "Open" &&
            0 < hmap["hunter_id"] <= |row| && row[hmap["hunter_id"] - 1] == "" &&
            0 < hmap["partner_id"] <= |row| && row[hmap["partner_id"] - 1] == "" &&
            0 < hmap["quote_no"] <= |row| && row[hmap["quote_no"] - 1] == quote &&
            0 < hmap["id"] <= |row| && row[hmap["id"] - 1] == qId
  {
    var c := Quests.QuestCols;
    assert c[0] == "id" && c[2] == "quote_no" && c[6] == "status" && c[7] == "hunter_id" && c[9] == "partner_id";
    var k := QuestColumns(hmap);
    var v := NewQuestValues(qId, title, quote, desc, category, pointsText, now);
    PlacedAt(row, k, v, 0);
    PlacedAt(row, k, v, 2);
    PlacedAt(row, k, v, 6);
    PlacedAt(row, k, v, 7);
    PlacedAt(row, k, v, 9);
  }

  /** A layout of ten fields, written out as its ten assignments. */
  lemma TenFieldLayout(n: nat, k: seq<int>, v: seq<string>)
    requires |k| == 10 == |v| && InRange(k, n)
    ensures Layout(n, k, v) == Blank(n)[k[0] - 1 := v[0]][k[1] - 1 := v[1]][k[2] - 1 := v[2]][k[3] - 1 := v[3]]
      [k[4] - 1 := v[4]][k[5] - 1 := v[5]][k[6] - 1 := v[6]][k[7] - 1 := v[7]][k[8] - 1 := v[8]][k[9] - 1 := v[9]]
  {
    FirstFiveFields(n, k, v);
    LayoutStep(n, k, v, 5);
    LayoutStep(n, k, v, 6);
    LayoutStep(n, k, v, 7);
    LayoutStep(n, k, v, 8);
    LayoutStep(n, k, v, 9);
    assert k[..10] == k && v[..10] == v;
  }

  /** The first five assignments of a ten-field layout. */
  lemma FirstFiveFields(n: nat, k: seq<int>, v: seq<string>)
    requires |k| == 10 == |v| && InRange(k, n)
    ensures Layout(n, k[..5], v[..5]) == Blank(n)[k[0] - 1 := v[0]][k[1] - 1 := v[1]][k[2] - 1 := v[2]][k[3] - 1 := v[3]]
      [k[4] - 1 := v[4]]
  {
    assert Layout(n, k[..0], v[..0]) == Blank(n);
    LayoutStep(n, k, v, 0);
    LayoutStep(n, k, v, 1);
    LayoutStep(n, k, v, 2);
    LayoutStep(n, k, v, 3);
    LayoutStep(n, k, v, 4);
  }

  /** The quest columns, header by header. */
  lemma QuestColumnsAt(hmap: map<string, int>)
    requires HasQuestHeaders(hmap)
    ensures var k := QuestColumns(hmap);
      "id" in hmap && "title" in hmap && "quote_no" in hmap && "description" in hmap && "rank" in hmap &&
      "points" in hmap && "status" in hmap && "hunter_id" in hmap && "created_at" in hmap && "partner_id" in hmap &&
      k[0] == hmap["id"] && k[1] == hmap["title"] && k[2] == hmap["quote_no"] && k[3] == hmap["description"] &&
      k[4] == hmap["rank"] && k[5] == hmap["points"] && k[6] == hmap["status"] && k[7] == hmap["hunter_id"] &&
      k[8] == hmap["created_at"] && k[9] == hmap["partner_id"]
  {
    var c := Quests.QuestCols;
    assert c[0] == "id" && c[1] == "title" && c[2] == "quote_no" && c[3] == "description" && c[4] == "rank";
    assert c[5] == "points" && c[6] == "status" && c[7] == "hunter_id" && c[8] == "created_at" && c[9] == "partner_id";
  }

  /** The new quest's values, field by field. */
  lemma NewQuestValuesAt(qId: string, title: string, quote: string, desc: string, category: string,
                         pointsText: string, now: string)
    ensures var v := NewQuestValues(qId, title, quote, desc, category, pointsText, now);
      v[0] == qId && v[1] == title && v[2] == quote && v[3] == desc &&
      v[4] == category && v[5] == pointsText && v[6] == "Open" && v[7] == "" && v[8] == now && v[9] == ""
  {
  }

  /** The row `add_quest_to_sheet` builds: `max_col` empty cells, then each field put in its column. */
  method NewQuestRow(hmap: map<string, int>, maxCol: nat, title: string, quoteNo: string, desc: string,
                     category: string, points: int, qId: string, now: string) returns (row: seq<string>)
    requires HasQuestHeaders(hmap) && InRange(QuestColumns(hmap), maxCol)
    ensures row == Layout(maxCol, QuestColumns(hmap), NewQuestValues(qId, title, Normalize.NormalizeQuoteNo(quoteNo), desc, category, IntToString(points), now))
  {
    var quote := Normalize.NormalizeQuoteNo(quoteNo);
    QuestColumnsAt(hmap);
    row := Blank(maxCol);
    row := row[hmap["id"] - 1 := qId];
    row := row[hmap["title"] - 1 := title];
    row := row[hmap["quote_no"] - 1 := quote];
    row := row[hmap["description"] - 1 := desc];
    row := row[hmap["rank"] - 1 := category];
    row := row[hmap["points"] - 1 := IntToString(points)];
    row := row[hmap["status"] - 1 := "Open"];
    row := row[hmap["hunter_id"] - 1 := ""];
    row := row[hmap["created_at"] - 1 := now];
    row := row[hmap["partner_id"] - 1 := ""];
    NewQuestValuesAt(qId, title, quote, desc, category, IntToString(points), now);
    TenFieldLayout(maxCol, QuestColumns(hmap), NewQuestValues(qId, title, Normalize.NormalizeQuoteNo(quoteNo), desc, category, IntToString(points), now));
  }
}
