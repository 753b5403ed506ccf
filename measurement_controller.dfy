/** The measurement handlers: recording a result, grouping the flat leaderboard rows into
    one ranking per measurement, and summarising an athlete's history. The rows and the
    history come from queries that are not part of this model, so they are inputs here. */
module MeasurementController {
  import opened Wrappers
  import opened JsValues
  import opened Http

  const InternalError: string := "Lỗi máy chủ nội bộ."

  /** `error.message || "..."`: a thrown error's message, or the generic one when empty. */
  function ErrorMessage(message: string): (m: string)
    ensures m != []
    ensures message != [] ==> m == message
  {
    if message != [] then message else InternalError
  }

  // ---------------------------------------------------------------------------
  // setNewRecord

  /** The `athleteId`, `measurementId` and `value` a new record must carry; `value` may be
      0 or any other non-nullish value. */
  predicate ValidRecord(athleteId: JsValue, measurementId: JsValue, value: JsValue)
    ensures ValidRecord(athleteId, measurementId, value) ==>
      !Nullish(athleteId) && !Nullish(measurementId) && !Nullish(value)
    ensures value == Num(0) ==> (ValidRecord(athleteId, measurementId, value) <==> Truthy(athleteId) && Truthy(measurementId))
  {
    Truthy(athleteId) && Truthy(measurementId) && !Nullish(value)
  }

  /** What the `INSERT ... SELECT` reports. */
  datatype InsertResult = InsertResult(affectedRows: nat, insertId: int)

  datatype Created = Created(message: string, recordId: int)

  const InvalidRecord: string :=
    "Dữ liệu không hợp lệ. Vui lòng cung cấp athleteId, measurementId, và value."
  const InsertFailed: string := "Lỗi khi thêm bản ghi đo lường."
  const RecordAdded: string := "Thêm bản ghi đo lường thành công."

  function MeasurementMissing(measurementId: JsValue): string
  {
    "Không tìm thấy 'measurement' với ID: " + ToString(measurementId) + ". Không có dữ liệu nào được thêm."
  }

  /** setNewRecord, given what the store's insert reports. The body is destructured before the
      `try`, so a null or undefined body throws and no reply is sent. */
  function SetNewRecord(body: JsValue, insert: Result<InsertResult>): (r: Outcome<Created>)
    ensures r.Rejected? <==> Nullish(body)
    ensures var athleteId, measurementId, value := Get(body, "athleteId"), Get(body, "measurementId"), Get(body, "value");
      && (!Nullish(body) && !ValidRecord(athleteId, measurementId, value) ==> r == Sent(Failure(400, InvalidRecord)))
      && (ValidRecord(athleteId, measurementId, value) && insert.Err? ==> r == Sent(Failure(500, InsertFailed)))
      && (ValidRecord(athleteId, measurementId, value) && insert.Ok? && insert.value.affectedRows == 0 ==>
            r == Sent(Failure(404, MeasurementMissing(measurementId))))
      && (r.Sent? && r.reply.Success? <==> ValidRecord(athleteId, measurementId, value) && insert.Ok? && insert.value.affectedRows > 0)
      && (r.Sent? && r.reply.Success? ==> r == Sent(Success(201, Created(RecordAdded, insert.value.insertId))))
  {
    if Nullish(body) then Rejected("TypeError: Cannot destructure property 'athleteId' of 'measurementData'")
    else
      var athleteId, measurementId, value := Get(body, "athleteId"), Get(body, "measurementId"), Get(body, "value");
      if !ValidRecord(athleteId, measurementId, value) then Sent(Failure(400, InvalidRecord))
      else if insert.Err? then Sent(Failure(500, InsertFailed))
      else if insert.value.affectedRows == 0 then Sent(Failure(404, MeasurementMissing(measurementId)))
      else Sent(Success(201, Created(RecordAdded, insert.value.insertId)))
  }

  /** A result of 0 is a value, not a missing one; an empty id is missing. */
  lemma ZeroValueIsAccepted(athleteId: int, measurementId: int)
    requires athleteId != 0 && measurementId != 0
    ensures ValidRecord(Num(athleteId), Num(measurementId), Num(0))
    ensures !ValidRecord(Str(""), Num(measurementId), Num(0))
    ensures !ValidRecord(Num(athleteId), Num(measurementId), Null)
  {
  }

  // ---------------------------------------------------------------------------
  // getTeamLeaderboard

  /** One row of the flat leaderboard, ordered by measurement. */
  datatype LeaderRow = LeaderRow(
    measurementId: int, measurementName: JsValue, imperialUnit: JsValue,
    firstName: JsValue, lastName: JsValue, bestResult: JsValue)

  datatype Ranking = Ranking(rank: int, firstName: JsValue, lastName: JsValue, result: JsValue)

  datatype Group = Group(measurementId: int, measurementName: JsValue, unit: JsValue, rankings: seq<Ranking>)

  /** The ranking a row becomes at position `rank` of its group. */
  function RankingOf(row: LeaderRow, rank: int): Ranking
  {
    Ranking(rank, row.firstName, row.lastName, row.bestResult)
  }

  /** The group a row opens. */
  function Open(row: LeaderRow): Group
  {
    Group(row.measurementId, row.measurementName, row.imperialUnit, [RankingOf(row, 1)])
  }

  /** One step of the fold: a row joins the current group when it has the same measurement
      id, and opens a new group otherwise. */
  function Step(groups: seq<Group>, row: LeaderRow): seq<Group>
  {
    if groups == [] || groups[|groups| - 1].measurementId != row.measurementId then groups + [Open(row)]
    else Extend(groups, row)
  }

  /** The row appended to the last group, ranked after the rows already there. */
  function Extend(groups: seq<Group>, row: LeaderRow): seq<Group>
    requires groups != []
  {
    var g := groups[|groups| - 1];
    groups[..|groups| - 1] + [g.(rankings := g.rankings + [RankingOf(row, |g.rankings| + 1)])]
  }

  /** The grouping of the handler's `forEach`, as a left fold of `Step`. */
  function GroupRows(rows: seq<LeaderRow>): (r: seq<Group>)
    ensures |r| <= |rows|
    ensures r == [] <==> rows == []
    decreases |rows|
  {
    if rows == [] then [] else Step(GroupRows(rows[..|rows| - 1]), rows[|rows| - 1])
  }

  /** What identifies a row in the output: its measurement, athlete and result. */
  datatype Cell = Cell(measurementId: int, firstName: JsValue, lastName: JsValue, result: JsValue)

  function CellOf(row: LeaderRow): Cell
  {
    Cell(row.measurementId, row.firstName, row.lastName, row.bestResult)
  }

  function Cells(rows: seq<LeaderRow>): (cs: seq<Cell>)
    ensures |cs| == |rows|
    ensures forall i :: 0 <= i < |rows| ==> cs[i] == CellOf(rows[i])
  {
    seq(|rows|, i requires 0 <= i < |rows| => CellOf(rows[i]))
  }

  /** A group's rankings read back as cells. */
  function GroupCells(g: Group): (cs: seq<Cell>)
    ensures |cs| == |g.rankings|
  {
    seq(|g.rankings|, i requires 0 <= i < |g.rankings| =>
      Cell(g.measurementId, g.rankings[i].firstName, g.rankings[i].lastName, g.rankings[i].result))
  }

  /** All groups' rankings, concatenated in order. */
  function Ungroup(groups: seq<Group>): seq<Cell>
    decreases |groups|
  {
    if groups == [] then [] else Ungroup(groups[..|groups| - 1]) + GroupCells(groups[|groups| - 1])
  }

  /** Reading the groups back gives every row, in order. */
  predicate Flattens(rows: seq<LeaderRow>, groups: seq<Group>)
  {
    Ungroup(groups) == Cells(rows)
  }

  /** Every group is non-empty and ranked 1..n in order. */
  predicate Ranked(groups: seq<Group>)
  {
    && (forall k :: 0 <= k < |groups| ==> |groups[k].rankings| > 0)
    && (forall k, j :: 0 <= k < |groups| && 0 <= j < |groups[k].rankings| ==> groups[k].rankings[j].rank == j + 1)
  }

  /** Neighbouring groups are of different measurements. */
  predicate RunsDiffer(groups: seq<Group>)
  {
    forall k :: 0 <= k < |groups| - 1 ==> groups[k].measurementId != groups[k + 1].measurementId
  }

  /** A group's name and unit are those of its first row. */
  predicate LabelledByFirstRow(rows: seq<LeaderRow>, groups: seq<Group>)
  {
    forall k :: 0 <= k < |groups| ==>
      && |Ungroup(groups[..k])| < |rows|
      && groups[k].measurementName == rows[|Ungroup(groups[..k])|].measurementName
      && groups[k].unit == rows[|Ungroup(groups[..k])|].imperialUnit
  }

  /** The grouping is of consecutive runs: reading the groups back gives every row in order,
      each group is non-empty and ranked 1..n, neighbouring groups are of different
      measurements, and a group's name and unit are those of its first row. */
  predicate IsRunGrouping(rows: seq<LeaderRow>, groups: seq<Group>)
  {
    Flattens(rows, groups) && Ranked(groups) && RunsDiffer(groups) && LabelledByFirstRow(rows, groups)
  }

  lemma UngroupAppend(groups: seq<Group>, g: Group)
    ensures Ungroup(groups + [g]) == Ungroup(groups) + GroupCells(g)
  {
    assert (groups + [g])[..|groups|] == groups;
  }

  lemma GroupCellsExtend(g: Group, r: Ranking)
    ensures GroupCells(g.(rankings := g.rankings + [r])) ==
      GroupCells(g) + [Cell(g.measurementId, r.firstName, r.lastName, r.result)]
  {
  }

  lemma OpenFlattens(rows: seq<LeaderRow>, gs: seq<Group>, row: LeaderRow)
    requires Flattens(rows, gs)
    ensures Flattens(rows + [row], gs + [Open(row)])
  {
    assert Cells(rows + [row]) == Cells(rows) + [CellOf(row)];
    UngroupAppend(gs, Open(row));
    assert GroupCells(Open(row)) == [CellOf(row)];
  }

  lemma OpenLabelled(rows: seq<LeaderRow>, gs: seq<Group>, row: LeaderRow)
    requires Flattens(rows, gs) && LabelledByFirstRow(rows, gs)
    ensures LabelledByFirstRow(rows + [row], gs + [Open(row)])
  {
    var rows', gs' := rows + [row], gs + [Open(row)];
    assert gs'[..|gs|] == gs;
    assert |Ungroup(gs)| == |rows|;
    forall k | 0 <= k < |gs'|
      ensures && |Ungroup(gs'[..k])| < |rows'|
              && gs'[k].measurementName == rows'[|Ungroup(gs'[..k])|].measurementName
              && gs'[k].unit == rows'[|Ungroup(gs'[..k])|].imperialUnit
    {
      if k < |gs| {
        assert gs'[..k] == gs[..k];
      }
    }
  }

  /** A row of a new measurement opens a group and keeps the grouping a run grouping. */
  lemma OpenKeepsRunGrouping(rows: seq<LeaderRow>, gs: seq<Group>, row: LeaderRow)
    requires IsRunGrouping(rows, gs)
    requires gs == [] || gs[|gs| - 1].measurementId != row.measurementId
    ensures IsRunGrouping(rows + [row], gs + [Open(row)])
  {
    OpenFlattens(rows, gs, row);
    OpenLabelled(rows, gs, row);
    OpenRankedApart(gs, row);
  }

  lemma OpenRankedApart(gs: seq<Group>, row: LeaderRow)
    requires Ranked(gs) && RunsDiffer(gs)
    requires gs == [] || gs[|gs| - 1].measurementId != row.measurementId
    ensures Ranked(gs + [Open(row)]) && RunsDiffer(gs + [Open(row)])
  {
    var gs' := gs + [Open(row)];
    assert forall k :: 0 <= k < |gs| ==> gs'[k] == gs[k];
  }

  lemma ExtendFlattens(rows: seq<LeaderRow>, gs: seq<Group>, row: LeaderRow)
    requires Flattens(rows, gs) && gs != [] && gs[|gs| - 1].measurementId == row.measurementId
    ensures Flattens(rows + [row], Extend(gs, row))
  {
    var m := |gs| - 1;
    var g := gs[m];
    var g' := g.(rankings := g.rankings + [RankingOf(row, |g.rankings| + 1)]);
    assert gs == gs[..m] + [g];
    assert Cells(rows + [row]) == Cells(rows) + [CellOf(row)];
    UngroupAppend(gs[..m], g);
    UngroupAppend(gs[..m], g');
    GroupCellsExtend(g, RankingOf(row, |g.rankings| + 1));
  }

  lemma ExtendRanked(gs: seq<Group>, row: LeaderRow)
    requires Ranked(gs) && gs != []
    ensures Ranked(Extend(gs, row))
  {
    var m := |gs| - 1;
    var gs' := Extend(gs, row);
    forall k, j | 0 <= k < |gs'| && 0 <= j < |gs'[k].rankings| ensures gs'[k].rankings[j].rank == j + 1 {
      if k < m {
        assert gs'[k] == gs[k];
      }
    }
  }

  lemma ExtendLabelled(rows: seq<LeaderRow>, gs: seq<Group>, row: LeaderRow)
    requires LabelledByFirstRow(rows, gs) && gs != []
    ensures LabelledByFirstRow(rows + [row], Extend(gs, row))
  {
    var rows', gs' := rows + [row], Extend(gs, row);
    forall k | 0 <= k < |gs'|
      ensures && |Ungroup(gs'[..k])| < |rows'|
              && gs'[k].measurementName == rows'[|Ungroup(gs'[..k])|].measurementName
              && gs'[k].unit == rows'[|Ungroup(gs'[..k])|].imperialUnit
    {
      assert gs'[..k] == gs[..k];
    }
  }

  /** A row of the current measurement joins the last group with the next rank and keeps the
      grouping a run grouping. */
  lemma ExtendKeepsRunGrouping(rows: seq<LeaderRow>, gs: seq<Group>, row: LeaderRow)
    requires IsRunGrouping(rows, gs)
    requires gs != [] && gs[|gs| - 1].measurementId == row.measurementId
    ensures IsRunGrouping(rows + [row], Extend(gs, row))
  {
    ExtendFlattens(rows, gs, row);
    ExtendRanked(gs, row);
    ExtendLabelled(rows, gs, row);
    ExtendRunsDiffer(gs, row);
  }

  lemma ExtendRunsDiffer(gs: seq<Group>, row: LeaderRow)
    requires RunsDiffer(gs) && gs != []
    ensures RunsDiffer(Extend(gs, row))
  {
    var gs' := Extend(gs, row);
    assert forall k :: 0 <= k < |gs| ==> gs'[k].measurementId == gs[k].measurementId;
  }

  /** The fold produces a run grouping. */
  lemma {:induction false} GroupRowsIsRunGrouping(rows: seq<LeaderRow>)
    ensures IsRunGrouping(rows, GroupRows(rows))
    decreases |rows|
  {
    if rows == [] { return; }
    var n := |rows| - 1;
    assert rows == rows[..n] + [rows[n]];
    GroupRowsIsRunGrouping(rows[..n]);
    var gs := GroupRows(rows[..n]);
    if gs == [] || gs[|gs| - 1].measurementId != rows[n].measurementId {
      OpenKeepsRunGrouping(rows[..n], gs, rows[n]);
    } else {
      ExtendKeepsRunGrouping(rows[..n], gs, rows[n]);
    }
  }

  /** getTeamLeaderboard's loop: walks the rows, opening a group on each change of measurement
      and appending the row to the current group with the next rank. */
  method GroupLeaderboard(rows: seq<LeaderRow>) returns (groups: seq<Group>)
    ensures groups == GroupRows(rows)
    ensures IsRunGrouping(rows, groups)
  {
    groups := [];
    var i := 0;
    while i < |rows|
      invariant 0 <= i <= |rows|
      invariant groups == GroupRows(rows[..i])
    {
      var row := rows[i];
      assert rows[..i + 1][..i] == rows[..i];
      ghost var before := groups;
      var newGroup := false;
      if groups == [] || groups[|groups| - 1].measurementId != row.measurementId {
        groups := groups + [Group(row.measurementId, row.measurementName, row.imperialUnit, [])];
        newGroup := true;
      }
      var current := groups[|groups| - 1];
      var ranked := current.(rankings := current.rankings + [RankingOf(row, |current.rankings| + 1)]);
      groups := groups[..|groups| - 1] + [ranked];
      if !newGroup {
        assert groups == Extend(before, row);
      }
      if newGroup {
        var empty := Group(row.measurementId, row.measurementName, row.imperialUnit, []);
        assert (before + [empty])[..|before|] == before;
        assert ranked == Open(row);
        assert groups == before + [Open(row)];
      }
      assert groups == Step(before, row);
      assert GroupRows(rows[..i + 1]) == Step(GroupRows(rows[..i]), row);
      i := i + 1;
    }
    assert rows[..|rows|] == rows;
    GroupRowsIsRunGrouping(rows);
  }

  /** Rows of one measurement that are not adjacent end up in separate groups. */
  lemma SplitRunsStaySplit(a: LeaderRow, b: LeaderRow, c: LeaderRow)
    requires a.measurementId == c.measurementId != b.measurementId
    ensures |GroupRows([a, b, c])| == 3
  {
    assert [a, b, c][..2] == [a, b];
    assert [a, b][..1] == [a];
    assert [a][..0] == [];
    assert GroupRows([a]) == [Open(a)];
    assert GroupRows([a, b]) == [Open(a), Open(b)];
    assert GroupRows([a, b, c]) == [Open(a), Open(b), Open(c)];
  }

  const MissingCoach: string := "Thiếu coachId."

  /** getTeamLeaderboard, given what the leaderboard query returns or the message it throws. */
  method GetTeamLeaderboard(coachId: JsValue, flat: Result<seq<LeaderRow>>) returns (r: Reply<seq<Group>>)
    ensures !Truthy(coachId) ==> r == Failure(400, MissingCoach)
    ensures Truthy(coachId) && flat.Err? ==> r == Failure(500, ErrorMessage(flat.message))
    ensures Truthy(coachId) && flat.Ok? ==> r.Success? && r.status == 200 && IsRunGrouping(flat.value, r.value)
    ensures Truthy(coachId) && flat.Ok? && flat.value == [] ==> r == Success(200, [])
  {
    if !Truthy(coachId) {
      return Failure(400, MissingCoach);
    }
    if flat.Err? {
      return Failure(500, ErrorMessage(flat.message));
    }
    if |flat.value| == 0 {
      return Success(200, []);
    }
    var groups := GroupLeaderboard(flat.value);
    r := Success(200, groups);
  }

  // ---------------------------------------------------------------------------
  // getAthleteProgress

  /** A history entry, newest first; the fields the summary does not read are left out. */
  datatype HistoryEntry = HistoryEntry(result: int, unit: JsValue)

  datatype ProgressSummary = ProgressSummary(latestResult: JsValue, firstResult: JsValue, totalChange: JsValue, unit: JsValue)

  datatype Progress = Progress(summary: ProgressSummary, history: seq<HistoryEntry>)

  const MissingIds: string := "Thiếu athleteId hoặc measurementId."

  /** The message of the TypeError thrown by reading `result` of an undefined entry. */
  const ReadResultOfUndefined: string := "Cannot read properties of undefined (reading 'result')"

  function Abs(x: int): (r: int)
    ensures r >= 0 && (r == x || r == -x)
  {
    if x < 0 then -x else x
  }

  /** getAthleteProgress, given what the history query returns or the message it throws. */
  function AthleteProgress(athleteId: JsValue, measurementId: JsValue, history: Result<seq<HistoryEntry>>): (r: Reply<Progress>)
    ensures !Truthy(athleteId) || !Truthy(measurementId) ==> r == Failure(400, MissingIds)
    ensures Truthy(athleteId) && Truthy(measurementId) ==>
      && (history.Err? ==> r == Failure(500, ErrorMessage(history.message)))
      && (history == Ok([]) ==> r == Success(200, Progress(ProgressSummary(Null, Null, Null, Null), [])))
      && (history.Ok? && |history.value| == 1 ==> r == Failure(500, ReadResultOfUndefined))
      && (history.Ok? && |history.value| >= 2 ==>
            var h := history.value;
            && r.Success? && r.status == 200 && r.value.history == h
            && r.value.summary.latestResult == Num(h[0].result)
            && r.value.summary.firstResult == Num(h[1].result)
            && r.value.summary.unit == h[0].unit
            && r.value.summary.totalChange.Num? && r.value.summary.totalChange.n >= 0
            && (r.value.summary.totalChange.n == h[1].result - h[0].result
                || r.value.summary.totalChange.n == h[0].result - h[1].result))
  {
    if !Truthy(athleteId) || !Truthy(measurementId) then Failure(400, MissingIds)
    else if history.Err? then Failure(500, ErrorMessage(history.message))
    else
      var h := history.value;
      if |h| == 0 then Success(200, Progress(ProgressSummary(Null, Null, Null, Null), []))
      else if |h| == 1 then Failure(500, ReadResultOfUndefined)
      else
        var latest, first := h[0], h[1];
        Success(200, Progress(ProgressSummary(Num(latest.result), Num(first.result),
                                              Num(Abs(first.result - latest.result)), latest.unit), h))
  }

  /** "First" is the second-newest entry, not the oldest: with three entries the oldest one
      does not enter the summary. */
  lemma FirstResultIsSecondEntry()
    ensures var h := [HistoryEntry(3294, Str("s")), HistoryEntry(5999, Str("s")), HistoryEntry(1000, Str("s"))];
      AthleteProgress(Num(1), Num(2), Ok(h)).value.summary ==
        ProgressSummary(Num(3294), Num(5999), Num(2705), Str("s"))
  {
  }

  /** The summary the code describes: the first result is the oldest entry, the last in the
      newest-first history, so a single entry is both first and latest. */
  function OldestEntryProgress(athleteId: JsValue, measurementId: JsValue, history: Result<seq<HistoryEntry>>): (r: Reply<Progress>)
    ensures !Truthy(athleteId) || !Truthy(measurementId) ==> r == Failure(400, MissingIds)
    ensures Truthy(athleteId) && Truthy(measurementId) ==>
      && (history.Err? ==> r == Failure(500, ErrorMessage(history.message)))
      && (history == Ok([]) ==> r == Success(200, Progress(ProgressSummary(Null, Null, Null, Null), [])))
      && (history.Ok? && |history.value| >= 1 ==>
            var h := history.value;
            && r.Success? && r.status == 200 && r.value.history == h
            && r.value.summary.latestResult == Num(h[0].result)
            && r.value.summary.firstResult == Num(h[|h| - 1].result)
            && r.value.summary.unit == h[0].unit
            && r.value.summary.totalChange.Num? && r.value.summary.totalChange.n >= 0
            && (r.value.summary.totalChange.n == h[|h| - 1].result - h[0].result
                || r.value.summary.totalChange.n == h[0].result - h[|h| - 1].result))
  {
    if !Truthy(athleteId) || !Truthy(measurementId) then Failure(400, MissingIds)
    else if history.Err? then Failure(500, ErrorMessage(history.message))
    else
      var h := history.value;
      if |h| == 0 then Success(200, Progress(ProgressSummary(Null, Null, Null, Null), []))
      else
        var latest, first := h[0], h[|h| - 1];
        Success(200, Progress(ProgressSummary(Num(latest.result), Num(first.result),
                                              Num(Abs(first.result - latest.result)), latest.unit), h))
  }

  /** The two summaries agree on histories of exactly two entries and on every error; they
      differ on one entry (a 500 against a zero change) and on three or more. */
  lemma ProgressAgreesOnTwoEntries(athleteId: JsValue, measurementId: JsValue, history: Result<seq<HistoryEntry>>)
    requires history.Err? || |history.value| != 1
    requires history.Ok? ==> |history.value| <= 2
    ensures AthleteProgress(athleteId, measurementId, history) == OldestEntryProgress(athleteId, measurementId, history)
  {
  }

  /** With a single entry the intended summary reports no change instead of failing. */
  lemma SingleEntryHasNoChange(e: HistoryEntry)
    ensures OldestEntryProgress(Num(1), Num(2), Ok([e])).Success?
    ensures OldestEntryProgress(Num(1), Num(2), Ok([e])).value.summary.totalChange == Num(0)
    ensures AthleteProgress(Num(1), Num(2), Ok([e])) == Failure(500, ReadResultOfUndefined)
  {
  }

  /** On the three-entry history the intended first result is the oldest entry. */
  lemma IntendedFirstResultIsOldest()
    ensures var h := [HistoryEntry(3294, Str("s")), HistoryEntry(5999, Str("s")), HistoryEntry(1000, Str("s"))];
      OldestEntryProgress(Num(1), Num(2), Ok(h)).value.summary ==
        ProgressSummary(Num(3294), Num(1000), Num(2294), Str("s"))
  {
  }
}
