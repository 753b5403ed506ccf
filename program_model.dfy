/** The program repository: owner-scoped reads and writes of `programs`, the atomic
    creation of a program with its exercise slots, and the logging of a workout. */
module ProgramModel {
  import opened Wrappers
  import opened JsValues
  import opened Strings
  import opened Sorting
  import opened Schema
  import SqlLike

  // ---------------------------------------------------------------------------
  // buildUpdateSet

  predicate NoDuplicates(ks: seq<string>)
  {
    forall i, j :: 0 <= i < j < |ks| ==> ks[i] != ks[j]
  }

  /** The keys of `keys` that `data` has as own properties, in the order of `keys`. */
  function PresentKeys(keys: seq<string>, data: map<string, JsValue>): (r: seq<string>)
    ensures forall k :: k in r <==> k in keys && k in data
    ensures |r| <= |keys|
    ensures NoDuplicates(keys) ==> NoDuplicates(r)
    decreases |keys|
  {
    if keys == [] then []
    else
      var n := |keys| - 1;
      assert forall k :: k in keys[..n] ==> k in keys;
      PresentKeys(keys[..n], data) + (if keys[n] in data then [keys[n]] else [])
  }

  /** `f` shows `r` to be a subsequence of `keys`: entry i of `r` is entry `f[i]` of `keys`,
      and `f` is increasing. */
  predicate Positions(f: seq<int>, r: seq<string>, keys: seq<string>)
  {
    && |f| == |r|
    && (forall i :: 0 <= i < |f| ==> 0 <= f[i] < |keys| && keys[f[i]] == r[i])
    && (forall i, j :: 0 <= i < j < |f| ==> f[i] < f[j])
  }

  /** `r` keeps some entries of `keys`, in the order they have in `keys`. */
  ghost predicate KeptInOrder(r: seq<string>, keys: seq<string>)
  {
    exists f :: Positions(f, r, keys)
  }

  /** Where in `keys` each present key sits. */
  function PresentPositions(keys: seq<string>, data: map<string, JsValue>): (f: seq<int>)
    ensures Positions(f, PresentKeys(keys, data), keys)
    decreases |keys|
  {
    if keys == [] then []
    else
      var n := |keys| - 1;
      var f := PresentPositions(keys[..n], data);
      assert forall i :: 0 <= i < |f| ==> keys[..n][f[i]] == keys[f[i]];
      f + (if keys[n] in data then [n] else [])
  }

  /** The present keys come in allow-list order. */
  lemma PresentKeysKeepOrder(keys: seq<string>, data: map<string, JsValue>)
    ensures KeptInOrder(PresentKeys(keys, data), keys)
  {
    var f := PresentPositions(keys, data);
    assert Positions(f, PresentKeys(keys, data), keys);
  }

  /** The allow-listed columns an update names. */
  function UpdateKeys(data: map<string, JsValue>): seq<string>
  {
    PresentKeys(EditableColumns, data)
  }

  /** One `k = ?` fragment per key. */
  function Assignments(keys: seq<string>): (r: seq<string>)
    ensures |r| == |keys|
    ensures forall i :: 0 <= i < |keys| ==> r[i] == keys[i] + " = ?"
    decreases |keys|
  {
    if keys == [] then []
    else
      var n := |keys| - 1;
      Assignments(keys[..n]) + [keys[n] + " = ?"]
  }

  /** One parameter per key: the value, or NULL for a null or undefined value (`?? null`). */
  function ParamsOf(keys: seq<string>, data: map<string, JsValue>): (r: seq<JsValue>)
    requires forall k :: k in keys ==> k in data
    ensures |r| == |keys|
    ensures forall i :: 0 <= i < |keys| ==> r[i] == Coalesce(data[keys[i]], Null)
    decreases |keys|
  {
    if keys == [] then []
    else
      var n := |keys| - 1;
      assert forall k :: k in keys[..n] ==> k in keys;
      ParamsOf(keys[..n], data) + [Coalesce(data[keys[n]], Null)]
  }

  const BumpUpdatedAt: string := "updated_at = NOW()"

  function SetClauseFor(data: map<string, JsValue>): string
  {
    Join(Assignments(UpdateKeys(data)) + [BumpUpdatedAt], ", ")
  }

  function ParamsFor(data: map<string, JsValue>): seq<JsValue>
  {
    ParamsOf(UpdateKeys(data), data)
  }

  /** Each parameter is its key's value, with null and undefined both sent as NULL. */
  lemma ParamsForValues(data: map<string, JsValue>)
    ensures |ParamsFor(data)| == |UpdateKeys(data)|
    ensures forall i :: 0 <= i < |ParamsFor(data)| ==>
      var k := UpdateKeys(data)[i];
      k in data && ParamsFor(data)[i] == (if Nullish(data[k]) then Null else data[k])
  {
  }

  /** buildUpdateSet: the SET clause and its parameters for the allow-listed keys of `data`. */
  method BuildUpdateSet(data: map<string, JsValue>) returns (setClause: string, params: seq<JsValue>)
    ensures setClause == SetClauseFor(data) && params == ParamsFor(data)
    ensures |params| == |UpdateKeys(data)|
    ensures forall i :: 0 <= i < |params| ==>
      var k := UpdateKeys(data)[i];
      k in data && params[i] == (if Nullish(data[k]) then Null else data[k])
    ensures KeptInOrder(UpdateKeys(data), EditableColumns)
  {
    ParamsForValues(data);
    PresentKeysKeepOrder(EditableColumns, data);
    var fields: seq<string> := [];
    params := [];
    for i := 0 to |EditableColumns|
      invariant fields == Assignments(PresentKeys(EditableColumns[..i], data))
      invariant params == ParamsOf(PresentKeys(EditableColumns[..i], data), data)
    {
      var k := EditableColumns[i];
      PresentKeysStep(EditableColumns, i, data);
      if k in data {
        fields := fields + [k + " = ?"];
        params := params + [Coalesce(data[k], Null)];
      }
    }
    assert EditableColumns[..|EditableColumns|] == EditableColumns;
    fields := fields + [BumpUpdatedAt];
    setClause := Join(fields, ", ");
  }

  /** One more key either extends the present keys, their assignments and their parameters
      by that key, or leaves all three alone. */
  lemma PresentKeysStep(keys: seq<string>, i: nat, data: map<string, JsValue>)
    requires i < |keys|
    ensures var before, after := PresentKeys(keys[..i], data), PresentKeys(keys[..i + 1], data);
      && (keys[i] in data ==>
            && after == before + [keys[i]]
            && Assignments(after) == Assignments(before) + [keys[i] + " = ?"]
            && ParamsOf(after, data) == ParamsOf(before, data) + [Coalesce(data[keys[i]], Null)])
      && (keys[i] !in data ==> after == before)
  {
    assert keys[..i + 1][..i] == keys[..i];
    var before := PresentKeys(keys[..i], data);
    if keys[i] in data {
      assert (before + [keys[i]])[..|before|] == before;
    }
  }

  /** The SET clause always ends by bumping `updated_at`, after one `k = ?` per parameter. */
  lemma UpdateSetShape(data: map<string, JsValue>)
    ensures |SetClauseFor(data)| >= |BumpUpdatedAt|
    ensures SetClauseFor(data)[|SetClauseFor(data)| - |BumpUpdatedAt|..] == BumpUpdatedAt
    ensures |ParamsFor(data)| == |Assignments(UpdateKeys(data))|
  {
    var parts := Assignments(UpdateKeys(data)) + [BumpUpdatedAt];
    if |parts| >= 2 {
      assert parts[..|parts| - 1] == Assignments(UpdateKeys(data));
    }
  }

  /** The "nothing to update" guard as written: one parameter and a SET clause that is only
      the timestamp bump. */
  predicate UpdateGuardAsWritten(setClause: string, params: seq<JsValue>)
  {
    |params| == 1 && setClause == BumpUpdatedAt
  }

  /** The guard as written can never fire: with no allow-listed key there are no parameters,
      and with one key the clause also holds that key's assignment. */
  lemma AsWrittenGuardNeverFires(data: map<string, JsValue>)
    ensures !UpdateGuardAsWritten(SetClauseFor(data), ParamsFor(data))
  {
    var parts := Assignments(UpdateKeys(data)) + [BumpUpdatedAt];
    if |ParamsFor(data)| == 1 {
      assert |parts| == 2;
      assert |SetClauseFor(data)| >= |BumpUpdatedAt| + 2;
    }
  }

  /** An empty body reaches the UPDATE statement as written. */
  lemma {:induction false} NoKeysPresentInEmpty(keys: seq<string>)
    ensures PresentKeys(keys, map[]) == []
    decreases |keys|
  {
    if keys != [] {
      NoKeysPresentInEmpty(keys[..|keys| - 1]);
    }
  }

  lemma EmptyBodyPassesAsWrittenGuard()
    ensures UpdateKeys(map[]) == []
    ensures !UpdateGuardAsWritten(SetClauseFor(map[]), ParamsFor(map[]))
  {
    NoKeysPresentInEmpty(EditableColumns);
    AsWrittenGuardNeverFires(map[]);
  }

  /** The intended guard: no allow-listed key, hence no parameter. */
  predicate NoFieldsToUpdate(data: map<string, JsValue>)
  {
    ParamsFor(data) == []
  }

  lemma NoFieldsIffNoAllowedKey(data: map<string, JsValue>)
    ensures NoFieldsToUpdate(data) <==> forall k :: k in EditableColumns ==> k !in data
  {
    var keys := UpdateKeys(data);
    if !NoFieldsToUpdate(data) {
      assert keys[0] in keys;
    }
  }

  // ---------------------------------------------------------------------------
  // Owner-scoped get, update and delete

  /** `program_id = ? AND created_by = ? AND IFNULL(is_deleted,0)=0`. */
  predicate OwnedLive(programs: map<int, Program>, userId: string, programId: int)
  {
    programId in programs && programs[programId].createdBy == userId
    && IsLive(programs[programId].isDeleted)
  }

  /** getProgramByIdForUser: a program that is missing, not the caller's and deleted all read
      as "Program not found". */
  function GetProgram(programs: map<int, Program>, userId: string, programId: int): (r: Result<Program>)
    ensures r.Ok? <==> OwnedLive(programs, userId, programId)
    ensures r.Ok? ==> r.value == programs[programId]
    ensures r.Err? ==> r.message == ProgramNotFound
  {
    if OwnedLive(programs, userId, programId) then Ok(programs[programId]) else Err(ProgramNotFound)
  }

  /** The column values an update writes: each present allow-listed key, null for nullish. */
  function Assigned(data: map<string, JsValue>): map<string, JsValue>
  {
    map k | k in data && k in EditableColumns :: Coalesce(data[k], Null)
  }

  /** An update writes the allow-listed keys it names and keeps every other column. */
  lemma AssignedOverwrites(p: Program, data: map<string, JsValue>, now: int)
    ensures var q := p.(cols := p.cols + Assigned(data), updatedAt := now);
      && (forall k :: k in EditableColumns && k in data ==> k in q.cols && q.cols[k] == Coalesce(data[k], Null))
      && (forall k :: k !in data || k !in EditableColumns ==> Col(q, k) == Col(p, k))
  {
  }

  /** The row an update writes: the present allow-listed columns, and the update time. */
  function UpdatedRow(p: Program, data: map<string, JsValue>, now: int): (q: Program)
    ensures q.updatedAt == now && q.createdAt == p.createdAt && q.createdBy == p.createdBy
    ensures q.isDeleted == p.isDeleted
    ensures forall k :: k in EditableColumns && k in data ==> k in q.cols && q.cols[k] == Coalesce(data[k], Null)
    ensures forall k :: k !in data || k !in EditableColumns ==> Col(q, k) == Col(p, k)
  {
    AssignedOverwrites(p, data, now);
    p.(cols := p.cols + Assigned(data), updatedAt := now)
  }

  /** The UPDATE statement itself, once past the guard: it changes an owned live row and reports
      "not found" for any other. */
  function RunUpdate(programs: map<int, Program>, userId: string, programId: int,
                     data: map<string, JsValue>, now: int): (out: (Result<string>, map<int, Program>))
    ensures out.0.Ok? <==> OwnedLive(programs, userId, programId)
    ensures out.0.Ok? ==> out.0.value == "Program updated successfully"
    ensures out.0.Err? ==> out.0 == Err("Program not found or no changes made") && out.1 == programs
    ensures out.0.Ok? ==>
      && out.1.Keys == programs.Keys
      && (forall id :: id in programs && id != programId ==> out.1[id] == programs[id])
      && out.1[programId] == UpdatedRow(programs[programId], data, now)
  {
    if OwnedLive(programs, userId, programId) then
      (Ok("Program updated successfully"),
       programs[programId := UpdatedRow(programs[programId], data, now)])
    else (Err("Program not found or no changes made"), programs)
  }

  /** updateProgramForUser on the programs table, as written. Its guard never fires, so an
      update that names no allow-listed key still runs the UPDATE, which bumps `updated_at`
      of an owned live row and succeeds. */
  function UpdateProgram(programs: map<int, Program>, userId: string, programId: int,
                         data: map<string, JsValue>, now: int): (out: (Result<string>, map<int, Program>))
    ensures out == RunUpdate(programs, userId, programId, data, now)
  {
    AsWrittenGuardNeverFires(data);
    if UpdateGuardAsWritten(SetClauseFor(data), ParamsFor(data)) then (Err("No fields to update"), programs)
    else RunUpdate(programs, userId, programId, data, now)
  }

  /** An update with no allow-listed key only bumps the update time of an owned live row. */
  lemma EmptyUpdateBumpsUpdatedAt(programs: map<int, Program>, userId: string, programId: int, now: int)
    requires OwnedLive(programs, userId, programId)
    ensures UpdateProgram(programs, userId, programId, map[], now)
      == (Ok("Program updated successfully"), programs[programId := programs[programId].(updatedAt := now)])
  {
    var p := programs[programId];
    assert Assigned(map[]) == map[];
    assert p.cols + map[] == p.cols;
  }

  /** updateProgramForUser with the guard its authors evidently meant: an update that names no
      allow-listed key is rejected with "No fields to update" and changes nothing. */
  function GuardedUpdateProgram(programs: map<int, Program>, userId: string, programId: int,
                                data: map<string, JsValue>, now: int): (out: (Result<string>, map<int, Program>))
    ensures out.0.Ok? <==> !NoFieldsToUpdate(data) && OwnedLive(programs, userId, programId)
    ensures NoFieldsToUpdate(data) ==> out.0 == Err("No fields to update")
    ensures !NoFieldsToUpdate(data) && !OwnedLive(programs, userId, programId) ==>
      out.0 == Err("Program not found or no changes made")
    ensures out.0.Err? ==> out.1 == programs
    ensures out.0.Ok? ==>
      && out.1.Keys == programs.Keys
      && (forall id :: id in programs && id != programId ==> out.1[id] == programs[id])
      && out.1[programId] == UpdatedRow(programs[programId], data, now)
  {
    if NoFieldsToUpdate(data) then (Err("No fields to update"), programs)
    else RunUpdate(programs, userId, programId, data, now)
  }

  /** The guarded and the as-written update give different results exactly on an update that
      names no allow-listed key, and agree on every other. */
  lemma GuardMattersOnlyWithoutFields(programs: map<int, Program>, userId: string, programId: int,
                                      data: map<string, JsValue>, now: int)
    ensures (GuardedUpdateProgram(programs, userId, programId, data, now).0
               != UpdateProgram(programs, userId, programId, data, now).0) <==> NoFieldsToUpdate(data)
    ensures !NoFieldsToUpdate(data) ==>
      GuardedUpdateProgram(programs, userId, programId, data, now) == UpdateProgram(programs, userId, programId, data, now)
  {
  }

  /** deleteProgramForUser. The soft path marks an owned live row deleted; the hard path
      removes an owned row whatever its flag. */
  function DeleteProgram(programs: map<int, Program>, userId: string, programId: int,
                         hard: bool, now: int): (out: (Result<string>, map<int, Program>))
    ensures hard ==> (out.0.Ok? <==> programId in programs && programs[programId].createdBy == userId)
    ensures !hard ==> (out.0.Ok? <==> OwnedLive(programs, userId, programId))
    ensures out.0.Err? ==> out.0.message == ProgramNotFound && out.1 == programs
    ensures out.0.Ok? && hard ==> out.1 == programs - {programId}
    ensures out.0.Ok? && !hard ==>
      && out.1.Keys == programs.Keys
      && (forall id :: id in programs && id != programId ==> out.1[id] == programs[id])
      && out.1[programId] == programs[programId].(isDeleted := Flag(1), updatedAt := now)
  {
    if hard then
      if programId in programs && programs[programId].createdBy == userId then
        (Ok("Program permanently deleted"), programs - {programId})
      else (Err(ProgramNotFound), programs)
    else if OwnedLive(programs, userId, programId) then
      (Ok("Program deleted successfully"),
       programs[programId := programs[programId].(isDeleted := Flag(1), updatedAt := now)])
    else (Err(ProgramNotFound), programs)
  }

  /** A soft-deleted program can be neither read nor soft-deleted again. */
  lemma SoftDeleteIsFinal(programs: map<int, Program>, userId: string, programId: int, now: int, later: int)
    requires DeleteProgram(programs, userId, programId, false, now).0.Ok?
    ensures var after := DeleteProgram(programs, userId, programId, false, now).1;
      && GetProgram(after, userId, programId) == Err(ProgramNotFound)
      && DeleteProgram(after, userId, programId, false, later).0 == Err(ProgramNotFound)
      && DeleteProgram(after, userId, programId, true, later).0.Ok?
  {
  }

  // ---------------------------------------------------------------------------
  // Row construction for the inserts

  /** createProgram's row: a column absent or undefined in the input is stored as NULL. */
  function CreatedRow(userId: string, data: map<string, JsValue>, now: int): (p: Program)
    ensures p.cols.Keys == set k | k in EditableColumns
    ensures forall k :: k in EditableColumns ==>
      p.cols[k] == (if k in data && !data[k].Undefined? then data[k] else Null)
    ensures p.createdBy == userId && p.isDeleted == Flag(0) && IsLive(p.isDeleted)
  {
    Program(map k | k in EditableColumns :: DefaultIfUndefined(Lookup(data, k), Null), now, now, userId, Flag(0))
  }

  /** createProgramWithExercises' row: every falsy column value is stored as NULL (`|| null`). */
  function BulkCreatedRow(userId: string, data: map<string, JsValue>, now: int): (p: Program)
    ensures p.cols.Keys == set k | k in EditableColumns
    ensures forall k :: k in EditableColumns ==>
      p.cols[k] == (if k in data && Truthy(data[k]) then data[k] else Null)
    ensures p.createdBy == userId && p.isDeleted == Flag(0)
  {
    Program(map k | k in EditableColumns :: Or(Lookup(data, k), Null), now, now, userId, Flag(0))
  }

  /** The slot row for one exercise entry: type, sets and exercise id default to NULL, status to 0. */
  function SlotFor(programId: int, ex: JsValue, now: int): (s: Slot)
    requires !Nullish(ex)
    ensures s.programId == programId && s.isDeleted == Flag(0)
    ensures s.status == (if Truthy(Get(ex, "status")) then Get(ex, "status") else Num(0))
    ensures Truthy(s.status) || s.status == Num(0)
  {
    Slot(programId, Or(Get(ex, "exercise_id"), Null), Or(Get(ex, "type"), Null),
         Or(Get(ex, "sets"), Null), Or(Get(ex, "status"), Num(0)), Flag(0), now, now)
  }

  /** The slots inserted for `exs`, numbered from `firstId` in entry order. */
  function SlotsFor(programId: int, firstId: int, exs: seq<JsValue>, now: int): (m: map<int, Slot>)
    requires forall j :: 0 <= j < |exs| ==> !Nullish(exs[j])
    ensures forall id :: id in m <==> firstId <= id < firstId + |exs|
    ensures forall j :: 0 <= j < |exs| ==> m[firstId + j] == SlotFor(programId, exs[j], now)
    decreases |exs|
  {
    if exs == [] then map[]
    else
      var n := |exs| - 1;
      SlotsFor(programId, firstId, exs[..n], now)[firstId + n := SlotFor(programId, exs[n], now)]
  }

  /** Inserting the next entry's slot extends the inserted slots by one. */
  lemma SlotsForSnoc(programId: int, firstId: int, exs: seq<JsValue>, i: int, now: int)
    requires 0 <= i < |exs| && forall j :: 0 <= j <= i ==> !Nullish(exs[j])
    ensures SlotsFor(programId, firstId, exs[..i + 1], now)
      == SlotsFor(programId, firstId, exs[..i], now)[firstId + i := SlotFor(programId, exs[i], now)]
  {
    assert exs[..i + 1][..i] == exs[..i];
  }

  /** A store failure injected into a transactional insert. */
  datatype Fault = NoFault | ProgramInsertFails | SlotInsertFails(at: nat)

  /** The transaction of createProgramWithExercises commits: no insert fails and no entry is
      null or undefined (reading a property of one throws). */
  predicate Commits(fault: Fault, exs: seq<JsValue>)
  {
    && !fault.ProgramInsertFails?
    && !(fault.SlotInsertFails? && fault.at < |exs|)
    && forall j :: 0 <= j < |exs| ==> !Nullish(exs[j])
  }

  /** The slot inserts of createProgramWithExercises, one entry at a time, held back until
      COMMIT; `ok` is false once an entry is null or undefined or its insert fails. */
  method PendingSlots(programId: int, firstSlot: int, exercises: seq<JsValue>, now: int, fault: Fault)
    returns (ok: bool, pending: map<int, Slot>)
    ensures ok <==> forall j :: 0 <= j < |exercises| ==> !Nullish(exercises[j]) && fault != SlotInsertFails(j)
    ensures ok ==> pending == SlotsFor(programId, firstSlot, exercises, now)
  {
    pending := map[];
    var i := 0;
    while i < |exercises|
      invariant 0 <= i <= |exercises|
      invariant forall j :: 0 <= j < i ==> !Nullish(exercises[j]) && fault != SlotInsertFails(j)
      invariant pending == SlotsFor(programId, firstSlot, exercises[..i], now)
    {
      var ex := exercises[i];
      if Nullish(ex) || fault == SlotInsertFails(i) {
        return false, pending;
      }
      SlotsForSnoc(programId, firstSlot, exercises, i, now);
      pending := pending[firstSlot + i := SlotFor(programId, ex, now)];
      i := i + 1;
    }
    assert exercises[..|exercises|] == exercises;
    ok := true;
  }

  /** The transaction commits exactly when the program insert succeeds and every entry's
      slot insert does. */
  lemma CommitsEntryByEntry(fault: Fault, exs: seq<JsValue>)
    ensures Commits(fault, exs) <==>
      !fault.ProgramInsertFails? && forall j :: 0 <= j < |exs| ==> !Nullish(exs[j]) && fault != SlotInsertFails(j)
  {
    if fault.SlotInsertFails? && fault.at < |exs| {
      assert fault == SlotInsertFails(fault.at);
    }
  }

  /** The object createProgram reports. */
  datatype CreatedProgram = CreatedProgram(programId: int, cols: map<string, JsValue>, createdBy: string)

  /** The object createProgramWithExercises reports. */
  datatype BulkCreated = BulkCreated(
    programId: int, name: JsValue, kind: JsValue, trainingType: JsValue,
    createdBy: string, totalExercises: nat)

  /** The row createWorkoutForExercise re-reads and returns. */
  datatype SavedWorkout = SavedWorkout(workoutId: int, row: Workout)

  const BulkCreateError: string := "An error occurred while creating the program and exercises"
  // Messages that a handler searches for a phrase are written as the concatenation of their
  // words, so that the lemmas about the search can work on each part.
  const ProgramNotFound: string := "Program " + "not found"
  const SlotNotFound: string := "Program " + "exercise " + "not found"

  /** Step 1 of createWorkoutForExercise: the caller's exercise id, or the exercise of the
      live slot `slotId` of program `programId`. */
  function ResolveExercise(slots: map<int, Slot>, programId: int, slotId: int, exerciseId: JsValue): (r: Result<JsValue>)
    ensures Truthy(exerciseId) ==> r == Ok(exerciseId)
    ensures !Truthy(exerciseId) ==>
      (r.Ok? <==> slotId in slots && slots[slotId].programId == programId && IsLive(slots[slotId].isDeleted))
    ensures !Truthy(exerciseId) && r.Ok? ==> r.value == slots[slotId].exerciseId
    ensures r.Err? ==> r.message == SlotNotFound
  {
    if Truthy(exerciseId) then Ok(exerciseId)
    else if slotId in slots && slots[slotId].programId == programId && IsLive(slots[slotId].isDeleted) then
      Ok(slots[slotId].exerciseId)
    else Err(SlotNotFound)
  }

  // ---------------------------------------------------------------------------
  // Reads: the owner's program list, the name search and a program's details

  /** One exercise of a program, as the aggregated `exercises` column shows it. */
  datatype SlotEntry = SlotEntry(slotId: int, exerciseId: int, name: string, kind: JsValue, status: JsValue, sets: JsValue)

  /** A program with its exercises: `None` stands for a JSON null element. */
  datatype ProgramSummary = ProgramSummary(
    programId: int, cols: map<string, JsValue>, createdAt: int, updatedAt: int,
    exercises: seq<Option<SlotEntry>>)

  /** `LEFT JOIN program_exercises ... AND pe is not deleted`: the ids of a program's live slots. */
  function LiveSlots(slots: map<int, Slot>, programId: int): (ids: set<int>)
    ensures forall id :: id in ids <==> id in slots && slots[id].programId == programId && IsLive(slots[id].isDeleted)
  {
    set id | id in slots && slots[id].programId == programId && IsLive(slots[id].isDeleted)
  }

  /** Ordering rows by their own id, ascending. */
  function ById(ids: set<int>): (keys: map<int, Key>)
    ensures keys.Keys == ids
  {
    map id | id in ids :: Key(id, 0, 0)
  }

  /** The live slots of a program in ascending slot id. */
  ghost function SlotOrder(slots: map<int, Slot>, programId: int): (ids: seq<int>)
    ensures forall id :: id in ids <==> id in LiveSlots(slots, programId)
    ensures forall i, j :: 0 <= i < j < |ids| ==> ids[i] < ids[j]
    ensures ids == [] <==> LiveSlots(slots, programId) == {}
  {
    var live := LiveSlots(slots, programId);
    var ids := SortIds(live, ById(live));
    assert forall i, j :: 0 <= i < j < |ids| ==> ids[i] <= ids[j] && ids[i] != ids[j];
    assert |ids| == |live|;
    ids
  }

  /** `LEFT JOIN exercises`: a slot whose exercise is not in the catalog aggregates to null. */
  function EntryOf(slots: map<int, Slot>, catalog: map<int, Exercise>, slotId: int): (e: Option<SlotEntry>)
    requires slotId in slots
    ensures e.Some? <==> slots[slotId].exerciseId.Num? && slots[slotId].exerciseId.n in catalog
    ensures e.Some? ==> e.value.exerciseId in catalog && e.value.slotId == slotId
    ensures e.Some? ==>
      var s := slots[slotId];
      e.value == SlotEntry(slotId, s.exerciseId.n, catalog[s.exerciseId.n].name, s.kind, s.status, s.sets)
  {
    var s := slots[slotId];
    if s.exerciseId.Num? && s.exerciseId.n in catalog then
      Some(SlotEntry(slotId, s.exerciseId.n, catalog[s.exerciseId.n].name, s.kind, s.status, s.sets))
    else None
  }

  /** The aggregated `exercises` array: one element per live slot, or `[null]` when the
      program has no live slot (the left join still yields one row, whose aggregate is null). */
  ghost function SlotEntries(slots: map<int, Slot>, catalog: map<int, Exercise>, programId: int): (r: seq<Option<SlotEntry>>)
    ensures LiveSlots(slots, programId) == {} ==> r == [None]
    ensures LiveSlots(slots, programId) != {} ==>
      && |r| == |SlotOrder(slots, programId)|
      && forall i :: 0 <= i < |r| ==> r[i] == EntryOf(slots, catalog, SlotOrder(slots, programId)[i])
    ensures forall i :: 0 <= i < |r| && r[i].Some? ==> r[i].value.exerciseId in catalog
  {
    var ids := SlotOrder(slots, programId);
    if ids == [] then [None]
    else seq(|ids|, i requires 0 <= i < |ids| => EntryOf(slots, catalog, ids[i]))
  }

  /** `type && type !== 'all'`: the type filter applies. */
  predicate TypeFilterOn(kind: JsValue)
  {
    Truthy(kind) && kind != Str("all")
  }

  /** The WHERE clause of the program list: owner by trimmed id, not deleted, and the
      type filter when it applies. */
  predicate Listed(p: Program, userId: string, kind: JsValue)
    ensures Listed(p, userId, kind) ==> IsLive(p.isDeleted) && SqlTrim(p.createdBy) == JsTrim(userId)
  {
    SqlTrimOfJsTrim(userId);
    && SqlTrim(p.createdBy) == SqlTrim(JsTrim(userId))
    && IsLive(p.isDeleted)
    && (TypeFilterOn(kind) ==> Col(p, "type") == Str(ToString(kind)))
  }

  /** `ORDER BY p.created_at DESC`. */
  function NewestFirst(programs: map<int, Program>, ids: set<int>): (keys: map<int, Key>)
    requires ids <= programs.Keys
    ensures keys.Keys == ids
    ensures forall id :: id in ids ==> keys[id].first == -programs[id].createdAt
  {
    map id | id in ids :: Key(-programs[id].createdAt, 0, 0)
  }

  /** The program columns the list, search and details queries select: every editable column
      but `copied_from`. */
  const SelectedColumns: seq<string> := ["name", "type", "training_type", "started_at", "finished_at"]

  /** The selected columns of a row; a column never written reads as NULL. */
  function Selected(p: Program): (c: map<string, JsValue>)
    ensures c.Keys == set k | k in SelectedColumns
    ensures "copied_from" !in c
    ensures forall k :: k in SelectedColumns ==> c[k] == Col(p, k)
  {
    map k | k in SelectedColumns :: Col(p, k)
  }

  ghost function Summary(programs: map<int, Program>, slots: map<int, Slot>, catalog: map<int, Exercise>, id: int): (s: ProgramSummary)
    requires id in programs
    ensures s.programId == id && s.cols == Selected(programs[id]) && s.createdAt == programs[id].createdAt
    ensures s.updatedAt == programs[id].updatedAt
    ensures s.exercises == SlotEntries(slots, catalog, id)
  {
    ProgramSummary(id, Selected(programs[id]), programs[id].createdAt, programs[id].updatedAt, SlotEntries(slots, catalog, id))
  }

  /** The program ids of a result list, in order. */
  function IdsOf(r: seq<ProgramSummary>): (ids: seq<int>)
    ensures |ids| == |r|
    ensures forall i :: 0 <= i < |r| ==> ids[i] == r[i].programId
  {
    seq(|r|, i requires 0 <= i < |r| => r[i].programId)
  }

  /** The summaries of the programs `ids`, newest first. */
  ghost function SummariesOf(programs: map<int, Program>, slots: map<int, Slot>, catalog: map<int, Exercise>,
                             ids: set<int>): (r: seq<ProgramSummary>)
    requires ids <= programs.Keys
    ensures |r| == |ids|
    ensures forall id :: id in IdsOf(r) <==> id in ids
    ensures Distinct(IdsOf(r))
    ensures forall i :: 0 <= i < |r| ==> r[i].programId in ids && r[i] == Summary(programs, slots, catalog, r[i].programId)
    ensures forall i, j :: 0 <= i < j < |r| ==> r[i].createdAt >= r[j].createdAt
  {
    var keys := NewestFirst(programs, ids);
    var order := SortIds(ids, keys);
    var r := SummariesInOrder(programs, slots, catalog, order);
    forall i, j | 0 <= i < j < |r|
      ensures r[i].createdAt >= r[j].createdAt
    {
      assert KeyLe(keys[order[i]], keys[order[j]]);
    }
    r
  }

  /** The summaries of the programs `order`, in that order. */
  ghost function SummariesInOrder(programs: map<int, Program>, slots: map<int, Slot>, catalog: map<int, Exercise>,
                                  order: seq<int>): (r: seq<ProgramSummary>)
    requires forall i :: 0 <= i < |order| ==> order[i] in programs
    ensures |r| == |order| && IdsOf(r) == order
    ensures forall i :: 0 <= i < |r| ==> r[i] == Summary(programs, slots, catalog, order[i])
  {
    var r := seq(|order|, i requires 0 <= i < |order| => Summary(programs, slots, catalog, order[i]));
    assert IdsOf(r) == order;
    r
  }

  /** The programs `listAllProgramsOfUser` selects. */
  function ListedIds(programs: map<int, Program>, userId: string, kind: JsValue): (ids: set<int>)
    ensures ids <= programs.Keys
    ensures forall id :: id in ids <==> id in programs && Listed(programs[id], userId, kind)
  {
    set id | id in programs && Listed(programs[id], userId, kind)
  }

  /** listAllProgramsOfUser: the caller's live programs (of the requested type), newest first. */
  ghost function ListPrograms(programs: map<int, Program>, slots: map<int, Slot>, catalog: map<int, Exercise>,
                              userId: string, kind: JsValue): (r: seq<ProgramSummary>)
    ensures forall id :: id in IdsOf(r) <==> id in programs && Listed(programs[id], userId, kind)
    ensures Distinct(IdsOf(r))
    ensures forall i :: 0 <= i < |r| ==> r[i].programId in programs && r[i] == Summary(programs, slots, catalog, r[i].programId)
    ensures forall i, j :: 0 <= i < j < |r| ==> r[i].createdAt >= r[j].createdAt
  {
    SummariesOf(programs, slots, catalog, ListedIds(programs, userId, kind))
  }

  /** `type` absent or `'all'` lists every live program of the owner. */
  lemma AllTypesListsEveryLiveProgram(programs: map<int, Program>, slots: map<int, Slot>, catalog: map<int, Exercise>,
                                      userId: string, id: int)
    requires id in programs && IsLive(programs[id].isDeleted)
    requires SqlTrim(programs[id].createdBy) == SqlTrim(JsTrim(userId))
    ensures id in IdsOf(ListPrograms(programs, slots, catalog, userId, Str("all")))
    ensures id in IdsOf(ListPrograms(programs, slots, catalog, userId, Undefined))
  {
    assert Listed(programs[id], userId, Str("all"));
    assert Listed(programs[id], userId, Undefined);
  }

  /** The search term: `String(nameQuery ?? '').trim()`. */
  function SearchTerm(nameQuery: JsValue): (t: string)
    ensures JsTrim(t) == t
    ensures Nullish(nameQuery) ==> t == []
  {
    TrimIdempotent(ToString(Coalesce(nameQuery, Str(""))), JsSpaces);
    JsTrim(ToString(Coalesce(nameQuery, Str(""))))
  }

  /** A query string with no whitespace at either end is its own search term. */
  lemma SearchTermOfUntrimmable(q: string)
    requires q == [] || (q[0] !in JsSpaces && q[|q| - 1] !in JsSpaces)
    ensures SearchTerm(Str(q)) == q
  {
    StrIsItsOwnText(q);
    TrimOfTrimmed(q, JsSpaces);
  }

  lemma UnderscoreIsItsOwnTerm()
    ensures SearchTerm(Str("_")) == "_"
  {
    assert '_' !in JsSpaces;
    SearchTermOfUntrimmable("_");
  }

  /** `p.name LIKE CONCAT('%', term, '%')`, with the term passed to LIKE unescaped; a NULL
      name matches nothing. */
  predicate NameLike(p: Program, term: string)
  {
    Col(p, "name").Str? && SqlLike.Like(Col(p, "name").s, "%" + term + "%")
  }

  function SearchIds(programs: map<int, Program>, userId: string, term: string, kind: JsValue): (ids: set<int>)
    ensures ids <= programs.Keys
    ensures forall id :: id in ids <==> id in programs && Listed(programs[id], userId, kind) && NameLike(programs[id], term)
  {
    set id | id in programs && Listed(programs[id], userId, kind) && NameLike(programs[id], term)
  }

  /** searchProgramsByNameForUser: a blank term finds nothing; otherwise the listed programs
      whose name matches the term, newest first. */
  ghost function SearchPrograms(programs: map<int, Program>, slots: map<int, Slot>, catalog: map<int, Exercise>,
                                userId: string, nameQuery: JsValue, kind: JsValue): (r: seq<ProgramSummary>)
    ensures SearchTerm(nameQuery) == [] ==> r == []
    ensures SearchTerm(nameQuery) != [] ==> forall id :: id in IdsOf(r) <==>
      id in programs && Listed(programs[id], userId, kind) && NameLike(programs[id], SearchTerm(nameQuery))
    ensures Distinct(IdsOf(r))
    ensures forall i :: 0 <= i < |r| ==> r[i].programId in programs && r[i] == Summary(programs, slots, catalog, r[i].programId)
    ensures forall i, j :: 0 <= i < j < |r| ==> r[i].createdAt >= r[j].createdAt
  {
    var term := SearchTerm(nameQuery);
    if term == [] then [] else SummariesOf(programs, slots, catalog, SearchIds(programs, userId, term, kind))
  }

  /** A search finds exactly the listed programs whose name matches. */
  lemma SearchRefinesList(programs: map<int, Program>, slots: map<int, Slot>, catalog: map<int, Exercise>,
                          userId: string, nameQuery: JsValue, kind: JsValue, id: int)
    requires SearchTerm(nameQuery) != []
    ensures id in IdsOf(SearchPrograms(programs, slots, catalog, userId, nameQuery, kind)) <==>
      id in IdsOf(ListPrograms(programs, slots, catalog, userId, kind)) && NameLike(programs[id], SearchTerm(nameQuery))
  {
  }

  /** Because the term reaches LIKE unescaped, a search for `_` finds every listed program
      with a non-empty name. */
  lemma UnderscoreSearchMatchesAnyName(programs: map<int, Program>, slots: map<int, Slot>, catalog: map<int, Exercise>,
                                       userId: string, kind: JsValue, id: int)
    requires id in programs && Listed(programs[id], userId, kind)
    requires Col(programs[id], "name").Str? && Col(programs[id], "name").s != []
    ensures id in IdsOf(SearchPrograms(programs, slots, catalog, userId, Str("_"), kind))
  {
    UnderscoreIsItsOwnTerm();
    UnderscoreIsLikeAnyName(programs[id]);
  }

  lemma UnderscoreIsLikeAnyName(p: Program)
    requires Col(p, "name").Str? && Col(p, "name").s != []
    ensures NameLike(p, "_")
  {
    SqlLike.UnderscoreMatchesAnyNonEmpty(Col(p, "name").s);
    assert "%" + "_" + "%" == "%_%";
  }

  /** A term without `%`, `_` or `\\` matches as a case-insensitive substring of the name. */
  lemma PlainTermIsSubstringSearch(p: Program, term: string)
    requires forall i :: 0 <= i < |term| ==> !SqlLike.IsWildcardOrEscape(term[i])
    requires Col(p, "name").Str?
    ensures NameLike(p, term) <==> SqlLike.ContainsCI(Col(p, "name").s, term)
  {
    SqlLike.PlainEncodesItself(term);
    SqlLike.ContainsPattern(Col(p, "name").s, term, term);
  }

  /** One logged workout, as a program's details show it. */
  datatype PastWorkout = PastWorkout(workoutId: int, createdAt: int, updatedAt: int, note: JsValue, sets: JsValue)

  /** An exercise of a program with the catalog details and the caller's history for it. */
  datatype DetailEntry = DetailEntry(entry: SlotEntry, meta: Exercise, pastWorkouts: seq<PastWorkout>)

  datatype ProgramDetail = ProgramDetail(
    programId: int, cols: map<string, JsValue>, createdAt: int, updatedAt: int,
    exercises: seq<Option<DetailEntry>>)

  /** The caller's workouts for one exercise: `td.exercise_id = e.exercise_id AND td.user_id = ?`. */
  function HistoryIds(workouts: map<int, Workout>, userId: string, exerciseId: int): (ids: set<int>)
    ensures ids <= workouts.Keys
    ensures forall id :: id in ids <==> id in workouts && workouts[id].exerciseId == Num(exerciseId) && workouts[id].userId == userId
  {
    set id | id in workouts && workouts[id].exerciseId == Num(exerciseId) && workouts[id].userId == userId
  }

  /** `ORDER BY t.created_at DESC`. */

  /** The workout ids of a history, in order. */
  function WorkoutIdsOf(r: seq<PastWorkout>): (ids: seq<int>)
    ensures |ids| == |r|
    ensures forall i :: 0 <= i < |r| ==> ids[i] == r[i].workoutId
  {
    seq(|r|, i requires 0 <= i < |r| => r[i].workoutId)
  }

  function AsPast(workouts: map<int, Workout>, id: int): (w: PastWorkout)
    requires id in workouts
    ensures w.workoutId == id && w.createdAt == workouts[id].createdAt
  {
    var row := workouts[id];
    PastWorkout(id, row.createdAt, row.updatedAt, row.note, row.sets)
  }

  /** The workouts `order`, in that order. */
  function PastInOrder(workouts: map<int, Workout>, order: seq<int>): (r: seq<PastWorkout>)
    requires forall i :: 0 <= i < |order| ==> order[i] in workouts
    ensures |r| == |order| && WorkoutIdsOf(r) == order
    ensures forall i :: 0 <= i < |r| ==> r[i] == AsPast(workouts, order[i])
  {
    var r := seq(|order|, i requires 0 <= i < |order| => AsPast(workouts, order[i]));
    assert WorkoutIdsOf(r) == order;
    r
  }

  /** `ORDER BY created_at DESC` over workouts. */
  function WorkoutsNewestFirst(workouts: map<int, Workout>, ids: set<int>): (keys: map<int, Key>)
    requires ids <= workouts.Keys
    ensures keys.Keys == ids
    ensures forall id :: id in ids ==> keys[id].first == -workouts[id].createdAt
  {
    map id | id in ids :: Key(-workouts[id].createdAt, 0, 0)
  }

  /** The caller's workouts for one exercise, newest first. */
  ghost function PastWorkouts(workouts: map<int, Workout>, userId: string, exerciseId: int): (r: seq<PastWorkout>)
    ensures forall id :: id in WorkoutIdsOf(r) <==>
      id in workouts && workouts[id].exerciseId == Num(exerciseId) && workouts[id].userId == userId
    ensures Distinct(WorkoutIdsOf(r))
    ensures forall i :: 0 <= i < |r| ==> r[i].workoutId in workouts && r[i] == AsPast(workouts, r[i].workoutId)
    ensures forall i, j :: 0 <= i < j < |r| ==> r[i].createdAt >= r[j].createdAt
  {
    var ids := HistoryIds(workouts, userId, exerciseId);
    var keys := WorkoutsNewestFirst(workouts, ids);
    var order := SortIds(ids, keys);
    var r := PastInOrder(workouts, order);
    forall i, j | 0 <= i < j < |r|
      ensures r[i].createdAt >= r[j].createdAt
    {
      assert KeyLe(keys[order[i]], keys[order[j]]);
    }
    r
  }

  ghost function DetailOf(catalog: map<int, Exercise>, workouts: map<int, Workout>, userId: string,
                          e: Option<SlotEntry>): (d: Option<DetailEntry>)
    requires e.Some? ==> e.value.exerciseId in catalog
    ensures d.Some? <==> e.Some?
    ensures d.Some? ==>
      && d.value.entry == e.value && d.value.meta == catalog[e.value.exerciseId]
      && d.value.pastWorkouts == PastWorkouts(workouts, userId, e.value.exerciseId)
  {
    if e.None? then None
    else Some(DetailEntry(e.value, catalog[e.value.exerciseId], PastWorkouts(workouts, userId, e.value.exerciseId)))
  }

  /** `p.program_id = ? AND TRIM(p.created_by) = TRIM(?) AND p is not deleted`. */
  predicate DetailVisible(programs: map<int, Program>, userId: string, programId: int)
  {
    programId in programs && SqlTrim(programs[programId].createdBy) == SqlTrim(userId)
    && IsLive(programs[programId].isDeleted)
  }

  /** The details' `exercises` array, element by element over the summary's. */
  ghost function DetailEntries(slots: map<int, Slot>, workouts: map<int, Workout>, catalog: map<int, Exercise>,
                               userId: string, programId: int): (r: seq<Option<DetailEntry>>)
    ensures |r| == |SlotEntries(slots, catalog, programId)|
    ensures forall i :: 0 <= i < |r| ==> r[i] == DetailOf(catalog, workouts, userId, SlotEntries(slots, catalog, programId)[i])
  {
    var es := SlotEntries(slots, catalog, programId);
    seq(|es|, i requires 0 <= i < |es| => DetailOf(catalog, workouts, userId, es[i]))
  }

  /** getProgramDetailsById: the caller's live program with, per live slot, the exercise, its
      catalog details and the caller's workouts for that exercise. */
  ghost function ProgramDetails(programs: map<int, Program>, slots: map<int, Slot>, workouts: map<int, Workout>,
                                catalog: map<int, Exercise>, userId: string, programId: int): (r: Result<ProgramDetail>)
    ensures r.Ok? <==> DetailVisible(programs, userId, programId)
    ensures r.Err? ==> r.message == ProgramNotFound
    ensures r.Ok? ==>
      && r.value.programId == programId && r.value.cols == Selected(programs[programId])
      && r.value.createdAt == programs[programId].createdAt && r.value.updatedAt == programs[programId].updatedAt
      && r.value.exercises == DetailEntries(slots, workouts, catalog, userId, programId)
  {
    if DetailVisible(programs, userId, programId) then
      var p := programs[programId];
      Ok(ProgramDetail(programId, Selected(p), p.createdAt, p.updatedAt, DetailEntries(slots, workouts, catalog, userId, programId)))
    else Err(ProgramNotFound)
  }

  // ---------------------------------------------------------------------------
  // The store

  /** The tables the repository writes, with their auto-increment counters. The exercise
      catalog is only read here. */
  class ProgramStore {
    var programs: map<int, Program>
    var slots: map<int, Slot>
    var workouts: map<int, Workout>
    var catalog: map<int, Exercise>
    var nextProgramId: int
    var nextSlotId: int
    var nextWorkoutId: int

    /** Every id handed out so far is below its counter. */
    ghost predicate Valid()
      reads this
    {
      && (forall id :: id in programs ==> id < nextProgramId)
      && (forall id :: id in slots ==> id < nextSlotId)
      && (forall id :: id in workouts ==> id < nextWorkoutId)
    }

    constructor (catalog: map<int, Exercise>)
      ensures Valid()
      ensures programs == map[] && slots == map[] && workouts == map[] && this.catalog == catalog
      ensures nextProgramId == 1 && nextSlotId == 1 && nextWorkoutId == 1
    {
      programs, slots, workouts, this.catalog := map[], map[], map[], catalog;
      nextProgramId, nextSlotId, nextWorkoutId := 1, 1, 1;
    }

    /** createProgram: inserts a live row owned by `userId` under a fresh id. */
    method CreateProgram(userId: string, data: map<string, JsValue>, now: int) returns (r: CreatedProgram)
      requires Valid()
      modifies this
      ensures Valid()
      ensures r.programId == old(nextProgramId) && r.programId !in old(programs)
      ensures programs == old(programs)[r.programId := CreatedRow(userId, data, now)]
      ensures r.cols == programs[r.programId].cols && r.createdBy == userId
      ensures nextProgramId == old(nextProgramId) + 1
      ensures slots == old(slots) && workouts == old(workouts) && catalog == old(catalog)
      ensures nextSlotId == old(nextSlotId) && nextWorkoutId == old(nextWorkoutId)
    {
      var row := CreatedRow(userId, data, now);
      var id := nextProgramId;
      programs := programs[id := row];
      nextProgramId := id + 1;
      r := CreatedProgram(id, row.cols, userId);
    }

    /** updateProgramForUser: builds the SET clause, rejects an update with no allow-listed
        key, then updates the owned live row. */
    method UpdateProgramForUser(userId: string, programId: int, data: map<string, JsValue>, now: int)
      returns (r: Result<string>)
      requires Valid()
      modifies this
      ensures Valid()
      ensures (r, programs) == UpdateProgram(old(programs), userId, programId, data, now)
      ensures slots == old(slots) && workouts == old(workouts) && catalog == old(catalog)
      ensures nextProgramId == old(nextProgramId) && nextSlotId == old(nextSlotId)
      ensures nextWorkoutId == old(nextWorkoutId)
    {
      var setClause, params := BuildUpdateSet(data);
      if UpdateGuardAsWritten(setClause, params) {
        AsWrittenGuardNeverFires(data);
        return Err("No fields to update");
      }
      if programId in programs && programs[programId].createdBy == userId && IsLive(programs[programId].isDeleted) {
        var p := programs[programId];
        programs := programs[programId := p.(cols := p.cols + Assigned(data), updatedAt := now)];
        r := Ok("Program updated successfully");
      } else {
        r := Err("Program not found or no changes made");
      }
    }

    /** deleteProgramForUser, soft by default. */
    method DeleteProgramForUser(userId: string, programId: int, hard: bool, now: int) returns (r: Result<string>)
      requires Valid()
      modifies this
      ensures Valid()
      ensures (r, programs) == DeleteProgram(old(programs), userId, programId, hard, now)
      ensures slots == old(slots) && workouts == old(workouts) && catalog == old(catalog)
      ensures nextProgramId == old(nextProgramId) && nextSlotId == old(nextSlotId)
      ensures nextWorkoutId == old(nextWorkoutId)
    {
      if hard {
        if programId in programs && programs[programId].createdBy == userId {
          programs := programs - {programId};
          r := Ok("Program permanently deleted");
        } else {
          r := Err(ProgramNotFound);
        }
        return;
      }
      if programId in programs && programs[programId].createdBy == userId && IsLive(programs[programId].isDeleted) {
        programs := programs[programId := programs[programId].(isDeleted := Flag(1), updatedAt := now)];
        r := Ok("Program deleted successfully");
      } else {
        r := Err(ProgramNotFound);
      }
    }

    /** createProgramWithExercises: in one transaction, the program row and one slot per
        entry of `exercises`; any failure rolls every insert back. */
    method CreateProgramWithExercises(userId: string, data: map<string, JsValue>, exercises: seq<JsValue>,
                                      now: int, fault: Fault) returns (r: Result<BulkCreated>)
      requires Valid()
      modifies this
      ensures Valid()
      ensures r.Ok? <==> Commits(fault, exercises)
      ensures r.Err? ==>
        && r.message == BulkCreateError
        && programs == old(programs) && slots == old(slots)
        && nextProgramId == old(nextProgramId) && nextSlotId == old(nextSlotId)
      ensures r.Ok? ==>
        && r.value == BulkCreated(old(nextProgramId), Lookup(data, "name"), Lookup(data, "type"),
                                  Lookup(data, "training_type"), userId, |exercises|)
        && programs == old(programs)[old(nextProgramId) := BulkCreatedRow(userId, data, now)]
        && slots == old(slots) + SlotsFor(old(nextProgramId), old(nextSlotId), exercises, now)
        && nextProgramId == old(nextProgramId) + 1
        && nextSlotId == old(nextSlotId) + |exercises|
      ensures workouts == old(workouts) && catalog == old(catalog) && nextWorkoutId == old(nextWorkoutId)
    {
      // The transaction's inserts are held back until COMMIT; a ROLLBACK discards them.
      if fault.ProgramInsertFails? {
        return Err(BulkCreateError);
      }
      var pid := nextProgramId;
      var firstSlot := nextSlotId;
      var ok, pending := PendingSlots(pid, firstSlot, exercises, now, fault);
      CommitsEntryByEntry(fault, exercises);
      if !ok {
        return Err(BulkCreateError);
      }
      programs := programs[pid := BulkCreatedRow(userId, data, now)];
      nextProgramId := pid + 1;
      slots := slots + pending;
      nextSlotId := firstSlot + |exercises|;
      r := Ok(BulkCreated(pid, Lookup(data, "name"), Lookup(data, "type"), Lookup(data, "training_type"),
                          userId, |exercises|));
    }

    /** createWorkoutForExercise: resolves the exercise, inserts the workout and returns the
        re-read row, all in one transaction. `insertError` is the store's error, if any,
        for the insert. */
    method CreateWorkoutForExercise(userId: string, programId: int, slotId: int, exerciseId: JsValue,
                                    note: JsValue, sets: JsValue, now: int, insertError: Option<string>)
      returns (r: Result<SavedWorkout>)
      requires Valid()
      modifies this
      ensures Valid()
      ensures r.Ok? <==> ResolveExercise(slots, programId, slotId, exerciseId).Ok? && insertError.None?
      ensures ResolveExercise(slots, programId, slotId, exerciseId).Err? ==> r == Err(SlotNotFound)
      ensures ResolveExercise(slots, programId, slotId, exerciseId).Ok? && insertError.Some? ==>
        r == Err(insertError.value)
      ensures r.Err? ==> workouts == old(workouts) && nextWorkoutId == old(nextWorkoutId)
      ensures r.Ok? ==>
        && r.value.workoutId == old(nextWorkoutId)
        && r.value.row == Workout(slotId, userId, ResolveExercise(slots, programId, slotId, exerciseId).value,
                                  DefaultIfUndefined(sets, Arr([])), DefaultIfUndefined(note, Str("")), now, now)
        && workouts == old(workouts)[r.value.workoutId := r.value.row]
        && nextWorkoutId == old(nextWorkoutId) + 1
      ensures programs == old(programs) && slots == old(slots) && catalog == old(catalog)
      ensures nextProgramId == old(nextProgramId) && nextSlotId == old(nextSlotId)
    {
      var exId := exerciseId;
      if !Truthy(exId) {
        if !(slotId in slots && slots[slotId].programId == programId && IsLive(slots[slotId].isDeleted)) {
          return Err(SlotNotFound);
        }
        exId := slots[slotId].exerciseId;
      }
      if insertError.Some? {
        return Err(insertError.value);
      }
      var row := Workout(slotId, userId, exId, DefaultIfUndefined(sets, Arr([])),
                         DefaultIfUndefined(note, Str("")), now, now);
      var id := nextWorkoutId;
      workouts := workouts[id := row];
      nextWorkoutId := id + 1;
      r := Ok(SavedWorkout(id, workouts[id]));
    }
  }
}
