/** The program handlers' request shaping: the write allow-list, where a bulk create finds
    its program and exercises, and the guards and error mapping of the workout, search and
    details handlers. */
module ProgramController {
  import opened Wrappers
  import opened JsValues
  import opened Strings
  import opened Schema
  import opened Http
  import opened ProgramModel

  /** What `Object.prototype.hasOwnProperty.call(null, k)` throws. */
  const NullToObject: string := "Cannot convert undefined or null to object"

  /** The allow-listed own properties of `src`, with their values. */
  function Picked(src: JsValue): (out: map<string, JsValue>)
    ensures forall k :: k in out <==> k in EditableColumns && HasOwn(src, k)
    ensures forall k :: k in out ==> src.Obj? && k in src.props && out[k] == src.props[k]
  {
    if src.Obj? then map k | k in EditableColumns && k in src.props :: src.props[k] else map[]
  }

  /** pickProgramFields: copies each allow-listed key that `src` owns; `src` defaults to `{}`
      when undefined, and a null `src` throws. */
  method PickProgramFields(src: JsValue) returns (r: Result<map<string, JsValue>>)
    ensures src.Null? <==> r.Err?
    ensures r.Err? ==> r.message == NullToObject
    ensures r.Ok? ==> r.value == Picked(DefaultIfUndefined(src, Obj(map[])))
  {
    var s := DefaultIfUndefined(src, Obj(map[]));
    if s.Null? {
      return Err(NullToObject);
    }
    var out: map<string, JsValue> := map[];
    for i := 0 to |EditableColumns|
      invariant forall k :: k in out <==> k in EditableColumns[..i] && HasOwn(s, k)
      invariant forall k :: k in out ==> out[k] == s.props[k]
    {
      var k := EditableColumns[i];
      assert EditableColumns[..i + 1] == EditableColumns[..i] + [k];
      if HasOwn(s, k) {
        out := out[k := s.props[k]];
      }
    }
    assert EditableColumns[..|EditableColumns|] == EditableColumns;
    r := Ok(out);
  }

  /** The picked fields are exactly what an update may write: the update assigns every
      picked key and no other. */
  lemma PickedIsWhatUpdateWrites(src: JsValue)
    ensures Assigned(Picked(src)).Keys == Picked(src).Keys
    ensures forall k :: k in Picked(src) ==> Assigned(Picked(src))[k] == Coalesce(src.props[k], Null)
  {
  }

  /** `req.body || {}`. */
  function BodyOrEmpty(body: JsValue): (b: JsValue)
    ensures Truthy(b)
    ensures Truthy(body) ==> b == body
  {
    Or(body, Obj(map[]))
  }

  /** `body.program ? body.program : body`: where a bulk create reads the program fields. */
  function ProgramSource(body: JsValue): (src: JsValue)
    ensures Truthy(Get(BodyOrEmpty(body), "program")) ==> src == Get(BodyOrEmpty(body), "program")
    ensures !Truthy(Get(BodyOrEmpty(body), "program")) ==> src == BodyOrEmpty(body)
    ensures !Nullish(src)
  {
    var b := BodyOrEmpty(body);
    if Truthy(Get(b, "program")) then Get(b, "program") else b
  }

  /** The exercise list of a bulk create: `body.exercises` if it is an array, else
      `body.program?.exercises` if that is one, else none. */
  function ExercisesFrom(body: JsValue): (exs: seq<JsValue>)
    ensures Get(BodyOrEmpty(body), "exercises").Arr? ==> exs == Get(BodyOrEmpty(body), "exercises").items
    ensures !Get(BodyOrEmpty(body), "exercises").Arr? && OptProp(Get(BodyOrEmpty(body), "program"), "exercises").Arr? ==>
      exs == OptProp(Get(BodyOrEmpty(body), "program"), "exercises").items
    ensures !Get(BodyOrEmpty(body), "exercises").Arr? && !OptProp(Get(BodyOrEmpty(body), "program"), "exercises").Arr? ==>
      exs == []
  {
    var b := BodyOrEmpty(body);
    var top := Get(b, "exercises");
    var nested := OptProp(Get(b, "program"), "exercises");
    if top.Arr? then top.items else if nested.Arr? then nested.items else []
  }

  /** With no `program` wrapper the fields come from the body itself. */
  lemma FlatBodyIsItsOwnSource(props: map<string, JsValue>)
    requires "program" !in props
    ensures ProgramSource(Obj(props)) == Obj(props)
    ensures Picked(ProgramSource(Obj(props))) == Picked(Obj(props))
  {
  }

  /** createProgramWithExercises: shapes the body, then runs the transactional create; a
      failure is reported as 400 with the store's message. */
  method CreateProgramWithExercises(store: ProgramStore, userId: string, body: JsValue, now: int, fault: Fault)
    returns (r: Reply<BulkCreated>)
    requires store.Valid()
    modifies store
    ensures store.Valid()
    ensures r.Success? <==> Commits(fault, ExercisesFrom(body))
    ensures r.Failure? ==>
      && r == Failure(400, BulkCreateError)
      && store.programs == old(store.programs) && store.slots == old(store.slots)
    ensures r.Success? ==>
      && r.status == 201
      && r.value.programId == old(store.nextProgramId)
      && r.value.totalExercises == |ExercisesFrom(body)|
      && store.programs == old(store.programs)[r.value.programId :=
           BulkCreatedRow(userId, Picked(ProgramSource(body)), now)]
      && store.slots == old(store.slots) + SlotsFor(r.value.programId, old(store.nextSlotId), ExercisesFrom(body), now)
    ensures store.workouts == old(store.workouts) && store.catalog == old(store.catalog)
  {
    var src := ProgramSource(body);
    var picked := PickProgramFields(src);
    var exercises := ExercisesFrom(body);
    var res := store.CreateProgramWithExercises(userId, picked.value, exercises, now, fault);
    if res.Err? {
      return Failure(400, res.message);
    }
    r := Success(201, res.value);
  }

  // ---------------------------------------------------------------------------
  // saveWorkout

  /** `String(a || b || '').trim()`: the first truthy of two ids, as trimmed text. */
  function FirstUserId(a: JsValue, b: JsValue): (u: string)
    ensures u != [] ==> Truthy(a) || Truthy(b)
  {
    JsTrim(ToString(Or(Or(a, b), Str(""))))
  }

  /** The user id has no white space left at either end. */
  lemma FirstUserIdIsTrimmed(a: JsValue, b: JsValue)
    ensures JsTrim(FirstUserId(a, b)) == FirstUserId(a, b)
  {
    TrimIdempotent(ToString(Or(Or(a, b), Str(""))), JsSpaces);
  }

  /** A truthy auth id wins over anything the body says; a falsy one defers to it. */
  lemma AuthIdTakesPrecedence(auth: JsValue, fromBody: JsValue)
    ensures Truthy(auth) ==> FirstUserId(auth, fromBody) == JsTrim(ToString(auth))
    ensures !Truthy(auth) && Truthy(fromBody) ==> FirstUserId(auth, fromBody) == JsTrim(ToString(fromBody))
    ensures !Truthy(auth) && !Truthy(fromBody) ==> FirstUserId(auth, fromBody) == []
  {
  }

  const MissingUserId: string := "Missing userId"
  const SetsNotArray: string := "sets must be an array"
  const InternalServerError: string := "Internal server error"

  /** The error text the handler maps to 404. */
  predicate MentionsMissingSlot(message: string)
  {
    Includes(Lower(message), "program " + "exercise " + "not found")
  }

  /** The model's own error for a missing slot is one the handler maps to 404. */
  lemma SlotNotFoundMapsTo404()
    ensures MentionsMissingSlot(SlotNotFound)
  {
    LowerAppend("Program " + "exercise ", "not found");
    LowerAppend("Program ", "exercise ");
    LowerOfCapitalised("Program ");
    assert Lower("Program ") == "program ";
    LowerOfLowercase("exercise ");
    LowerOfLowercase("not found");
    var target := "program " + "exercise " + "not found";
    assert Lower(SlotNotFound) == target;
    IncludesTail([], target);
    assert [] + target == target;
  }

  /** The failures of saveWorkout that stop before the model is called. */
  function SaveWorkoutGuard(auth: JsValue, body: JsValue): (r: Option<Reply<SavedWorkout>>)
    ensures Nullish(body) && !Truthy(auth) ==> r == Some(Failure(500, InternalServerError))
    ensures !Nullish(body) || Truthy(auth) ==>
      && (FirstUserId(auth, Get(body, "user_id")) == [] ==> r == Some(Failure(400, MissingUserId)))
      && (FirstUserId(auth, Get(body, "user_id")) != [] && Nullish(body) ==> r == Some(Failure(500, InternalServerError)))
      && (FirstUserId(auth, Get(body, "user_id")) != [] && !Nullish(body) ==>
            (r.None? <==> DefaultIfUndefined(Get(body, "sets"), Arr([])).Arr?)
            && (r.Some? ==> r == Some(Failure(400, SetsNotArray))))
  {
    // `req.body.user_id` is read only when the auth id is falsy; on a missing body it throws.
    if !Truthy(auth) && Nullish(body) then Some(Failure(500, InternalServerError))
    else
      var userId := FirstUserId(auth, if Truthy(auth) then Undefined else Get(body, "user_id"));
      assert Truthy(auth) ==> userId == FirstUserId(auth, Get(body, "user_id"));
      if userId == [] then Some(Failure(400, MissingUserId))
      // Destructuring `req.body` throws on a missing body.
      else if Nullish(body) then Some(Failure(500, InternalServerError))
      else if !DefaultIfUndefined(Get(body, "sets"), Arr([])).Arr? then Some(Failure(400, SetsNotArray))
      else None
  }

  /** saveWorkout: validates the request, then logs the workout; a missing slot is 404 and
      every other failure 500. */
  method SaveWorkout(store: ProgramStore, auth: JsValue, programId: int, slotId: int, body: JsValue,
                     now: int, insertError: Option<string>) returns (r: Reply<SavedWorkout>)
    requires store.Valid()
    modifies store
    ensures store.Valid()
    ensures SaveWorkoutGuard(auth, body).Some? ==>
      r == SaveWorkoutGuard(auth, body).value && store.workouts == old(store.workouts)
    ensures SaveWorkoutGuard(auth, body).None? ==>
      var resolved := ResolveExercise(old(store.slots), programId, slotId, Get(body, "exercise_id"));
      && (resolved.Err? ==> r == Failure(404, SlotNotFound))
      && (resolved.Ok? && insertError.Some? ==>
            r == (if MentionsMissingSlot(insertError.value) then Failure(404, SlotNotFound)
                  else Failure(500, InternalServerError)))
      && (r.Success? <==> resolved.Ok? && insertError.None?)
      && (r.Success? ==>
            && r.status == 201
            && r.value.row == Workout(slotId, FirstUserId(auth, Get(body, "user_id")), resolved.value,
                                      DefaultIfUndefined(Get(body, "sets"), Arr([])),
                                      DefaultIfUndefined(Get(body, "note"), Str("")), now, now)
            && r.value.workoutId == old(store.nextWorkoutId) && r.value.workoutId !in old(store.workouts)
            && store.workouts == old(store.workouts)[r.value.workoutId := r.value.row])
      && (r.Failure? ==> store.workouts == old(store.workouts))
    ensures store.programs == old(store.programs) && store.slots == old(store.slots)
  {
    var guard := SaveWorkoutGuard(auth, body);
    if guard.Some? {
      return guard.value;
    }
    var userId := FirstUserId(auth, Get(body, "user_id"));
    var note := DefaultIfUndefined(Get(body, "note"), Str(""));
    var sets := DefaultIfUndefined(Get(body, "sets"), Arr([]));
    var saved := store.CreateWorkoutForExercise(userId, programId, slotId, Get(body, "exercise_id"), note, sets, now, insertError);
    if saved.Err? {
      SlotNotFoundMapsTo404();
      if MentionsMissingSlot(saved.message) {
        return Failure(404, SlotNotFound);
      }
      return Failure(500, InternalServerError);
    }
    r := Success(201, saved.value);
  }

  // ---------------------------------------------------------------------------
  // searchProgramsByNameForUser and getProgramDetailsById

  datatype SearchResult = SearchResult(items: seq<ProgramSummary>, q: JsValue)

  const NameRequired: string := "Query param 'name' is required"

  /** searchProgramsByNameForUser: a blank name is 400 before the model is asked; a store
      failure (`dbError`) is 500 with its message. */
  ghost function SearchHandler(programs: map<int, Program>, slots: map<int, Slot>, catalog: map<int, Exercise>,
                               userId: string, name: JsValue, kind: JsValue, dbError: Option<string>): (r: Reply<SearchResult>)
    ensures SearchTerm(name) == [] ==> r == Failure(400, NameRequired)
    ensures SearchTerm(name) != [] && dbError.Some? ==> r == Failure(500, dbError.value)
    ensures r.Success? <==> SearchTerm(name) != [] && dbError.None?
    ensures r.Success? ==>
      && r.status == 200 && r.value.q == name
      && r.value.items == SearchPrograms(programs, slots, catalog, userId, name, kind)
  {
    if SearchTerm(name) == [] then Failure(400, NameRequired)
    else if dbError.Some? then Failure(500, dbError.value)
    else Success(200, SearchResult(SearchPrograms(programs, slots, catalog, userId, name, kind), name))
  }

  const BadDetailsRequest: string := "userId hoặc programId không hợp lệ"

  /** The 404 test of the details handler. */
  predicate MentionsNotFound(message: string)
    ensures MentionsNotFound(message) ==> |message| >= |"not found"|
    ensures Includes(message, "not found") ==> MentionsNotFound(message)
  {
    IncludesLower(message, "not found");
    Includes(Lower(message), "not found")
  }

  lemma ProgramNotFoundMapsTo404()
    ensures MentionsNotFound(ProgramNotFound)
  {
    LowerAppend("Program ", "not found");
    LowerOfCapitalised("Program ");
    assert Lower("Program ") == "program ";
    LowerOfLowercase("not found");
    IncludesTail("program ", "not found");
  }

  /** getProgramDetailsById. `programId` is `Number(param)`, `None` for NaN; `dbError` is a
      failure of the store. */
  ghost function DetailsHandler(programs: map<int, Program>, slots: map<int, Slot>, workouts: map<int, Workout>,
                                catalog: map<int, Exercise>, auth: JsValue, userIdParam: JsValue,
                                programId: Option<int>, dbError: bool): (r: Reply<ProgramDetail>)
    ensures FirstUserId(auth, userIdParam) == [] || programId.None? ==> r == Failure(400, BadDetailsRequest)
    ensures FirstUserId(auth, userIdParam) != [] && programId.Some? ==>
      && (dbError ==> r == Failure(500, InternalServerError))
      && (!dbError && !DetailVisible(programs, FirstUserId(auth, userIdParam), programId.value) ==>
            r == Failure(404, ProgramNotFound))
      && (r.Success? <==> !dbError && DetailVisible(programs, FirstUserId(auth, userIdParam), programId.value))
      && (r.Success? ==>
            r.status == 200 &&
            Ok(r.value) == ProgramDetails(programs, slots, workouts, catalog, FirstUserId(auth, userIdParam), programId.value))
  {
    var userId := FirstUserId(auth, userIdParam);
    if userId == [] || programId.None? then Failure(400, BadDetailsRequest)
    else if dbError then Failure(500, InternalServerError)
    else
      var res := ProgramDetails(programs, slots, workouts, catalog, userId, programId.value);
      if res.Err? then
        ProgramNotFoundMapsTo404();
        if MentionsNotFound(res.message) then Failure(404, ProgramNotFound) else Failure(500, InternalServerError)
      else Success(200, res.value)
  }
}
