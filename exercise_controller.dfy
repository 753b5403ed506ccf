/** The exercise handlers: parsing of positive integer parameters, the id and name guards,
    and the mapping of model errors to HTTP statuses. */
module ExerciseController {
  import opened Wrappers
  import opened JsValues
  import opened Strings
  import opened Schema
  import opened Http
  import opened ExerciseModel
  import ProgramModel

  /** `toPosInt(v, def)`. `v` is `Number(v)`, with `None` for NaN and the infinities; a
      positive value is truncated toward zero, anything else gives `def` (`null` by default,
      written `None`). */
  function ToPosInt(v: Option<real>, def: Option<int>): (r: Option<int>)
    ensures v.Some? && v.value > 0.0 ==> r.Some? && r.value >= 0 && r.value as real <= v.value < r.value as real + 1.0
    ensures v.Some? && v.value >= 1.0 ==> r.Some? && r.value >= 1
    ensures v.None? || v.value <= 0.0 ==> r == def
  {
    if v.Some? && v.value > 0.0 then Some(v.value.Floor) else def
  }

  /** `!id`: a parameter that is missing, zero or not a positive number. */
  predicate Falsy(id: Option<int>) { id.None? || id.value == 0 }

  /** The page a listing shows: `toPosInt(page, 1)` in the handler, then `toInt(page, 1)` in
      the model. Whatever the query says, the page is at least 1. */
  function RequestedPage(page: Option<real>): (p: int)
    ensures p >= 1
    ensures page.None? || page.value < 1.0 ==> p == 1
    ensures page.Some? && page.value >= 1.0 ==> p == page.value.Floor
  {
    var q := ToPosInt(page, Some(1)).value;
    ToInt(Some(q as real), 1)
  }

  /** listAllExercises: the page the query asks for. */
  ghost function ListAllExercisesHandler(catalog: map<int, Exercise>, page: Option<real>): (r: Reply<ExercisePage>)
    ensures r.Success? && r.status == 200
    ensures r.value == ListAllExercises(catalog, ToPosInt(page, Some(1)).value)
    ensures r.value.page == RequestedPage(page) && r.value.page >= 1
  {
    Success(200, ListAllExercises(catalog, ToPosInt(page, Some(1)).value))
  }

  datatype ProgramExercises = ProgramExercises(programId: int, exercises: seq<ProgramExercise>)

  const InvalidProgramId: string := "Invalid programId"

  /** listAllExercisesOfProgram: a missing or non-positive program id is 400. */
  ghost function ExercisesOfProgramHandler(slots: map<int, Slot>, catalog: map<int, Exercise>, programId: Option<real>): (r: Reply<ProgramExercises>)
    ensures Falsy(ToPosInt(programId, None)) ==> r == Failure(400, InvalidProgramId)
    ensures programId.None? || programId.value < 1.0 ==> r == Failure(400, InvalidProgramId)
    ensures programId.Some? && programId.value >= 1.0 ==>
      var id := programId.value.Floor;
      r == Success(200, ProgramExercises(id, ExercisesOfProgram(slots, catalog, id)))
  {
    var id := ToPosInt(programId, None);
    if Falsy(id) then Failure(400, InvalidProgramId)
    else Success(200, ProgramExercises(id.value, ExercisesOfProgram(slots, catalog, id.value)))
  }

  datatype ExerciseSearch = ExerciseSearch(items: seq<int>, q: string)

  const HandlerNameRequired: string := "Query param 'name' is required"

  /** The model's search given an already trimmed, non-blank term: its own blank check does
      not fire and the term reaches `LIKE` unchanged. */
  lemma SearchOfTrimmedTerm(catalog: map<int, Exercise>, q: string)
    requires q != [] && JsTrim(q) == q
    ensures SearchExercises(catalog, Str(q)).Ok?
    ensures forall id :: id in SearchExercises(catalog, Str(q)).value <==> id in MatchingIds(catalog, q)
  {
    TrimmedTextIsItsTerm(q);
  }

  lemma TrimmedTextIsItsTerm(q: string)
    requires JsTrim(q) == q
    ensures JsTrim(ToString(Coalesce(Str(q), Str("")))) == q
  {
    StrIsItsOwnText(q);
  }

  /** searchExercisesByName: a blank name is 400; the model is then given the trimmed name,
      so its own blank check never fires, and a store failure is 500 with the model's message. */
  ghost function SearchHandler(catalog: map<int, Exercise>, name: JsValue, dbFault: bool): (r: Reply<ExerciseSearch>)
    ensures JsTrim(ToString(Coalesce(name, Str("")))) == [] ==> r == Failure(400, HandlerNameRequired)
    ensures JsTrim(ToString(Coalesce(name, Str("")))) != [] && dbFault ==> r == Failure(500, SearchFailed)
    ensures JsTrim(ToString(Coalesce(name, Str("")))) != [] && !dbFault ==>
      && r.Success? && r.status == 200 && r.value.q == JsTrim(ToString(Coalesce(name, Str(""))))
      && (forall id :: id in r.value.items <==> id in MatchingIds(catalog, r.value.q))
      && SearchExercises(catalog, Str(r.value.q)) == Ok(r.value.items)
  {
    var q := JsTrim(ToString(Coalesce(name, Str(""))));
    if q == [] then Failure(400, HandlerNameRequired)
    else if dbFault then Failure(500, SearchFailed)
    else
      TrimIdempotent(ToString(Coalesce(name, Str(""))), JsSpaces);
      SearchOfTrimmedTerm(catalog, q);
      Success(200, ExerciseSearch(SearchExercises(catalog, Str(q)).value, q))
  }

  const InvalidExerciseId: string := "Invalid exercise id"

  /** The handler's 404 test: `String(error).toLowerCase().includes("not found")`. */
  predicate MentionsNotFound(message: string)
    ensures MentionsNotFound(message) ==> |message| >= |"not found"|
    ensures Includes(message, "not found") ==> MentionsNotFound(message)
  {
    IncludesLower(message, "not found");
    Includes(Lower(message), "not found")
  }

  /** The model's missing-row message is recognised as a 404. */
  lemma ExerciseNotFoundMapsTo404()
    ensures MentionsNotFound(ExerciseNotFound)
  {
    LowerAppend("Exercise ", "not found");
    LowerOfCapitalised("Exercise ");
    assert Lower("Exercise ") == "exercise ";
    LowerOfLowercase("not found");
    IncludesTail("exercise ", "not found");
  }

  /** The store-failure message in lower case. */
  lemma LowerFetchFailed()
    ensures Lower(FetchFailed) == "an" + " error occurred while " + "fetching the exercise"
  {
    LowerAppend("An" + " error occurred while ", "fetching the exercise");
    LowerAppend("An", " error occurred while ");
    LowerOfCapitalised("An");
    assert Lower("An") == "an";
    LowerOfLowercase(" error occurred while ");
    LowerOfLowercase("fetching the exercise");
  }

  /** The lower-cased store-failure message has no `o` right after an `f`. */
  lemma LowerFetchFailedHasNoFo()
    ensures !HasPair("an" + " error occurred while " + "fetching the exercise", 'f', 'o')
  {
    var a, b, c := "an", " error occurred while ", "fetching the exercise";
    HasPairAppend(a, b, 'f', 'o');
    HasPairAppend(a + b, c, 'f', 'o');
  }

  /** The model's store-failure message is not mistaken for a missing row: it never has an
      `o` right after an `f`, and "not found" does. */
  lemma FetchFailedMapsTo500()
    ensures !MentionsNotFound(FetchFailed)
  {
    LowerFetchFailed();
    LowerFetchFailedHasNoFo();
    assert "not found"[4] == 'f' && "not found"[5] == 'o';
    MissingPairExcludes(Lower(FetchFailed), "not found", 'f', 'o');
  }

  /** getExerciseById: an invalid id is 400, a missing exercise 404, a store failure 500. */
  function GetByIdHandler(catalog: map<int, Exercise>, id: Option<real>, dbFault: bool): (r: Reply<Exercise>)
    ensures id.None? || id.value < 1.0 ==> r == Failure(400, InvalidExerciseId)
    ensures id.Some? && id.value >= 1.0 ==>
      && (dbFault ==> r == Failure(500, FetchFailed))
      && (!dbFault && id.value.Floor in catalog ==> r == Success(200, catalog[id.value.Floor]))
      && (!dbFault && id.value.Floor !in catalog ==> r == Failure(404, ExerciseNotFound))
  {
    var n := ToPosInt(id, None);
    if Falsy(n) then Failure(400, InvalidExerciseId)
    else
      var res := if dbFault then Err(FetchFailed) else GetExercise(catalog, n.value);
      match res
      case Ok(e) => Success(200, e)
      case Err(message) =>
        ExerciseNotFoundMapsTo404();
        FetchFailedMapsTo500();
        if MentionsNotFound(message) then Failure(404, ExerciseNotFound) else Failure(500, message)
  }
}
