/** The exercise catalog repository: the page arithmetic of the catalog listing, the
    exercises of a program, the name search and the lookup by id, with the number and
    pattern helpers they use. */
module ExerciseModel {
  import opened Wrappers
  import opened JsValues
  import opened Strings
  import opened Sorting
  import opened Schema
  import SqlLike
  import ProgramModel

  // ---------------------------------------------------------------------------
  // toInt and escapeLike

  /** `toInt(n, def)`. `v` is `Number(n)`, with `None` for NaN and the infinities; a positive
      value is truncated toward zero, anything else gives the default. */
  function ToInt(v: Option<real>, def: int): (r: int)
    ensures v.Some? && v.value >= 1.0 ==> r >= 1 && r as real <= v.value < r as real + 1.0
    ensures v.Some? && 0.0 < v.value < 1.0 ==> r == 0
    ensures v.None? || v.value <= 0.0 ==> r == def
  {
    if v.Some? && v.value > 0.0 then v.value.Floor else def
  }

  /** A positive whole number passes through unchanged. */
  lemma ToIntOfWhole(n: int, def: int)
    requires n >= 1
    ensures ToInt(Some(n as real), def) == n
  {
  }

  /** With a default of at least 1, `toInt` is at least 1 except on a fraction below 1,
      which truncates to 0. */
  lemma ToIntAtLeastOne(v: Option<real>, def: int)
    requires def >= 1
    ensures ToInt(v, def) >= 1 <==> !(v.Some? && 0.0 < v.value < 1.0)
  {
  }

  predicate IsLikeWildcard(c: char) { c == '%' || c == '_' }

  function WildcardCount(s: string): (n: nat)
    ensures n <= |s|
  {
    if s == [] then 0 else (if IsLikeWildcard(s[0]) then 1 else 0) + WildcardCount(s[1..])
  }

  /** The replace of `escapeLike`: a backslash before every `%` and `_`. */
  function EscapeText(s: string): (r: string)
    ensures |r| == |s| + WildcardCount(s)
  {
    if s == [] then []
    else (if IsLikeWildcard(s[0]) then ['\\', s[0]] else [s[0]]) + EscapeText(s[1..])
  }

  /** `escapeLike(s)`: `s` defaults to `''` when undefined and is converted with `String`. */
  function EscapeLike(v: JsValue): (p: string)
    ensures v.Undefined? ==> p == []
    ensures var s := ToString(DefaultIfUndefined(v, Str("")));
      && |p| == |s| + WildcardCount(s)
      && ((forall i :: 0 <= i < |s| ==> s[i] != '\\') ==> UnescapeText(p) == s)
  {
    var s := ToString(DefaultIfUndefined(v, Str("")));
    if forall i :: 0 <= i < |s| ==> s[i] != '\\' then UnescapeEscape(s); EscapeText(s)
    else EscapeText(s)
  }

  /** Drops the backslash before each escaped character. */
  function UnescapeText(p: string): string
    decreases |p|
  {
    if p == [] then []
    else if p[0] == '\\' && |p| >= 2 then [p[1]] + UnescapeText(p[2..])
    else [p[0]] + UnescapeText(p[1..])
  }

  /** Escaping loses nothing when `s` has no backslash of its own. */
  lemma {:induction false} UnescapeEscape(s: string)
    requires forall i :: 0 <= i < |s| ==> s[i] != '\\'
    ensures UnescapeText(EscapeText(s)) == s
    decreases |s|
  {
    if s != [] {
      UnescapeEscape(s[1..]);
      var head := if IsLikeWildcard(s[0]) then ['\\', s[0]] else [s[0]];
      assert EscapeText(s) == head + EscapeText(s[1..]);
      if IsLikeWildcard(s[0]) {
        assert (head + EscapeText(s[1..]))[2..] == EscapeText(s[1..]);
      } else {
        assert (head + EscapeText(s[1..]))[1..] == EscapeText(s[1..]);
      }
    }
  }

  /** For text without a backslash, the escaped text is a `LIKE` pattern matching exactly
      that text. */
  lemma {:induction false} EscapedTextIsLiteral(s: string)
    requires forall i :: 0 <= i < |s| ==> s[i] != '\\'
    ensures SqlLike.Encodes(EscapeText(s), s)
    decreases |s|
  {
    if s != [] {
      EscapedTextIsLiteral(s[1..]);
      var p := EscapeText(s);
      if IsLikeWildcard(s[0]) {
        assert p[..2] == ['\\', s[0]] && p[2..] == EscapeText(s[1..]);
      } else {
        assert p[0] == s[0] && p[1..] == EscapeText(s[1..]);
      }
    }
  }

  /** Hence searching with the escaped text is a plain substring search. */
  lemma EscapedSearchIsSubstringSearch(t: string, s: string)
    requires forall i :: 0 <= i < |s| ==> s[i] != '\\'
    ensures SqlLike.Like(t, "%" + EscapeText(s) + "%") <==> SqlLike.ContainsCI(t, s)
  {
    EscapedTextIsLiteral(s);
    SqlLike.ContainsPattern(t, EscapeText(s), s);
  }

  /** A backslash in the text is left alone, so `\_` still ends in a wildcard: its escaped
      form matches a backslash followed by any character. */
  lemma BackslashIsNotEscaped()
    ensures EscapeText("\\_") == "\\\\_"
    ensures SqlLike.Like("\\x", "%" + EscapeText("\\_") + "%")
    ensures !SqlLike.ContainsCI("\\x", "\\_")
  {
    assert EscapeText("\\_") == "\\" + EscapeText("_");
    assert "%" + "\\\\_" + "%" == "%\\\\_%";
    assert SqlLike.Like("", "%");
    assert SqlLike.Like("", "_%") == false;
    assert SqlLike.Like("x", "_%") by {
      assert SqlLike.Like("", "%");
    }
    assert SqlLike.Like("\\x", "\\\\_%");
    assert SqlLike.Like("\\x", "%\\\\_%");
  }

  // ---------------------------------------------------------------------------
  // listAllExercises

  const PageSize: int := 10

  /** `(p - 1) * pageSize` with `p = toInt(page, 1)`. */
  function PageOffset(p: int): (o: int)
    ensures p >= 1 ==> o >= 0 && o % PageSize == 0
  {
    (p - 1) * PageSize
  }

  /** `Math.max(1, Math.ceil(total / pageSize))`. */
  function TotalPages(total: nat): (n: int)
    ensures n >= 1
    ensures n * PageSize >= total
    ensures total > 0 ==> (n - 1) * PageSize < total
    ensures total == 0 ==> n == 1
  {
    var pages := (total + PageSize - 1) / PageSize;
    if pages < 1 then 1 else pages
  }

  /** `ORDER BY e.updated_at DESC, e.exercise_id DESC`. */
  function RecentFirst(catalog: map<int, Exercise>): (keys: map<int, Key>)
    ensures keys.Keys == catalog.Keys
    ensures forall id :: id in catalog ==> keys[id] == Key(-catalog[id].updatedAt, -id, 0)
  {
    map id | id in catalog :: Key(-catalog[id].updatedAt, -id, 0)
  }

  /** `x` comes before `y` in the catalog order. */
  predicate ListedBefore(catalog: map<int, Exercise>, x: int, y: int)
    requires x in catalog && y in catalog
  {
    catalog[x].updatedAt > catalog[y].updatedAt || (catalog[x].updatedAt == catalog[y].updatedAt && x > y)
  }

  /** Distinct ids in key order are in catalog order. */
  lemma KeyOrderIsListedBefore(catalog: map<int, Exercise>, x: int, y: int)
    requires x in catalog && y in catalog && x != y
    requires KeyLe(RecentFirst(catalog)[x], RecentFirst(catalog)[y])
    ensures ListedBefore(catalog, x, y)
  {
  }

  /** The exercises `ids`, most recently updated first, newest id first on a tie. */
  ghost function OrderedIds(catalog: map<int, Exercise>, ids: set<int>): (r: seq<int>)
    requires ids <= catalog.Keys
    ensures forall id :: id in r <==> id in ids
    ensures |r| == |ids|
    ensures forall i, j :: 0 <= i < j < |r| ==> r[i] in catalog && r[j] in catalog && ListedBefore(catalog, r[i], r[j])
  {
    var keys := RecentFirst(catalog);
    var r := SortIds(ids, keys);
    forall i, j | 0 <= i < j < |r|
      ensures ListedBefore(catalog, r[i], r[j])
    {
      KeyOrderIsListedBefore(catalog, r[i], r[j]);
    }
    r
  }

  /** The whole catalog in catalog order. */
  ghost function CatalogOrder(catalog: map<int, Exercise>): (ids: seq<int>)
    ensures forall id :: id in ids <==> id in catalog
    ensures |ids| == |catalog.Keys|
    ensures forall i, j :: 0 <= i < j < |ids| ==> ids[i] in catalog && ids[j] in catalog && ListedBefore(catalog, ids[i], ids[j])
  {
    OrderedIds(catalog, catalog.Keys)
  }

  datatype ExercisePage = ExercisePage(items: seq<int>, page: int, pageSize: int, total: int, totalPages: int)

  /** `LIMIT pageSize OFFSET offset` over the ordered catalog. */
  function PageOf(ids: seq<int>, offset: int): (items: seq<int>)
    requires offset >= 0
    ensures |items| <= PageSize
    ensures offset >= |ids| ==> items == []
    ensures offset < |ids| ==> items == ids[offset..if offset + PageSize <= |ids| then offset + PageSize else |ids|]
  {
    if offset >= |ids| then [] else ids[offset..if offset + PageSize <= |ids| then offset + PageSize else |ids|]
  }

  /** listAllExercises: one page of the catalog with the page count. */
  ghost function ListAllExercises(catalog: map<int, Exercise>, page: int): (r: ExercisePage)
    ensures r.page == ToInt(Some(page as real), 1) && r.page >= 1
    ensures r.pageSize == PageSize && r.total == |catalog.Keys| && r.totalPages == TotalPages(|catalog.Keys|)
    ensures r.items == PageOf(CatalogOrder(catalog), PageOffset(r.page))
    ensures forall id :: id in r.items ==> id in catalog
  {
    var p := ToInt(Some(page as real), 1);
    ExercisePage(PageOf(CatalogOrder(catalog), PageOffset(p)), p, PageSize, |catalog.Keys|, TotalPages(|catalog.Keys|))
  }

  /** The page that shows position `i` of the listing. */
  function PageOfIndex(i: nat): (p: int)
    ensures p >= 1 && PageOffset(p) <= i < PageOffset(p) + PageSize
  {
    i / PageSize + 1
  }

  /** The page of a position within `n` rows is one of the `TotalPages(n)` pages. */
  lemma PageOfIndexExists(i: nat, n: nat)
    requires i < n
    ensures PageOfIndex(i) <= TotalPages(n)
  {
  }

  /** A row whose position lies in a page's window is on that page. */
  lemma OnPage(ids: seq<int>, i: nat, p: int)
    requires i < |ids| && p >= 1 && PageOffset(p) <= i < PageOffset(p) + PageSize
    ensures ids[i] in PageOf(ids, PageOffset(p))
  {
    var off := PageOffset(p);
    var hi := if off + PageSize <= |ids| then off + PageSize else |ids|;
    assert ids[off..hi][i - off] == ids[i];
  }

  /** Every exercise is on the page its position says, and that page exists. */
  lemma EveryExerciseOnItsPage(catalog: map<int, Exercise>, i: nat)
    requires i < |catalog.Keys|
    ensures PageOfIndex(i) <= TotalPages(|catalog.Keys|)
    ensures CatalogOrder(catalog)[i] in ListAllExercises(catalog, PageOfIndex(i)).items
  {
    var p := PageOfIndex(i);
    PageOfIndexExists(i, |catalog.Keys|);
    ToIntOfWhole(p, 1);
    OnPage(CatalogOrder(catalog), i, p);
  }

  // ---------------------------------------------------------------------------
  // listAllExercisesOfProgram

  /** A row of the join of `exercises` with `program_exercises`. */
  datatype ProgramExercise = ProgramExercise(exerciseId: int, exercise: Exercise, slotId: int,
                                             kind: JsValue, sets: JsValue, status: JsValue)

  /** The inner join keeps a slot only when its exercise is in the catalog. */
  predicate Joins(slots: map<int, Slot>, catalog: map<int, Exercise>, slotId: int)
  {
    slotId in slots && slots[slotId].exerciseId.Num? && slots[slotId].exerciseId.n in catalog
  }

  function JoinedRow(slots: map<int, Slot>, catalog: map<int, Exercise>, slotId: int): ProgramExercise
    requires Joins(slots, catalog, slotId)
  {
    var s := slots[slotId];
    ProgramExercise(s.exerciseId.n, catalog[s.exerciseId.n], slotId, s.kind, s.sets, s.status)
  }

  /** The slot ids of joined rows, in order. */
  function SlotIdsOf(rows: seq<ProgramExercise>): (ids: seq<int>)
    ensures |ids| == |rows|
    ensures forall i :: 0 <= i < |rows| ==> ids[i] == rows[i].slotId
  {
    seq(|rows|, i requires 0 <= i < |rows| => rows[i].slotId)
  }

  /** The joined rows of `ids`, in the order of `ids`. */
  function JoinAll(slots: map<int, Slot>, catalog: map<int, Exercise>, ids: seq<int>): (rows: seq<ProgramExercise>)
    ensures forall id :: id in SlotIdsOf(rows) <==> id in ids && Joins(slots, catalog, id)
    ensures forall i :: 0 <= i < |rows| ==> Joins(slots, catalog, rows[i].slotId) && rows[i] == JoinedRow(slots, catalog, rows[i].slotId)
    ensures (forall i, j :: 0 <= i < j < |ids| ==> ids[i] < ids[j]) ==>
      forall i, j :: 0 <= i < j < |rows| ==> rows[i].slotId < rows[j].slotId
    decreases |ids|
  {
    if ids == [] then []
    else
      var n := |ids| - 1;
      var front := JoinAll(slots, catalog, ids[..n]);
      assert ids == ids[..n] + [ids[n]];
      if Joins(slots, catalog, ids[n]) then
        var rows := front + [JoinedRow(slots, catalog, ids[n])];
        assert SlotIdsOf(rows) == SlotIdsOf(front) + [ids[n]];
        rows
      else front
  }

  /** listAllExercisesOfProgram: the program's live slots whose exercise exists, in slot order. */
  ghost function ExercisesOfProgram(slots: map<int, Slot>, catalog: map<int, Exercise>, programId: int): (rows: seq<ProgramExercise>)
    ensures forall id :: id in SlotIdsOf(rows) <==>
      id in slots && slots[id].programId == programId && IsLive(slots[id].isDeleted) && Joins(slots, catalog, id)
    ensures forall i :: 0 <= i < |rows| ==> rows[i] == JoinedRow(slots, catalog, rows[i].slotId)
    ensures forall i, j :: 0 <= i < j < |rows| ==> rows[i].slotId < rows[j].slotId
  {
    JoinAll(slots, catalog, ProgramModel.SlotOrder(slots, programId))
  }

  // ---------------------------------------------------------------------------
  // searchExercisesByName and getExerciseById

  const NameRequired: string := "Query param \"name\" is required"
  // Messages that a handler searches for a phrase are written as the concatenation of their
  // words, so that the lemmas about the search can work on each part.
  const ExerciseNotFound: string := "Exercise " + "not found"
  const FetchFailed: string := "An" + " error occurred while " + "fetching the exercise"
  const SearchFailed: string := "An error occurred while searching exercises"

  /** `e.name LIKE CONCAT('%', term, '%')`, the term unescaped. */
  predicate NameMatches(e: Exercise, term: string)
  {
    SqlLike.Like(e.name, "%" + term + "%")
  }

  function MatchingIds(catalog: map<int, Exercise>, term: string): (ids: set<int>)
    ensures forall id :: id in ids <==> id in catalog && NameMatches(catalog[id], term)
  {
    set id | id in catalog && NameMatches(catalog[id], term)
  }

  /** searchExercisesByName: a blank term is an error; otherwise the matching exercises in
      catalog order. */
  ghost function SearchExercises(catalog: map<int, Exercise>, name: JsValue): (r: Result<seq<int>>)
    ensures r.Err? <==> JsTrim(ToString(Coalesce(name, Str("")))) == []
    ensures r.Err? ==> r.message == NameRequired
    ensures r.Ok? ==>
      var term := JsTrim(ToString(Coalesce(name, Str(""))));
      && (forall id :: id in r.value <==> id in catalog && NameMatches(catalog[id], term))
      && (forall i, j :: 0 <= i < j < |r.value| ==>
            r.value[i] in catalog && r.value[j] in catalog && ListedBefore(catalog, r.value[i], r.value[j]))
  {
    var term := JsTrim(ToString(Coalesce(name, Str(""))));
    if term == [] then Err(NameRequired)
    else Ok(OrderedIds(catalog, MatchingIds(catalog, term)))
  }

  /** getExerciseById. */
  function GetExercise(catalog: map<int, Exercise>, id: int): (r: Result<Exercise>)
    ensures r.Ok? <==> id in catalog
    ensures r.Ok? ==> r.value == catalog[id]
    ensures r.Err? ==> r.message == ExerciseNotFound
  {
    if id in catalog then Ok(catalog[id]) else Err(ExerciseNotFound)
  }
}
