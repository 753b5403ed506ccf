/** Checkoffs: a coach assigns a task to a list of athletes (the checkoff row plus one
    receiver row per athlete), lists the athletes' submissions for review, and reviews one
    submission. */
module CheckoffModel {
  import opened Wrappers
  import opened JsValues
  import opened Sorting

  /** A row of `new_checkoff`. The optional columns keep the JavaScript value bound to them. */
  datatype CheckoffRow = CheckoffRow(
    assignedDate: JsValue,
    dueDate: JsValue,
    status: JsValue,
    coachId: JsValue,
    assignedTask: JsValue,
    note: JsValue,
    createdAt: int,
    updatedAt: int)

  /** A row of `new_checkoff_receivers_users`. */
  datatype ReceiverRow = ReceiverRow(checkoffId: int, userId: JsValue)

  /** `v || null`. */
  function OrNull(v: JsValue): (r: JsValue)
    ensures Truthy(v) ==> r == v
    ensures !Truthy(v) ==> r == Null
  {
    Or(v, Null)
  }

  /** The row `create` inserts for the destructured `checkoffData`: falsy optional fields
      become null, a falsy status 0, and `coach_id` is passed as it is. */
  function NewCheckoffRow(data: JsValue, now: int): (row: CheckoffRow)
    ensures row.assignedDate == OrNull(Get(data, "assigned_date"))
    ensures row.dueDate == OrNull(Get(data, "due_date"))
    ensures row.assignedTask == OrNull(Get(data, "assigned_task"))
    ensures row.note == OrNull(Get(data, "note"))
    ensures Truthy(Get(data, "status")) ==> row.status == Get(data, "status")
    ensures !Truthy(Get(data, "status")) ==> row.status == Num(0)
    ensures row.coachId == Get(data, "coach_id")
    ensures row.createdAt == now && row.updatedAt == now
  {
    CheckoffRow(
      OrNull(Get(data, "assigned_date")),
      OrNull(Get(data, "due_date")),
      Or(Get(data, "status"), Num(0)),
      Get(data, "coach_id"),
      OrNull(Get(data, "assigned_task")),
      OrNull(Get(data, "note")),
      now, now)
  }

  /** No optional column of a new checkoff is ever an empty string, zero or false: those
      arrive as null (the status as 0). */
  lemma NewRowHasNoFalsyOptionals(data: JsValue, now: int)
    ensures var row := NewCheckoffRow(data, now);
      && (Truthy(row.assignedDate) || row.assignedDate == Null)
      && (Truthy(row.dueDate) || row.dueDate == Null)
      && (Truthy(row.assignedTask) || row.assignedTask == Null)
      && (Truthy(row.note) || row.note == Null)
      && (Truthy(row.status) || row.status == Num(0))
  {
  }

  /** `Array.isArray(receivers) && receivers.length > 0`. */
  predicate HasReceivers(receivers: JsValue)
  {
    receivers.Arr? && |receivers.items| > 0
  }

  /** `receivers.map((userId) => [checkoffId, userId])`: one row per receiver, in order. */
  function ReceiverRows(checkoffId: int, users: seq<JsValue>): (rows: seq<ReceiverRow>)
    ensures |rows| == |users|
    ensures forall i :: 0 <= i < |users| ==> rows[i] == ReceiverRow(checkoffId, users[i])
  {
    seq(|users|, i requires 0 <= i < |users| => ReceiverRow(checkoffId, users[i]))
  }

  /** The receiver rows `create` inserts: none unless `receivers` is a non-empty array. */
  function ReceiverRowsFor(checkoffId: int, receivers: JsValue): (rows: seq<ReceiverRow>)
    ensures !HasReceivers(receivers) ==> rows == []
    ensures HasReceivers(receivers) ==> |rows| == |receivers.items|
    ensures HasReceivers(receivers) ==>
      forall i :: 0 <= i < |rows| ==> rows[i] == ReceiverRow(checkoffId, receivers.items[i])
  {
    if HasReceivers(receivers) then ReceiverRows(checkoffId, receivers.items) else []
  }

  /** `receivers?.length || 0`. */
  function ReceiversCount(receivers: JsValue): (n: JsValue)
    ensures receivers.Arr? ==> n == Num(|receivers.items|)
    ensures receivers.Str? ==> n == Num(|receivers.s|)
    ensures Nullish(receivers) ==> n == Num(0)
  {
    Or(OptProp(receivers, "length"), Num(0))
  }

  /** For an array of receivers, or none at all, the reported count is the number of receiver
      rows inserted. */
  lemma CountIsRowsInserted(checkoffId: int, receivers: JsValue)
    requires receivers.Arr? || Nullish(receivers)
    ensures ReceiversCount(receivers) == Num(|ReceiverRowsFor(checkoffId, receivers)|)
  {
  }

  /** A string of receivers is counted by its length although no receiver row is inserted. */
  lemma StringReceiversAreCountedNotInserted(checkoffId: int)
    ensures ReceiverRowsFor(checkoffId, Str("ab")) == []
    ensures ReceiversCount(Str("ab")) == Num(2)
  {
  }

  const CheckoffCreated: string := "Checkoff created successfully"
  const CreateFailed: string := "An error occurred while creating the checkoff"

  datatype CreatedCheckoff = CreatedCheckoff(message: string, checkoffId: int, receiversCount: JsValue)

  /** How `create` ends: destructuring a null or undefined `checkoffData` throws before the
      `try`, so the callback is never called; otherwise the callback gets the result. */
  datatype CreateOutcome = Threw(error: string) | Called(result: Result<CreatedCheckoff>)

  /** A submission of a checkoff (`student_checkoff`). */
  datatype Submission = Submission(
    checkoffId: int,
    coachId: string,
    athleteId: string,
    submittedDate: Option<int>,
    coachReviewNote: JsValue,
    status: JsValue,
    statusReviewDate: Option<int>,
    createdAt: int,
    updatedAt: int)

  /** `ORDER BY submitted_date IS NULL, submitted_date, created_at` as a key. */
  function SubmitKey(s: Submission): Key
  {
    match s.submittedDate
    case Some(d) => Key(0, d, s.createdAt)
    case None => Key(1, 0, s.createdAt)
  }

  /** The review order, stated directly: submitted before unsubmitted, earlier submitted date
      first, then earlier creation. */
  predicate ReviewedBefore(a: Submission, b: Submission)
  {
    || (a.submittedDate.Some? && b.submittedDate.None?)
    || (a.submittedDate.Some? && b.submittedDate.Some?
        && (a.submittedDate.value < b.submittedDate.value
            || (a.submittedDate.value == b.submittedDate.value && a.createdAt <= b.createdAt)))
    || (a.submittedDate.None? && b.submittedDate.None? && a.createdAt <= b.createdAt)
  }

  /** The key order is exactly the review order. */
  lemma SubmitKeyOrder(a: Submission, b: Submission)
    ensures KeyLe(SubmitKey(a), SubmitKey(b)) <==> ReviewedBefore(a, b)
  {
  }

  /** The review order is total and transitive, so the SQL ordering is well defined up to
      rows with equal keys. */
  lemma ReviewOrderIsTotalPreorder(a: Submission, b: Submission, c: Submission)
    ensures ReviewedBefore(a, b) || ReviewedBefore(b, a)
    ensures ReviewedBefore(a, b) && ReviewedBefore(b, c) ==> ReviewedBefore(a, c)
  {
    SubmitKeyOrder(a, b);
    SubmitKeyOrder(b, a);
    SubmitKeyOrder(b, c);
    SubmitKeyOrder(a, c);
    KeyLeTotal(SubmitKey(a), SubmitKey(b));
    if ReviewedBefore(a, b) && ReviewedBefore(b, c) {
      KeyLeTransitive(SubmitKey(a), SubmitKey(b), SubmitKey(c));
    }
  }

  function CoachSubmissions(submissions: map<int, Submission>, coachId: string): (ids: set<int>)
    ensures forall id :: id in ids <==> id in submissions && submissions[id].coachId == coachId
  {
    set id | id in submissions && submissions[id].coachId == coachId
  }

  /** getCheckoffSubmitByCoach: the coach's submissions, in review order. */
  ghost function SubmissionsByCoach(submissions: map<int, Submission>, coachId: string): (r: seq<int>)
    ensures forall id :: id in r <==> id in submissions && submissions[id].coachId == coachId
    ensures Distinct(r)
    ensures forall i, j :: 0 <= i < j < |r| ==>
      && r[i] in submissions && r[j] in submissions
      && ReviewedBefore(submissions[r[i]], submissions[r[j]])
  {
    var ids := CoachSubmissions(submissions, coachId);
    var keys := map id | id in ids :: SubmitKey(submissions[id]);
    var r := SortIds(ids, keys);
    forall i, j | 0 <= i < j < |r|
      ensures ReviewedBefore(submissions[r[i]], submissions[r[j]])
    {
      assert KeyLe(keys[r[i]], keys[r[j]]);
      SubmitKeyOrder(submissions[r[i]], submissions[r[j]]);
    }
    r
  }

  /** In the coach's list every submitted row comes before every unsubmitted one. */
  lemma {:induction false} SubmittedComeFirst(submissions: map<int, Submission>, coachId: string, i: int, j: int)
    requires 0 <= i < j < |SubmissionsByCoach(submissions, coachId)|
    requires submissions[SubmissionsByCoach(submissions, coachId)[j]].submittedDate.Some?
    ensures submissions[SubmissionsByCoach(submissions, coachId)[i]].submittedDate.Some?
  {
    var r := SubmissionsByCoach(submissions, coachId);
    assert ReviewedBefore(submissions[r[i]], submissions[r[j]]);
  }

  /** A user row's profile link and a profile's names, for the joined athlete name. */
  datatype Profile = Profile(firstName: Option<string>, lastName: Option<string>)

  /** `COALESCE(x, '')`. */
  function OrEmpty(x: Option<string>): (s: string)
    ensures x.Some? ==> s == x.value
    ensures x.None? ==> s == []
  {
    if x.Some? then x.value else ""
  }

  /** `CONCAT(COALESCE(u.first_name, ''), ' ', COALESCE(u.last_name, ''))` through the two
      left joins users → user_profiles; a missing user or profile gives null names. */
  function AthleteName(users: map<string, int>, profiles: map<int, Profile>, athleteId: string): (name: string)
    ensures athleteId !in users || users[athleteId] !in profiles ==> name == " "
    ensures athleteId in users && users[athleteId] in profiles ==>
      var p := profiles[users[athleteId]];
      name == OrEmpty(p.firstName) + " " + OrEmpty(p.lastName)
  {
    var p := if athleteId in users && users[athleteId] in profiles then profiles[users[athleteId]]
             else Profile(None, None);
    OrEmpty(p.firstName) + " " + OrEmpty(p.lastName)
  }

  /** When the first name has no space, the athlete name splits back into first and last name
      at its first space. */
  lemma AthleteNameSplitsAtFirstSpace(users: map<string, int>, profiles: map<int, Profile>, athleteId: string)
    requires athleteId in users && users[athleteId] in profiles
    requires forall k :: 0 <= k < |OrEmpty(profiles[users[athleteId]].firstName)| ==>
      OrEmpty(profiles[users[athleteId]].firstName)[k] != ' '
    ensures var name, p := AthleteName(users, profiles, athleteId), profiles[users[athleteId]];
      var n := |OrEmpty(p.firstName)|;
      && n < |name| && name[n] == ' '
      && (forall k :: 0 <= k < n ==> name[k] != ' ')
      && name[..n] == OrEmpty(p.firstName)
      && name[n + 1..] == OrEmpty(p.lastName)
  {
    var p := profiles[users[athleteId]];
    var first, last := OrEmpty(p.firstName), OrEmpty(p.lastName);
    var name := AthleteName(users, profiles, athleteId);
    assert name == first + " " + last;
    assert forall k :: 0 <= k < |first| ==> name[k] == first[k];
    assert name[..|first|] == first;
    assert name[|first| + 1..] == last;
  }

  const CommentUpdated: string := "Comment and status updated successfully"
  const CommentFailed: string := "An error occurred while adding the comment"

  datatype CommentResult = CommentResult(message: string, affectedRows: nat)

  /** The rows `WHERE submit_id = ? AND coach_id = ?` selects. */
  predicate Scoped(submissions: map<int, Submission>, id: int, submitId: int, coachId: string)
    requires id in submissions
  {
    id == submitId && submissions[id].coachId == coachId
  }

  /** The reviewed submission: the note and status set, the review date and update time now. */
  function Reviewed(s: Submission, comment: JsValue, status: JsValue, now: int): (t: Submission)
    ensures t.coachReviewNote == comment && t.status == status
    ensures t.statusReviewDate == Some(now) && t.updatedAt == now
    ensures t.checkoffId == s.checkoffId && t.coachId == s.coachId && t.athleteId == s.athleteId
    ensures t.submittedDate == s.submittedDate && t.createdAt == s.createdAt
  {
    s.(coachReviewNote := comment, status := status, statusReviewDate := Some(now), updatedAt := now)
  }

  /** The table after addCoachComment: only the row matching both the submission id and the
      coach changes. */
  function CommentApplied(submissions: map<int, Submission>, submitId: int, coachId: string,
                          comment: JsValue, status: JsValue, now: int): (r: map<int, Submission>)
    ensures r.Keys == submissions.Keys
    ensures forall id :: id in submissions && !Scoped(submissions, id, submitId, coachId) ==>
      r[id] == submissions[id]
    ensures forall id :: id in submissions && Scoped(submissions, id, submitId, coachId) ==>
      r[id] == Reviewed(submissions[id], comment, status, now)
  {
    map id | id in submissions ::
      if Scoped(submissions, id, submitId, coachId) then Reviewed(submissions[id], comment, status, now)
      else submissions[id]
  }

  /** `affectedRows`: the number of rows the update matched, at most one since the
      submission id is the key. */
  function AffectedRows(submissions: map<int, Submission>, submitId: int, coachId: string): (n: nat)
    ensures n <= 1
    ensures n == 1 <==> submitId in submissions && submissions[submitId].coachId == coachId
  {
    if submitId in submissions && submissions[submitId].coachId == coachId then 1 else 0
  }

  /** A coach's comment on another coach's submission changes nothing and reports no row. */
  lemma ForeignSubmissionUntouched(submissions: map<int, Submission>, submitId: int, coachId: string,
                                   comment: JsValue, status: JsValue, now: int)
    requires submitId in submissions && submissions[submitId].coachId != coachId
    ensures CommentApplied(submissions, submitId, coachId, comment, status, now) == submissions
    ensures AffectedRows(submissions, submitId, coachId) == 0
  {
    var r := CommentApplied(submissions, submitId, coachId, comment, status, now);
    assert forall id :: id in submissions ==> r[id] == submissions[id];
  }

  /** The checkoff tables. `create` runs two statements with no transaction around them. */
  class CheckoffStore {
    var checkoffs: map<int, CheckoffRow>
    var receivers: seq<ReceiverRow>
    var submissions: map<int, Submission>
    var nextCheckoffId: int

    /** Ids are below the counter, and every receiver row names an existing checkoff. */
    ghost predicate Valid()
      reads this
    {
      && (forall id :: id in checkoffs ==> id < nextCheckoffId)
      && (forall i :: 0 <= i < |receivers| ==> receivers[i].checkoffId in checkoffs)
    }

    constructor (submissions: map<int, Submission>)
      ensures Valid()
      ensures checkoffs == map[] && receivers == [] && this.submissions == submissions
      ensures nextCheckoffId == 1
    {
      checkoffs, receivers, this.submissions := map[], [], submissions;
      nextCheckoffId := 1;
    }

    /** create. `checkoffFault` and `receiversFault` say whether the first or the second
        statement fails; a failing receiver insert leaves the checkoff row in place. */
    method Create(data: JsValue, now: int, checkoffFault: bool, receiversFault: bool) returns (r: CreateOutcome)
      requires Valid()
      modifies this
      ensures Valid()
      ensures submissions == old(submissions)
      ensures Nullish(data) ==> r.Threw?
      ensures r.Threw? || (r.Called? && r.result.Err?) ==> receivers == old(receivers)
      ensures r.Threw? || checkoffFault ==>
        checkoffs == old(checkoffs) && nextCheckoffId == old(nextCheckoffId)
      ensures !Nullish(data) && checkoffFault ==> r == Called(Err(CreateFailed))
      ensures !Nullish(data) && !checkoffFault ==>
        var id := old(nextCheckoffId);
        var rows := ReceiverRowsFor(id, Get(data, "receivers"));
        && id !in old(checkoffs)
        && checkoffs == old(checkoffs)[id := NewCheckoffRow(data, now)]
        && nextCheckoffId == id + 1
        && (rows != [] && receiversFault ==> r == Called(Err(CreateFailed)) && receivers == old(receivers))
        && (rows == [] || !receiversFault ==>
              && r == Called(Ok(CreatedCheckoff(CheckoffCreated, id, ReceiversCount(Get(data, "receivers")))))
              && receivers == old(receivers) + rows)
    {
      if Nullish(data) {
        return Threw("TypeError: Cannot destructure property 'assigned_date' of 'checkoffData'");
      }
      if checkoffFault {
        return Called(Err(CreateFailed));
      }
      var id := nextCheckoffId;
      checkoffs := checkoffs[id := NewCheckoffRow(data, now)];
      nextCheckoffId := id + 1;
      var given := Get(data, "receivers");
      if HasReceivers(given) {
        if receiversFault {
          return Called(Err(CreateFailed));
        }
        receivers := receivers + ReceiverRows(id, given.items);
      }
      r := Called(Ok(CreatedCheckoff(CheckoffCreated, id, ReceiversCount(given))));
    }

    /** addCoachComment: reviews the submission when it belongs to the coach. */
    method AddCoachComment(submitId: int, coachId: string, comment: JsValue, status: JsValue, now: int, fault: bool)
      returns (r: Result<CommentResult>)
      requires Valid()
      modifies this
      ensures Valid()
      ensures checkoffs == old(checkoffs) && receivers == old(receivers)
      ensures nextCheckoffId == old(nextCheckoffId)
      ensures fault ==> r == Err(CommentFailed) && submissions == old(submissions)
      ensures !fault ==>
        && submissions == CommentApplied(old(submissions), submitId, coachId, comment, status, now)
        && r == Ok(CommentResult(CommentUpdated, AffectedRows(old(submissions), submitId, coachId)))
    {
      if fault {
        return Err(CommentFailed);
      }
      var affected := AffectedRows(submissions, submitId, coachId);
      submissions := CommentApplied(submissions, submitId, coachId, comment, status, now);
      r := Ok(CommentResult(CommentUpdated, affected));
    }
  }
}
