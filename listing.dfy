/**
  The search criteria that `index`, `swingAnalysis` and `videoLessonIndex`
  build before querying the swing repository, and the listings they return.
 */
module Listing {
  import opened Wrappers
  import opened Strings
  import opened Swings

  /** Statuses shown when browsing a locker: new and browsable. */
  const LockerStatuses: set<int> := {StatusNew, StatusBrowsable}

  /** Statuses of the recent-lessons report: analyzed and rejected. */
  const LessonStatuses: set<int> := {StatusAnalyzed, StatusRejected}

  /** The window of the recent-lessons report when `daysAgo` is absent or zero. */
  const DefaultDaysAgo := 365

  /** PHP truthiness of a request string: "" and "0" are false. */
  predicate Truthy(s: string)
  {
    s != "" && s != "0"
  }

  /** A piece of the `ids` list that names a swing id. */
  predicate IsNumeral(piece: string)
  {
    piece != "" && AllDigits(piece)
  }

  /** The swing ids named by the comma-separated `ids` parameter. */
  function RequestedIds(ids: string): set<int>
  {
    set piece | piece in Split(ids) && IsNumeral(piece) :: ParseDigits(piece) as int
  }

  /**
    The account whose locker is listed: an instructor names a student account,
    which must be one of their students; anyone else gets their own account,
    whatever was passed.
   */
  function LockerAccount(actor: Actor, accountParam: Option<int>, students: set<(int, int)>): (r: Result<int, Error>)
    ensures !actor.IsInstructor ==> r == Ok(actor.AccountID)
    ensures actor.IsInstructor ==>
      (r.Err? <==> accountParam.None? || (actor.AccountID, accountParam.value) !in students)
    ensures actor.IsInstructor && r.Ok? ==> r.value == accountParam.value
    ensures r.Err? ==> r.error == NotFound
  {
    if actor.IsInstructor then
      if accountParam.Some? && (actor.AccountID, accountParam.value) in students
      then Ok(accountParam.value)
      else Err(NotFound)
    else Ok(actor.AccountID)
  }

  /** The criteria of `index`: explicit ids at any status, or the browsing statuses. */
  function LockerParams(actor: Actor, accountParam: Option<int>, ids: Option<string>, students: set<(int, int)>): Result<SearchParams, Error>
  {
    match LockerAccount(actor, accountParam, students)
    case Err(e) => Err(e)
    case Ok(account) =>
      if ids.Some? && Truthy(ids.value)
      then Ok(SearchParams(Some(account), None, Some(RequestedIds(ids.value)), None, Some(false), None))
      else Ok(SearchParams(Some(account), None, None, Some(LockerStatuses), Some(false), None))
  }

  /** `index`: the locker listing. */
  function LockerIndex(records: seq<Swing>, actor: Actor, accountParam: Option<int>, ids: Option<string>, students: set<(int, int)>): Result<seq<Swing>, Error>
  {
    match LockerParams(actor, accountParam, ids, students)
    case Err(e) => Err(e)
    case Ok(q) => Ok(Search(records, q))
  }

  /** `index` fails, with not-found, exactly for an instructor not related to the requested account. */
  lemma LockerIndexNotFound(records: seq<Swing>, actor: Actor, accountParam: Option<int>, ids: Option<string>, students: set<(int, int)>)
    ensures LockerIndex(records, actor, accountParam, ids, students).Err? <==>
      actor.IsInstructor && (accountParam.None? || (actor.AccountID, accountParam.value) !in students)
    ensures LockerIndex(records, actor, accountParam, ids, students).Err? ==>
      LockerIndex(records, actor, accountParam, ids, students).error == NotFound
  {
  }

  /**
    What `index` returns: the non-deleted records of the effective account,
    restricted to the named ids when `ids` is given and to statuses {0,4} otherwise.
   */
  lemma LockerIndexContents(records: seq<Swing>, actor: Actor, accountParam: Option<int>, ids: Option<string>, students: set<(int, int)>, r: Swing)
    requires LockerIndex(records, actor, accountParam, ids, students).Ok?
    ensures
      var account := if actor.IsInstructor then accountParam.value else actor.AccountID;
      r in LockerIndex(records, actor, accountParam, ids, students).value <==>
        && r in records && !r.Deleted && r.AccountID == account
        && (if ids.Some? && Truthy(ids.value) then r.SwingID in RequestedIds(ids.value)
            else r.SwingStatusID in LockerStatuses)
  {
    var q := LockerParams(actor, accountParam, ids, students).value;
    SearchMembers(records, q, r);
  }

  /** For a non-instructor the account path parameter has no effect. */
  lemma LockerIndexIgnoresAccountParam(records: seq<Swing>, actor: Actor, p1: Option<int>, p2: Option<int>, ids: Option<string>, students: set<(int, int)>)
    requires !actor.IsInstructor
    ensures LockerIndex(records, actor, p1, ids, students) == LockerIndex(records, actor, p2, ids, students)
  {
  }

  /** The ids named by a comma-joined list of numerals are exactly the numbers they denote. */
  lemma RequestedIdsOfJoin(numerals: seq<string>)
    requires |numerals| > 0
    requires forall piece :: piece in numerals ==> IsNumeral(piece)
    ensures RequestedIds(Join(numerals)) == set piece | piece in numerals && IsNumeral(piece) :: ParseDigits(piece) as int
  {
    forall piece | piece in numerals ensures ',' !in piece {
      assert IsNumeral(piece);
      assert forall i :: 0 <= i < |piece| ==> piece[i] != ',';
    }
    SplitJoin(numerals);
  }

  /** The criteria of `swingAnalysis`: analyzed, not deleted, that swing, scoped by role. */
  function AnalysisParams(actor: Actor, swingId: int): SearchParams
  {
    if actor.IsInstructor
    then SearchParams(None, Some(actor.AccountID), Some({swingId}), Some({StatusAnalyzed}), Some(false), None)
    else SearchParams(Some(actor.AccountID), None, Some({swingId}), Some({StatusAnalyzed}), Some(false), None)
  }

  /** `swingAnalysis`: the analyzed records of one swing the actor may see. */
  function SwingAnalysis(records: seq<Swing>, actor: Actor, swingId: int): seq<Swing>
  {
    Search(records, AnalysisParams(actor, swingId))
  }

  /**
    `swingAnalysis` returns the non-deleted status-3 records with that id,
    matched on the instructor for instructors and on the owner otherwise.
   */
  lemma SwingAnalysisContents(records: seq<Swing>, actor: Actor, swingId: int, r: Swing)
    ensures r in SwingAnalysis(records, actor, swingId) <==>
      && r in records && !r.Deleted && r.SwingStatusID == StatusAnalyzed && r.SwingID == swingId
      && (if actor.IsInstructor then r.InstructorID == Some(actor.AccountID) else r.AccountID == actor.AccountID)
  {
    SearchMembers(records, AnalysisParams(actor, swingId), r);
  }

  /** The report window in days: an absent or zero `daysAgo` means a year. */
  function LessonDays(daysAgo: int): (days: int)
    ensures days != 0
    ensures daysAgo != 0 ==> days == daysAgo
    ensures daysAgo == 0 ==> days == DefaultDaysAgo
  {
    if daysAgo == 0 then DefaultDaysAgo else daysAgo
  }

  /** The instructor the report is about: an agent may name one, anyone else reports on themself. */
  function LessonInstructor(actor: Actor, instructorParam: Option<int>): (id: int)
    ensures !actor.IsApiAgent ==> id == actor.AccountID
    ensures actor.IsApiAgent && instructorParam.Some? ==> id == instructorParam.value
    ensures instructorParam.None? ==> id == actor.AccountID
  {
    if actor.IsApiAgent && instructorParam.Some? then instructorParam.value else actor.AccountID
  }

  /** The criteria of `videoLessonIndex`; only instructors and agents may ask. */
  function LessonParams(actor: Option<Actor>, daysAgo: int, instructorParam: Option<int>, now: Timestamp): Result<SearchParams, Error>
  {
    if actor.None? || (!actor.value.IsInstructor && !actor.value.IsApiAgent) then Err(Unauthorized)
    else
      var since := now - LessonDays(daysAgo) * SecondsPerDay;
      Ok(SearchParams(None, Some(LessonInstructor(actor.value, instructorParam)), None,
                      Some(LessonStatuses), Some(false), Some(since)))
  }

  /** `videoLessonIndex`: the recent analyzed or rejected swings of one instructor. */
  function VideoLessonIndex(records: seq<Swing>, actor: Option<Actor>, daysAgo: int, instructorParam: Option<int>, now: Timestamp): Result<seq<Swing>, Error>
  {
    match LessonParams(actor, daysAgo, instructorParam, now)
    case Err(e) => Err(e)
    case Ok(q) => Ok(Search(records, q))
  }

  /** The report is refused, with 403, exactly for a missing actor or one who is neither instructor nor agent. */
  lemma VideoLessonIndexUnauthorized(records: seq<Swing>, actor: Option<Actor>, daysAgo: int, instructorParam: Option<int>, now: Timestamp)
    ensures VideoLessonIndex(records, actor, daysAgo, instructorParam, now).Err? <==>
      actor.None? || (!actor.value.IsInstructor && !actor.value.IsApiAgent)
    ensures VideoLessonIndex(records, actor, daysAgo, instructorParam, now).Err? ==>
      VideoLessonIndex(records, actor, daysAgo, instructorParam, now).error == Unauthorized
  {
  }

  /** What the report returns: the instructor's non-deleted status-2/3 swings uploaded inside the window. */
  lemma VideoLessonIndexContents(records: seq<Swing>, actor: Option<Actor>, daysAgo: int, instructorParam: Option<int>, now: Timestamp, r: Swing)
    requires VideoLessonIndex(records, actor, daysAgo, instructorParam, now).Ok?
    ensures
      var instructor := if actor.value.IsApiAgent && instructorParam.Some? then instructorParam.value else actor.value.AccountID;
      var days := if daysAgo == 0 then DefaultDaysAgo else daysAgo;
      r in VideoLessonIndex(records, actor, daysAgo, instructorParam, now).value <==>
        && r in records && !r.Deleted && r.SwingStatusID in LessonStatuses
        && r.InstructorID == Some(instructor)
        && r.DateUploaded >= now - days * SecondsPerDay
  {
    SearchMembers(records, LessonParams(actor, daysAgo, instructorParam, now).value, r);
  }

  /** A zero `daysAgo` reports the same as an explicit 365. */
  lemma VideoLessonIndexDefaultWindow(records: seq<Swing>, actor: Option<Actor>, instructorParam: Option<int>, now: Timestamp)
    ensures VideoLessonIndex(records, actor, 0, instructorParam, now) == VideoLessonIndex(records, actor, DefaultDaysAgo, instructorParam, now)
  {
  }

  /** Only an agent's `instructor_id` parameter has any effect. */
  lemma VideoLessonIndexOverrideOnlyAgent(records: seq<Swing>, actor: Option<Actor>, daysAgo: int, i1: Option<int>, i2: Option<int>, now: Timestamp)
    requires actor.Some? && !actor.value.IsApiAgent
    ensures VideoLessonIndex(records, actor, daysAgo, i1, now) == VideoLessonIndex(records, actor, daysAgo, i2, now)
  {
  }

  /** No listing ever returns a deleted record. */
  lemma ListingsExcludeDeleted(records: seq<Swing>, actor: Actor, accountParam: Option<int>, ids: Option<string>,
                               students: set<(int, int)>, swingId: int, lessonActor: Option<Actor>, daysAgo: int,
                               instructorParam: Option<int>, now: Timestamp, r: Swing)
    requires r.Deleted
    ensures LockerIndex(records, actor, accountParam, ids, students).Ok? ==>
      r !in LockerIndex(records, actor, accountParam, ids, students).value
    ensures r !in SwingAnalysis(records, actor, swingId)
    ensures VideoLessonIndex(records, lessonActor, daysAgo, instructorParam, now).Ok? ==>
      r !in VideoLessonIndex(records, lessonActor, daysAgo, instructorParam, now).value
  {
    if LockerIndex(records, actor, accountParam, ids, students).Ok? {
      LockerIndexContents(records, actor, accountParam, ids, students, r);
    }
    SwingAnalysisContents(records, actor, swingId, r);
    if VideoLessonIndex(records, lessonActor, daysAgo, instructorParam, now).Ok? {
      VideoLessonIndexContents(records, lessonActor, daysAgo, instructorParam, now, r);
    }
  }
}
