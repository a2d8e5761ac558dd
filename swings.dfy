/**
  The swing (locker item) record, the authenticated actor, the error kinds the
  locker controller raises, and the repository query `all($searchParams)` as a
  filter over the stored records.
 */
module Swings {
  import opened Wrappers

  /** A point in time, kept opaque: seconds on some fixed clock. */
  type Timestamp = int

  const SecondsPerDay := 86400

  /** Lifecycle codes stored in `SwingStatusID`. */
  const StatusNew := 0
  const StatusAssigned := 1
  const StatusRejected := 2
  const StatusAnalyzed := 3
  const StatusBrowsable := 4

  /** One row of the swing table. */
  datatype Swing = Swing(
    SwingID: int,
    AccountID: int,
    InstructorID: Option<int>,
    Description: Option<string>,
    VideoPath: string,
    VimeoID: string,
    SwingStatusID: int,
    Deleted: bool,
    DateUploaded: Timestamp,
    DateAccepted: Option<Timestamp>)

  /** The authenticated user: their account and the two role flags the controller reads. */
  datatype Actor = Actor(AccountID: int, IsInstructor: bool, IsApiAgent: bool)

  /** What the controller raises or returns instead of a result. */
  datatype Error =
    | NotFound                        // ModelNotFoundException
    | Unauthorized                    // a 403 response or an AuthorizationException
    | InvalidArgument(message: string) // InvalidArgumentException

  /**
    The criteria of one repository query; an absent criterion does not filter.
    `swingIds` and `statuses` are `whereIn` lists; `uploadedSince` is the lower
    bound on `DateUploaded` used by the recent-lessons query.
   */
  datatype SearchParams = SearchParams(
    accountId: Option<int>,
    instructorId: Option<int>,
    swingIds: Option<set<int>>,
    statuses: Option<set<int>>,
    deleted: Option<bool>,
    uploadedSince: Option<Timestamp>)

  /** A record satisfies every criterion that is present. */
  predicate Matches(r: Swing, q: SearchParams)
  {
    && (q.accountId.Some? ==> r.AccountID == q.accountId.value)
    && (q.instructorId.Some? ==> r.InstructorID == Some(q.instructorId.value))
    && (q.swingIds.Some? ==> r.SwingID in q.swingIds.value)
    && (q.statuses.Some? ==> r.SwingStatusID in q.statuses.value)
    && (q.deleted.Some? ==> r.Deleted == q.deleted.value)
    && (q.uploadedSince.Some? ==> r.DateUploaded >= q.uploadedSince.value)
  }

  /** The matching records, in store order. */
  function Search(rs: seq<Swing>, q: SearchParams): seq<Swing>
  {
    if rs == [] then []
    else if Matches(rs[0], q) then [rs[0]] + Search(rs[1..], q)
    else Search(rs[1..], q)
  }

  /** A record is returned by a search exactly when it is stored and matches. */
  lemma {:induction false} SearchMembers(rs: seq<Swing>, q: SearchParams, r: Swing)
    ensures r in Search(rs, q) <==> r in rs && Matches(r, q)
  {
    if rs != [] {
      SearchMembers(rs[1..], q, r);
      assert rs == [rs[0]] + rs[1..];
    }
  }

  /** `Model::find($id)`: the record with that primary key, deleted or not. */
  function Find(rs: seq<Swing>, id: int): (found: Option<Swing>)
    ensures found.Some? ==> found.value in rs && found.value.SwingID == id
    ensures found.None? ==> forall r :: r in rs ==> r.SwingID != id
  {
    if rs == [] then None
    else if rs[0].SwingID == id then Some(rs[0])
    else Find(rs[1..], id)
  }

  /** Swing ids are unique in the store. */
  predicate UniqueIds(rs: seq<Swing>)
  {
    forall i, j :: 0 <= i < j < |rs| ==> rs[i].SwingID != rs[j].SwingID
  }

  /**
    The store's invariant: ids are issued from 1 on, as an identity column
    issues them, are unique and are below the next id to be assigned, and a
    swing still in status new has no instructor.
   */
  predicate WellFormed(rs: seq<Swing>, nextId: int)
  {
    && 0 < nextId
    && UniqueIds(rs)
    && (forall i :: 0 <= i < |rs| ==> rs[i].SwingID < nextId)
    && (forall i :: 0 <= i < |rs| && rs[i].SwingStatusID == StatusNew ==> rs[i].InstructorID.None?)
  }

  /**
    A swing in status new has no video yet. Tables written by other clients
    need not satisfy this, so it is not part of the invariant; the locker
    operations keep it wherever it holds.
   */
  predicate NoVideoWhileNew(rs: seq<Swing>)
  {
    forall i :: 0 <= i < |rs| && rs[i].SwingStatusID == StatusNew ==> rs[i].VideoPath == ""
  }
}
