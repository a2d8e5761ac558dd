/**
  The swing store the locker controller changes: `store` inserts a new
  record, `assignSwings` assigns named swings to an instructor in place, and
  `upload` dispatches a thumbnail job for an accepted request.
 */
module Locker {
  import opened Wrappers
  import opened Swings
  import opened Upload

  /** The record `store` creates for the actor. */
  function NewLockerItem(id: int, actor: Actor, description: Option<string>, now: Timestamp): (s: Swing)
    ensures s.SwingID == id && s.AccountID == actor.AccountID && s.Description == description
    ensures s.SwingStatusID == StatusNew && s.VideoPath == "" && s.VimeoID == ""
    ensures s.InstructorID.None? && s.DateAccepted.None? && !s.Deleted && s.DateUploaded == now
  {
    Swing(id, actor.AccountID, None, description, "", "", StatusNew, false, now, None)
  }

  /** Appending a fresh new-status record keeps the store well formed under the next id. */
  lemma NewItemPreservesWellFormed(rs: seq<Swing>, nextId: int, actor: Actor, description: Option<string>, now: Timestamp)
    requires WellFormed(rs, nextId)
    ensures WellFormed(rs + [NewLockerItem(nextId, actor, description, now)], nextId + 1)
  {
    var s := rs + [NewLockerItem(nextId, actor, description, now)];
    assert forall i :: 0 <= i < |rs| ==> s[i] == rs[i];
  }

  /**
    The id `store` hands back in its Location header reaches the new record:
    the owner's upload to that id, with a length and an allowed type, is
    accepted and acts on that record.
   */
  lemma StoredItemUploadAccepted(rs: seq<Swing>, nextId: int, actor: Actor, description: Option<string>, now: Timestamp,
                                 contentLength: int, contentType: string, env: string, t: Clock)
    requires WellFormed(rs, nextId)
    requires contentLength != 0 && contentType in AllowedContentTypes
    ensures var item := NewLockerItem(nextId, actor, description, now);
      CheckUpload(rs + [item], actor, UploadRequest(nextId, contentLength, contentType), env, t)
        == Ok(UploadPlan(item, DestinationKeyAsWritten(env, t, contentType)))
  {
    var item := NewLockerItem(nextId, actor, description, now);
    var found := Find(rs + [item], nextId);
    assert item in rs + [item];
    assert found.Some? && found.value in rs + [item];
  }

  /** Who may assign swings to an instructor: an agent, a connected account, or the instructor themself. */
  predicate MayAssign(actor: Actor, instructorId: int, connections: set<(int, int)>)
  {
    actor.IsApiAgent || (actor.AccountID, instructorId) in connections || actor.AccountID == instructorId
  }

  /** The query `assignSwings` fetches: the named swings that are not deleted. */
  function AssignQuery(swingIds: seq<int>): SearchParams
  {
    SearchParams(None, None, Some(set id | id in swingIds), None, Some(false), None)
  }

  /** One record after assignment: a target is claimed by the instructor, anything else is kept. */
  function AssignOne(r: Swing, swingIds: seq<int>, instructorId: int, now: Timestamp): Swing
  {
    if !r.Deleted && r.SwingID in swingIds
    then r.(SwingStatusID := StatusAssigned, InstructorID := Some(instructorId), DateAccepted := Some(now))
    else r
  }

  /** The whole store after assignment. */
  function AssignAll(rs: seq<Swing>, swingIds: seq<int>, instructorId: int, now: Timestamp): seq<Swing>
  {
    if rs == [] then []
    else AssignAll(rs[..|rs| - 1], swingIds, instructorId, now) + [AssignOne(rs[|rs| - 1], swingIds, instructorId, now)]
  }

  /** Assignment works record by record and keeps the store's length. */
  lemma {:induction false} AssignAllAt(rs: seq<Swing>, swingIds: seq<int>, instructorId: int, now: Timestamp, k: int)
    requires 0 <= k < |rs|
    ensures |AssignAll(rs, swingIds, instructorId, now)| == |rs|
    ensures AssignAll(rs, swingIds, instructorId, now)[k] == AssignOne(rs[k], swingIds, instructorId, now)
  {
    AssignAllLength(rs, swingIds, instructorId, now);
    if k < |rs| - 1 {
      AssignAllAt(rs[..|rs| - 1], swingIds, instructorId, now, k);
    }
  }

  lemma {:induction false} AssignAllLength(rs: seq<Swing>, swingIds: seq<int>, instructorId: int, now: Timestamp)
    ensures |AssignAll(rs, swingIds, instructorId, now)| == |rs|
  {
    if rs != [] {
      AssignAllLength(rs[..|rs| - 1], swingIds, instructorId, now);
    }
  }

  /**
    The effect of assignment on each record: every non-deleted named swing gets
    status 1, the instructor and the acceptance time and keeps everything
    else; every other record is untouched.
   */
  lemma AssignAllEffect(rs: seq<Swing>, swingIds: seq<int>, instructorId: int, now: Timestamp, k: int)
    requires 0 <= k < |rs|
    ensures |AssignAll(rs, swingIds, instructorId, now)| == |rs|
    ensures var r, a := rs[k], AssignAll(rs, swingIds, instructorId, now)[k];
      if !r.Deleted && r.SwingID in swingIds then
        && a.SwingStatusID == StatusAssigned && a.InstructorID == Some(instructorId) && a.DateAccepted == Some(now)
        && a.SwingID == r.SwingID && a.AccountID == r.AccountID && a.Description == r.Description
        && a.VideoPath == r.VideoPath && a.VimeoID == r.VimeoID && a.Deleted == r.Deleted
        && a.DateUploaded == r.DateUploaded
      else a == r
  {
    AssignAllAt(rs, swingIds, instructorId, now, k);
  }

  /** A later assignment of the same swings overrides an earlier one: the last write wins. */
  lemma AssignAllLastWriteWins(rs: seq<Swing>, swingIds: seq<int>, i1: int, t1: Timestamp, i2: int, t2: Timestamp)
    ensures AssignAll(AssignAll(rs, swingIds, i1, t1), swingIds, i2, t2) == AssignAll(rs, swingIds, i2, t2)
  {
    var once := AssignAll(rs, swingIds, i1, t1);
    var twice := AssignAll(once, swingIds, i2, t2);
    var direct := AssignAll(rs, swingIds, i2, t2);
    AssignAllLength(rs, swingIds, i1, t1);
    AssignAllLength(once, swingIds, i2, t2);
    AssignAllLength(rs, swingIds, i2, t2);
    forall k | 0 <= k < |rs| ensures twice[k] == direct[k] {
      AssignAllAt(rs, swingIds, i1, t1, k);
      AssignAllAt(once, swingIds, i2, t2, k);
      AssignAllAt(rs, swingIds, i2, t2, k);
    }
  }

  /** Repeating an assignment with the same instructor and time changes nothing. */
  lemma AssignAllIdempotent(rs: seq<Swing>, swingIds: seq<int>, instructorId: int, now: Timestamp)
    ensures AssignAll(AssignAll(rs, swingIds, instructorId, now), swingIds, instructorId, now)
         == AssignAll(rs, swingIds, instructorId, now)
  {
    AssignAllLastWriteWins(rs, swingIds, instructorId, now, instructorId, now);
  }

  /** Assignment keeps the store well formed. */
  lemma AssignPreservesWellFormed(rs: seq<Swing>, nextId: int, swingIds: seq<int>, instructorId: int, now: Timestamp)
    requires WellFormed(rs, nextId)
    ensures WellFormed(AssignAll(rs, swingIds, instructorId, now), nextId)
  {
    var a := AssignAll(rs, swingIds, instructorId, now);
    AssignAllLength(rs, swingIds, instructorId, now);
    forall k | 0 <= k < |rs| ensures a[k].SwingID == rs[k].SwingID && (a[k].SwingStatusID == StatusNew ==> a[k] == rs[k]) {
      AssignAllAt(rs, swingIds, instructorId, now, k);
    }
  }

  /** Assignment keeps new swings without a video wherever that held before. */
  lemma AssignPreservesNoVideoWhileNew(rs: seq<Swing>, swingIds: seq<int>, instructorId: int, now: Timestamp)
    requires NoVideoWhileNew(rs)
    ensures NoVideoWhileNew(AssignAll(rs, swingIds, instructorId, now))
  {
    var a := AssignAll(rs, swingIds, instructorId, now);
    AssignAllLength(rs, swingIds, instructorId, now);
    forall k | 0 <= k < |rs| ensures a[k].SwingStatusID == StatusNew ==> a[k] == rs[k] {
      AssignAllAt(rs, swingIds, instructorId, now, k);
    }
  }

  /** Filtering a store extended by one record. */
  lemma {:induction false} SearchSnoc(rs: seq<Swing>, x: Swing, q: SearchParams)
    ensures Search(rs + [x], q) == Search(rs, q) + (if Matches(x, q) then [x] else [])
  {
    if rs != [] {
      assert (rs + [x])[1..] == rs[1..] + [x];
      SearchSnoc(rs[1..], x, q);
    } else {
      assert [x][1..] == [];
    }
  }

  /** Everything `assignSwings` returns is claimed by the instructor at that time. */
  lemma AssignedListIsClaimed(rs: seq<Swing>, swingIds: seq<int>, instructorId: int, now: Timestamp, r: Swing)
    requires r in Search(AssignAll(rs, swingIds, instructorId, now), AssignQuery(swingIds))
    ensures r.SwingStatusID == StatusAssigned && r.InstructorID == Some(instructorId) && r.DateAccepted == Some(now)
    ensures r.SwingID in swingIds && !r.Deleted
  {
    var a := AssignAll(rs, swingIds, instructorId, now);
    SearchMembers(a, AssignQuery(swingIds), r);
    AssignAllLength(rs, swingIds, instructorId, now);
    var k :| 0 <= k < |a| && a[k] == r;
    AssignAllAt(rs, swingIds, instructorId, now, k);
  }

  /** One step of the assignment loop: claiming record `i` extends the assigned prefix. */
  lemma AssignStep(before: seq<Swing>, current: seq<Swing>, i: int, swingIds: seq<int>, instructorId: int, now: Timestamp)
    requires 0 <= i < |current| == |before|
    requires current[..i] == AssignAll(before[..i], swingIds, instructorId, now)
    requires current[i..] == before[i..]
    ensures current[i] == before[i]
    ensures var next := current[i := AssignOne(current[i], swingIds, instructorId, now)];
      && next[..i + 1] == current[..i] + [AssignOne(current[i], swingIds, instructorId, now)]
      && next[..i + 1] == AssignAll(before[..i + 1], swingIds, instructorId, now)
      && next[i + 1..] == before[i + 1..]
  {
    assert current[i] == current[i..][0] == before[i..][0];
    assert before[..i + 1][..i] == before[..i];
    var next := current[i := AssignOne(current[i], swingIds, instructorId, now)];
    assert next[..i + 1] == current[..i] + [AssignOne(current[i], swingIds, instructorId, now)];
    assert next[i + 1..] == current[i + 1..];
    assert current[i + 1..] == current[i..][1..];
    assert before[i + 1..] == before[i..][1..];
  }

  /** The swing table with the job log of dispatched thumbnail jobs. */
  class SwingStore {
    var records: seq<Swing>
    var nextId: int
    /** Swing ids passed to `ThumbnailVideo::dispatch`, oldest first. */
    var thumbnailJobs: seq<int>

    ghost predicate Valid()
      reads this
    {
      WellFormed(records, nextId)
    }

    /** A store holding existing rows, with no job dispatched yet. */
    constructor (initial: seq<Swing>, firstFreeId: int)
      requires WellFormed(initial, firstFreeId)
      ensures Valid() && records == initial && nextId == firstFreeId && thumbnailJobs == []
    {
      records := initial;
      nextId := firstFreeId;
      thumbnailJobs := [];
    }

    /** `store`: inserts a new locker item for the actor. */
    method Store(actor: Actor, description: Option<string>, now: Timestamp) returns (item: Swing)
      requires Valid()
      modifies this
      ensures Valid()
      ensures item == NewLockerItem(old(nextId), actor, description, now)
      ensures records == old(records) + [item]
      ensures item.SwingID != 0 && Find(records, item.SwingID) == Some(item)
      ensures nextId == old(nextId) + 1 && thumbnailJobs == old(thumbnailJobs)
      ensures NoVideoWhileNew(old(records)) ==> NoVideoWhileNew(records)
    {
      item := NewLockerItem(nextId, actor, description, now);
      NewItemPreservesWellFormed(records, nextId, actor, description, now);
      records := records + [item];
      nextId := nextId + 1;
    }

    /**
      `assignSwings`: after the instructor lookup and the authorisation check,
      every non-deleted named swing is claimed; the claimed records are returned.
     */
    method AssignSwings(actor: Actor, instructorId: int, swingIds: seq<int>,
                        instructors: set<int>, connections: set<(int, int)>, now: Timestamp)
      returns (outcome: Result<seq<Swing>, Error>)
      requires Valid()
      modifies this`records
      ensures Valid()
      ensures nextId == old(nextId) && thumbnailJobs == old(thumbnailJobs)
      ensures NoVideoWhileNew(old(records)) ==> NoVideoWhileNew(records)
      ensures instructorId !in instructors ==> outcome == Err(NotFound) && records == old(records)
      ensures instructorId in instructors && !MayAssign(actor, instructorId, connections) ==>
        outcome == Err(Unauthorized) && records == old(records)
      ensures instructorId in instructors && MayAssign(actor, instructorId, connections) ==>
        && records == AssignAll(old(records), swingIds, instructorId, now)
        && outcome == Ok(Search(records, AssignQuery(swingIds)))
    {
      if instructorId !in instructors {
        return Err(NotFound);
      }
      if !MayAssign(actor, instructorId, connections) {
        return Err(Unauthorized);
      }
      ghost var before := records;
      AssignPreservesWellFormed(before, nextId, swingIds, instructorId, now);
      if NoVideoWhileNew(before) {
        AssignPreservesNoVideoWhileNew(before, swingIds, instructorId, now);
      }
      var q := AssignQuery(swingIds);
      var updated: seq<Swing> := [];
      var i := 0;
      while i < |records|
        invariant 0 <= i <= |records| == |before|
        invariant records[..i] == AssignAll(before[..i], swingIds, instructorId, now)
        invariant records[i..] == before[i..]
        invariant updated == Search(records[..i], q)
      {
        var r := records[i];
        var claimed := AssignOne(r, swingIds, instructorId, now);
        AssignStep(before, records, i, swingIds, instructorId, now);
        SearchSnoc(records[..i], claimed, q);
        records := records[i := claimed];
        if !r.Deleted && r.SwingID in swingIds {
          updated := updated + [claimed];
        }
        i := i + 1;
      }
      assert records == records[..i];
      assert before == before[..i];
      outcome := Ok(updated);
    }

    /**
      `upload`: an accepted request dispatches one thumbnail job for the swing;
      the record itself is not changed, and a refused request dispatches nothing.
     */
    method Upload(actor: Actor, req: UploadRequest, env: string, t: Clock) returns (outcome: Result<UploadPlan, Error>)
      requires Valid()
      modifies this`thumbnailJobs
      ensures Valid()
      ensures outcome == CheckUpload(records, actor, req, env, t)
      ensures thumbnailJobs == if outcome.Ok? then old(thumbnailJobs) + [req.id] else old(thumbnailJobs)
      ensures records == old(records) && nextId == old(nextId)
      ensures NoVideoWhileNew(old(records)) ==> NoVideoWhileNew(records)
    {
      outcome := CheckUpload(records, actor, req, env, t);
      if outcome.Ok? {
        thumbnailJobs := thumbnailJobs + [outcome.value.item.SwingID];
      }
    }
  }
}
