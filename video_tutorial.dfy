/**
 * A video card (src/components/VideoTutorial.tsx): reading and toggling the
 * user's completion of one video in `user_video_progress`, a table with at
 * most one row per (user, video) pair.
 */
module VideoTutorial {
  import opened Wrappers
  import opened Schema
  import opened Replies

  /** A row's columns, keyed by `(user_id, video_id)`. */
  datatype Completion = Completion(completed: Option<bool>, completedAt: Option<Timestamp>)

  type Table = map<(Id, Id), Completion>

  /** The upsert at lines 67-76: conflicting on `user_id,video_id`, it leaves one completed row for the pair. */
  function Upserted(t: Table, user: Id, video: Id, now: Timestamp): (t': Table)
    ensures t'.Keys == t.Keys + {(user, video)}
    ensures t'[(user, video)] == Completion(Some(true), Some(now))
    ensures forall k :: k in t && k != (user, video) ==> t'[k] == t[k]
  {
    t[(user, video) := Completion(Some(true), Some(now))]
  }

  /** The delete at lines 78-82: the pair's row, if any, is gone. */
  function Deleted(t: Table, user: Id, video: Id): (t': Table)
    ensures t'.Keys == t.Keys - {(user, video)}
    ensures forall k :: k in t' ==> t'[k] == t[k]
  {
    map k | k in t && k != (user, video) :: t[k]
  }

  /** `data?.completed || false` for the pair's row. */
  function Displayed(t: Table, user: Id, video: Id): (b: bool)
    ensures b <==> (user, video) in t && t[(user, video)].completed == Some(true)
  {
    (user, video) in t && OrFalse(t[(user, video)].completed)
  }

  /** After marking, the pair reads as completed; after unmarking, as not completed. */
  lemma ToggleThenRead(t: Table, user: Id, video: Id, now: Timestamp)
    ensures Displayed(Upserted(t, user, video, now), user, video)
    ensures !Displayed(Deleted(t, user, video), user, video)
  {
  }

  /** Neither write touches another user's or another video's row. */
  lemma TogglesAreLocal(t: Table, user: Id, video: Id, now: Timestamp, k: (Id, Id))
    requires k != (user, video)
    ensures k in Upserted(t, user, video, now) <==> k in t
    ensures k in Deleted(t, user, video) <==> k in t
    ensures k in t ==> Upserted(t, user, video, now)[k] == t[k] && Deleted(t, user, video)[k] == t[k]
  {
  }

  /** Two tables with the same rows up to `completed_at`. */
  predicate SameIgnoringTime(a: Table, b: Table) {
    a.Keys == b.Keys && forall k :: k in a ==> a[k].completed == b[k].completed
  }

  /** Marking twice is marking once, up to the timestamp; unmarking twice is unmarking once. */
  lemma TogglesIdempotent(t: Table, user: Id, video: Id, now1: Timestamp, now2: Timestamp)
    ensures Upserted(Upserted(t, user, video, now1), user, video, now2) == Upserted(t, user, video, now2)
    ensures SameIgnoringTime(Upserted(Upserted(t, user, video, now1), user, video, now2), Upserted(t, user, video, now1))
    ensures Deleted(Deleted(t, user, video), user, video) == Deleted(t, user, video)
  {
  }

  /** The table after a toggle's write: changed only when the write is answered. */
  function AfterToggle(t: Table, user: Id, video: Id, completed: bool, now: Timestamp, outcome: Outcome): (t': Table)
    ensures outcome != Answered ==> t' == t
    ensures outcome == Answered ==> Displayed(t', user, video) == completed
  {
    if outcome != Answered then t
    else if completed then Upserted(t, user, video, now)
    else Deleted(t, user, video)
  }

  /**
   * The checkbox after a toggle, as written (line 85): any reply that does
   * not throw sets it to the requested value, including a refused write.
   */
  function ShownAfter(prev: bool, completed: bool, outcome: Outcome): (b: bool)
    ensures outcome == Threw ==> b == prev
    ensures outcome != Threw ==> b == completed
  {
    if outcome == Threw then prev else completed
  }

  /** A refused mark leaves the card showing "completed" while the table has no such row. */
  lemma RefusedWriteMisreported(user: Id, video: Id, now: Timestamp)
    ensures var t: Table := map[];
      ShownAfter(false, true, Refused) && !Displayed(AfterToggle(t, user, video, true, now, Refused), user, video)
  {
  }

  /** The checkbox as evidently intended: it changes only when the write took effect. */
  function ShownAfterChecked(prev: bool, completed: bool, outcome: Outcome): (b: bool)
    ensures outcome == Answered ==> b == completed
    ensures outcome != Answered ==> b == prev
  {
    if outcome == Answered then completed else prev
  }

  /** With the write's error checked, the card keeps showing what the table holds. */
  lemma CheckedShownMatchesTable(t: Table, user: Id, video: Id, completed: bool, now: Timestamp, outcome: Outcome)
    ensures ShownAfterChecked(Displayed(t, user, video), completed, outcome) ==
      Displayed(AfterToggle(t, user, video, completed, now, outcome), user, video)
  {
  }

  /** One video card's state, with the completion table it reads and writes. */
  class VideoCard {
    const videoId: Id
    var isCompleted: bool
    var loading: bool
    var table: Table

    constructor (videoId: Id, table: Table)
      ensures this.videoId == videoId && this.table == table
      ensures !isCompleted && loading
    {
      this.videoId := videoId;
      this.table := table;
      isCompleted := false;
      loading := true;
    }

    /**
     * `checkVideoProgress` (lines 40-60): without a user nothing is read; a
     * refused read shows "not completed"; a thrown one leaves the checkbox.
     * Loading ends either way.
     */
    method CheckVideoProgress(user: Option<Id>, outcome: Outcome)
      modifies this
      ensures !loading && table == old(table)
      ensures user.None? || outcome == Threw ==> isCompleted == old(isCompleted)
      ensures user.Some? && outcome == Answered ==> isCompleted == Displayed(table, user.value, videoId)
      ensures user.Some? && outcome == Refused ==> !isCompleted
      ensures OffersCheckbox(user) <==> user.Some?
    {
      if user.Some? && outcome != Threw {
        isCompleted := if outcome == Answered then Displayed(table, user.value, videoId) else false;
      }
      loading := false;
    }

    /** `toggleCompleted` (lines 62-98), as written; without a user nothing happens. */
    method ToggleCompleted(user: Option<Id>, completed: bool, now: Timestamp, outcome: Outcome)
      modifies this
      ensures user.None? ==> table == old(table) && isCompleted == old(isCompleted)
      ensures user.Some? ==> table == AfterToggle(old(table), user.value, videoId, completed, now, outcome)
      ensures user.Some? ==> isCompleted == ShownAfter(old(isCompleted), completed, outcome)
      ensures user.Some? && outcome == Answered ==> isCompleted == completed == Displayed(table, user.value, videoId)
      ensures loading == old(loading)
    {
      if user.None? {
        return;
      }
      if outcome == Answered {
        table := if completed then Upserted(table, user.value, videoId, now) else Deleted(table, user.value, videoId);
      }
      if outcome != Threw {
        isCompleted := completed;
      }
    }

    /**
     * `toggleCompleted` with the reply's error checked: the checkbox changes
     * only when the write took effect, so a card that showed the table
     * still shows it afterwards.
     */
    method ToggleCompletedChecked(user: Option<Id>, completed: bool, now: Timestamp, outcome: Outcome)
      modifies this
      ensures user.None? ==> table == old(table) && isCompleted == old(isCompleted)
      ensures user.Some? ==> table == AfterToggle(old(table), user.value, videoId, completed, now, outcome)
      ensures user.Some? ==> isCompleted == ShownAfterChecked(old(isCompleted), completed, outcome)
      ensures user.Some? && old(isCompleted) == Displayed(old(table), user.value, videoId) ==>
        isCompleted == Displayed(table, user.value, videoId)
      ensures loading == old(loading)
    {
      if user.None? {
        return;
      }
      CheckedShownMatchesTable(table, user.value, videoId, completed, now, outcome);
      table := AfterToggle(table, user.value, videoId, completed, now, outcome);
      isCompleted := ShownAfterChecked(isCompleted, completed, outcome);
    }

    /** The checkbox is offered only to a signed-in user once loading is over (line 136). */
    predicate OffersCheckbox(user: Option<Id>)
      reads this
    {
      user.Some? && !loading
    }
  }
}
