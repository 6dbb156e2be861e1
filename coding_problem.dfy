/**
 * One coding-problem card (src/components/CodingProblem.tsx): reading the
 * user's attempted/solved flags, and `updateProgress`, which merges a checkbox
 * change into the stored record and mirrors it in the card's local state.
 */
module CodingProblem {
  import opened Wrappers
  import opened Schema
  import opened Replies

  /** The checkbox `updateProgress` is called for. */
  datatype Field = Attempted | Solved

  /** The columns of `user_coding_progress` the card reads and writes (the surrogate `id` is not modelled). */
  datatype Columns = Columns(attempted: Option<bool>, solved: Option<bool>,
                             attemptedAt: Option<Timestamp>, solvedAt: Option<Timestamp>)

  /** `updateData` (lines 92-99): both flags are plain booleans in it. */
  datatype ProgressUpdate = ProgressUpdate(userId: Id, problemId: Id, attempted: bool, solved: bool,
                                           attemptedAt: Option<Timestamp>, solvedAt: Option<Timestamp>)

  /** The table, keyed by its conflict target `user_id,problem_id`. */
  type Table = map<(Id, Id), Columns>

  // What the merge takes from the existing record (`existingData?.x || false` / `|| null`).
  function PriorAttempted(existing: Option<Columns>): bool { existing.Some? && OrFalse(existing.value.attempted) }
  function PriorSolved(existing: Option<Columns>): bool { existing.Some? && OrFalse(existing.value.solved) }
  function PriorAttemptedAt(existing: Option<Columns>): Option<Timestamp> { if existing.Some? then existing.value.attemptedAt else None }
  function PriorSolvedAt(existing: Option<Columns>): Option<Timestamp> { if existing.Some? then existing.value.solvedAt else None }

  /** `fetchProgress` (lines 66-72): a missing row or a null flag reads as false. */
  function ReadFlags(data: Option<Columns>): (flags: (bool, bool))
    ensures flags.0 <==> data.Some? && data.value.attempted == Some(true)
    ensures flags.1 <==> data.Some? && data.value.solved == Some(true)
    ensures data.None? ==> flags == (false, false)
  {
    (PriorAttempted(data), PriorSolved(data))
  }

  /**
   * The record `updateProgress` writes, case by case: the reference the
   * in-place construction below is proved against.
   */
  function Merged(user: Id, problem: Id, existing: Option<Columns>, field: Field, value: bool, now: Timestamp): (u: ProgressUpdate)
    ensures u.userId == user && u.problemId == problem
    // the invariant of every written record
    ensures u.solved ==> u.attempted
    // the requested flag takes the requested value
    ensures field == Attempted ==> u.attempted == value
    ensures field == Solved ==> u.solved == value
    // marking solved forces attempted and fills a missing attempted_at
    ensures field == Solved && value ==> u.attempted && u.attemptedAt == Some(PriorAttemptedAt(existing).GetOr(now))
    // unmarking attempted forces unsolved and clears solved_at
    ensures field == Attempted && !value ==> !u.solved && u.solvedAt == None
    // otherwise the flag not named keeps its prior value, false without a record
    ensures field == Attempted && value ==> u.solved == PriorSolved(existing)
    ensures field == Solved && !value ==> u.attempted == PriorAttempted(existing)
    // a timestamp becomes `now` only when its own flag is set (or attempted is forced over a missing one)
    ensures u.attemptedAt == (if field == Attempted && value then Some(now)
                              else if field == Solved && value then Some(PriorAttemptedAt(existing).GetOr(now))
                              else PriorAttemptedAt(existing))
    ensures u.solvedAt == (if field == Solved && value then Some(now)
                           else if field == Attempted && !value then None
                           else PriorSolvedAt(existing))
  {
    match (field, value)
    case (Attempted, true) =>
      ProgressUpdate(user, problem, true, PriorSolved(existing), Some(now), PriorSolvedAt(existing))
    case (Attempted, false) =>
      ProgressUpdate(user, problem, false, false, PriorAttemptedAt(existing), None)
    case (Solved, true) =>
      ProgressUpdate(user, problem, true, true, Some(PriorAttemptedAt(existing).GetOr(now)), Some(now))
    case (Solved, false) =>
      ProgressUpdate(user, problem, PriorAttempted(existing), false, PriorAttemptedAt(existing), PriorSolvedAt(existing))
  }

  /** Lines 92-113: build `updateData`, then force attempted on solve and unsolved on un-attempt. */
  method BuildUpdate(user: Id, problem: Id, existing: Option<Columns>, field: Field, value: bool, now: Timestamp)
    returns (u: ProgressUpdate)
    ensures u == Merged(user, problem, existing, field, value, now)
    ensures u.solved ==> u.attempted
  {
    u := ProgressUpdate(
      user, problem,
      if field == Attempted then value else PriorAttempted(existing),
      if field == Solved then value else PriorSolved(existing),
      if field == Attempted && value then Some(now) else PriorAttemptedAt(existing),
      if field == Solved && value then Some(now) else PriorSolvedAt(existing));
    if field == Solved && value {
      u := u.(attempted := true);
      if u.attemptedAt.None? {
        u := u.(attemptedAt := Some(now));
      }
    }
    if field == Attempted && !value {
      u := u.(solved := false, solvedAt := None);
    }
  }

  /** The stored form of an update. */
  function Stored(u: ProgressUpdate): Columns {
    Columns(Some(u.attempted), Some(u.solved), u.attemptedAt, u.solvedAt)
  }

  /** Lines 125-135: the card's flags after a successful upsert. */
  function LocalFlags(attempted: bool, solved: bool, field: Field, value: bool): (flags: (bool, bool))
    ensures field == Attempted ==> flags.0 == value && flags.1 == (value && solved)
    ensures field == Solved ==> flags.1 == value && flags.0 == (value || attempted)
  {
    if field == Attempted then (value, if value then solved else false)
    else (if value then true else attempted, value)
  }

  /**
   * The local state follows the same forcing rules as the record: a card that
   * showed the stored flags shows the written flags afterwards.
   */
  lemma LocalMirrorsRecord(user: Id, problem: Id, existing: Option<Columns>, field: Field, value: bool, now: Timestamp)
    ensures var u := Merged(user, problem, existing, field, value, now);
      LocalFlags(PriorAttempted(existing), PriorSolved(existing), field, value) == (u.attempted, u.solved)
  {
  }

  /** Every stored record satisfies solved ==> attempted. */
  ghost predicate Consistent(table: Table) {
    forall k :: k in table ==> (OrFalse(table[k].solved) ==> OrFalse(table[k].attempted))
  }

  /** Writing a merged record keeps a consistent table consistent, whatever the prior record was. */
  lemma UpdateKeepsConsistent(table: Table, user: Id, problem: Id, existing: Option<Columns>, field: Field, value: bool, now: Timestamp)
    requires Consistent(table)
    ensures Consistent(table[(user, problem) := Stored(Merged(user, problem, existing, field, value, now))])
  {
  }

  /** The card: its two checkboxes and its loading flag. */
  class Card {
    const problemId: Id
    var attempted: bool
    var solved: bool
    var loading: bool

    constructor (problemId: Id)
      ensures this.problemId == problemId
      ensures !attempted && !solved && loading
    {
      this.problemId := problemId;
      attempted, solved, loading := false, false, true;
    }

    /**
     * The effect at lines 45-51 with `fetchProgress`: without a user only
     * loading ends; a failed read (which throws at line 64) leaves the flags;
     * otherwise they are the stored flags, false when absent or null.
     */
    method Load(user: Option<Id>, table: Table, readOk: bool)
      modifies this
      ensures !loading
      ensures user.None? || !readOk ==> attempted == old(attempted) && solved == old(solved)
      ensures user.Some? && readOk ==>
        (attempted, solved) == ReadFlags(if (user.value, problemId) in table then Some(table[(user.value, problemId)]) else None)
    {
      if user.Some? && readOk {
        var key := (user.value, problemId);
        var data := if key in table then Some(table[key]) else None;
        var flags := ReadFlags(data);
        attempted, solved := flags.0, flags.1;
      }
      loading := false;
    }

    /**
     * `updateProgress(field, value)`. The prior record is what the read at
     * lines 85-90 returns: the stored one, or none on an error reply (its
     * error is ignored); a read that rejects reaches the `catch`. A failed
     * upsert throws and changes nothing.
     */
    method UpdateProgress(user: Option<Id>, field: Field, value: bool, now: Timestamp,
                          table: Table, read: Outcome, writeOk: bool) returns (table': Table)
      modifies this
      ensures user.None? || read == Threw || !writeOk ==>
        table' == table && attempted == old(attempted) && solved == old(solved)
      ensures user.Some? && read != Threw && writeOk ==>
        var key := (user.value, problemId);
        var existing := if read == Answered && key in table then Some(table[key]) else None;
        && table' == table[key := Stored(Merged(user.value, problemId, existing, field, value, now))]
        && (attempted, solved) == LocalFlags(old(attempted), old(solved), field, value)
      ensures Consistent(table) ==> Consistent(table')
      ensures loading == old(loading)
    {
      table' := table;
      if user.None? || read == Threw {
        return;
      }
      var key := (user.value, problemId);
      var existing := if read == Answered && key in table then Some(table[key]) else None;
      var u := BuildUpdate(user.value, problemId, existing, field, value, now);
      if !writeOk {
        return;
      }
      table' := table[key := Stored(u)];
      if Consistent(table) {
        UpdateKeepsConsistent(table, user.value, problemId, existing, field, value, now);
      }
      var flags := LocalFlags(attempted, solved, field, value);
      attempted, solved := flags.0, flags.1;
    }
  }
}
