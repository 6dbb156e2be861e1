/**
 * The coding-problem list (src/components/CodingProblems.tsx): grouping the
 * problems by difficulty, the per-problem progress map, its local updates
 * after "Mark Attempted" / "Mark Solved", and which button a card offers.
 */
module CodingProblems {
  import opened Wrappers
  import opened Schema
  import opened Replies

  /** A problem as the list receives it. */
  datatype Problem = Problem(id: Id, title: string, description: string, platform: string,
                             problemUrl: string, difficulty: Difficulty, tags: seq<string>)

  // ---------------------------------------------------------------------------
  // Grouping by difficulty (lines 118-128)
  // ---------------------------------------------------------------------------

  /** One entry of `Object.entries(groupedProblems)`. */
  datatype Group = Group(difficulty: Difficulty, problems: seq<Problem>)

  /** The difficulties of `ps`, each once, in order of first occurrence. */
  function GroupOrder(ps: seq<Problem>): (order: seq<Difficulty>)
    ensures forall i, j :: 0 <= i < j < |order| ==> order[i] != order[j]
  {
    if ps == [] then []
    else
      var prev := GroupOrder(ps[..|ps| - 1]);
      var d := ps[|ps| - 1].difficulty;
      assert ps == ps[..|ps| - 1] + [ps[|ps| - 1]];
      if d in prev then prev else prev + [d]
  }

  /** The problems of difficulty `d`, in their original relative order. */
  function OfDifficulty(ps: seq<Problem>, d: Difficulty): (r: seq<Problem>)
    ensures |r| <= |ps|
  {
    if ps == [] then []
    else
      assert ps == ps[..|ps| - 1] + [ps[|ps| - 1]];
      OfDifficulty(ps[..|ps| - 1], d) + (if ps[|ps| - 1].difficulty == d then [ps[|ps| - 1]] else [])
  }

  lemma GroupOrderSnoc(ps: seq<Problem>, p: Problem)
    ensures GroupOrder(ps + [p]) ==
      if p.difficulty in GroupOrder(ps) then GroupOrder(ps) else GroupOrder(ps) + [p.difficulty]
  {
    assert (ps + [p])[..|ps|] == ps;
  }

  lemma OfDifficultySnoc(ps: seq<Problem>, p: Problem)
    ensures forall d :: OfDifficulty(ps + [p], d) ==
                        OfDifficulty(ps, d) + (if p.difficulty == d then [p] else [])
  {
    assert (ps + [p])[..|ps|] == ps;
  }

  /** A difficulty with no group has no problems. */
  lemma {:induction false} NoGroupNoProblems(ps: seq<Problem>, d: Difficulty)
    requires d !in GroupOrder(ps)
    ensures OfDifficulty(ps, d) == []
  {
    if ps != [] {
      var init, last := ps[..|ps| - 1], ps[|ps| - 1];
      assert GroupOrder(ps) ==
        if last.difficulty in GroupOrder(init) then GroupOrder(init) else GroupOrder(init) + [last.difficulty];
      assert last.difficulty != d && d !in GroupOrder(init);
      NoGroupNoProblems(init, d);
      assert OfDifficulty(ps, d) == OfDifficulty(init, d) + [];
    }
  }

  /**
   * The reduce's accumulator after reading `pre`: its keys, in insertion
   * order `order`, are the groups of `pre`, each holding that group's problems.
   */
  ghost predicate Accumulated(pre: seq<Problem>, acc: map<Difficulty, seq<Problem>>, order: seq<Difficulty>) {
    && order == GroupOrder(pre)
    && (forall d :: d in acc <==> d in order)
    && (forall d :: d in acc ==> acc[d] == OfDifficulty(pre, d))
  }

  /** One step of the reduce keeps the accumulator equal to the groups of the prefix read so far. */
  lemma GroupStep(pre: seq<Problem>, p: Problem, acc: map<Difficulty, seq<Problem>>, order: seq<Difficulty>,
                  acc': map<Difficulty, seq<Problem>>, order': seq<Difficulty>)
    requires Accumulated(pre, acc, order)
    requires order' == if p.difficulty in acc then order else order + [p.difficulty]
    requires acc' == acc[p.difficulty := (if p.difficulty in acc then acc[p.difficulty] else []) + [p]]
    ensures Accumulated(pre + [p], acc', order')
  {
    GroupOrderSnoc(pre, p);
    OfDifficultySnoc(pre, p);
    if p.difficulty !in acc {
      NoGroupNoProblems(pre, p.difficulty);
    }
    forall d | d in acc' ensures acc'[d] == OfDifficulty(pre + [p], d) {
      if d != p.difficulty {
        assert acc'[d] == acc[d];
      }
    }
  }

  /** The entries of the finished accumulator are the groups of the whole list. */
  lemma AccumulatedEntries(ps: seq<Problem>, acc: map<Difficulty, seq<Problem>>, order: seq<Difficulty>)
    requires Accumulated(ps, acc, order)
    ensures order == GroupOrder(ps)
    ensures forall k :: 0 <= k < |order| ==> order[k] in acc && acc[order[k]] == OfDifficulty(ps, order[k])
  {
  }

  /**
   * `problems.reduce(...)` into an accumulator keyed by difficulty, then
   * `Object.entries`: keys come out in insertion order.
   */
  method GroupProblems(problems: seq<Problem>) returns (groups: seq<Group>)
    ensures |groups| == |GroupOrder(problems)|
    ensures forall k :: 0 <= k < |groups| ==>
      groups[k] == Group(GroupOrder(problems)[k], OfDifficulty(problems, GroupOrder(problems)[k]))
  {
    var acc: map<Difficulty, seq<Problem>> := map[];
    var order: seq<Difficulty> := [];
    for i := 0 to |problems|
      invariant Accumulated(problems[..i], acc, order)
    {
      var p := problems[i];
      ghost var acc0, order0 := acc, order;
      if p.difficulty !in acc {
        acc := acc[p.difficulty := []];
        order := order + [p.difficulty];
      }
      acc := acc[p.difficulty := acc[p.difficulty] + [p]];
      GroupStep(problems[..i], p, acc0, order0, acc, order);
      assert problems[..i + 1] == problems[..i] + [p];
    }
    assert problems[..|problems|] == problems;
    AccumulatedEntries(problems, acc, order);
    groups := seq(|order|, k requires 0 <= k < |order| => Group(order[k], acc[order[k]]));
  }

  /** A group holds exactly the problems of its difficulty. */
  lemma {:induction false} OfDifficultyMembers(ps: seq<Problem>, d: Difficulty)
    ensures forall p :: p in OfDifficulty(ps, d) <==> p in ps && p.difficulty == d
  {
    if ps != [] {
      var init := ps[..|ps| - 1];
      assert ps == init + [ps[|ps| - 1]];
      OfDifficultySnoc(init, ps[|ps| - 1]);
      OfDifficultyMembers(init, d);
    }
  }

  /** Every problem lies in the group of its own difficulty and in no other. */
  lemma EachProblemInItsGroup(problems: seq<Problem>, k: nat)
    requires k < |problems|
    ensures problems[k].difficulty in GroupOrder(problems)
    ensures forall d :: problems[k] in OfDifficulty(problems, d) <==> d == problems[k].difficulty
  {
    GroupOrderMembers(problems, problems[k].difficulty);
    assert problems[k] in problems;
    forall d ensures problems[k] in OfDifficulty(problems, d) <==> d == problems[k].difficulty {
      OfDifficultyMembers(problems, d);
    }
  }

  /** The sizes of the groups listed in `order`. */
  function TotalSize(ps: seq<Problem>, order: seq<Difficulty>): nat {
    if order == [] then 0 else |OfDifficulty(ps, order[0])| + TotalSize(ps, order[1..])
  }

  lemma {:induction false} TotalSizeAppend(ps: seq<Problem>, order: seq<Difficulty>, d: Difficulty)
    ensures TotalSize(ps, order + [d]) == TotalSize(ps, order) + |OfDifficulty(ps, d)|
  {
    if order == [] {
      assert [d][1..] == [];
    } else {
      assert (order + [d])[1..] == order[1..] + [d];
      TotalSizeAppend(ps, order[1..], d);
    }
  }

  lemma {:induction false} TotalSizeSnoc(ps: seq<Problem>, p: Problem, order: seq<Difficulty>)
    requires forall i, j :: 0 <= i < j < |order| ==> order[i] != order[j]
    ensures TotalSize(ps + [p], order) == TotalSize(ps, order) + (if p.difficulty in order then 1 else 0)
  {
    if order != [] {
      assert (ps + [p])[..|ps + [p]| - 1] == ps;
      TotalSizeSnoc(ps, p, order[1..]);
      assert p.difficulty in order <==> p.difficulty == order[0] || p.difficulty in order[1..];
      assert order[0] !in order[1..];
    }
  }

  /** The group sizes add up to the number of problems. */
  lemma {:induction false} GroupSizesSum(ps: seq<Problem>)
    ensures TotalSize(ps, GroupOrder(ps)) == |ps|
  {
    if ps != [] {
      var init := ps[..|ps| - 1];
      var p := ps[|ps| - 1];
      assert ps == init + [p];
      GroupSizesSum(init);
      var prev := GroupOrder(init);
      TotalSizeSnoc(init, p, prev);
      GroupOrderSnoc(init, p);
      if p.difficulty !in prev {
        TotalSizeAppend(ps, prev, p.difficulty);
        NoGroupNoProblems(init, p.difficulty);
        OfDifficultySnoc(init, p);
      }
    }
  }

  /** The index of the first problem of difficulty `d`, or `|ps|` when there is none. */
  function FirstIndex(ps: seq<Problem>, d: Difficulty): (k: nat)
    ensures k <= |ps|
    ensures k < |ps| ==> ps[k].difficulty == d
    ensures forall j :: 0 <= j < k ==> ps[j].difficulty != d
  {
    if ps == [] then 0
    else if ps[0].difficulty == d then 0
    else
      var k := 1 + FirstIndex(ps[1..], d);
      assert forall j :: 1 <= j < k ==> ps[j] == ps[1..][j - 1];
      k
  }

  lemma FirstIndexSnoc(ps: seq<Problem>, p: Problem, d: Difficulty)
    ensures FirstIndex(ps + [p], d) ==
      if FirstIndex(ps, d) < |ps| then FirstIndex(ps, d) else if p.difficulty == d then |ps| else |ps| + 1
  {
    var k, k' := FirstIndex(ps, d), FirstIndex(ps + [p], d);
    assert forall j :: 0 <= j < |ps| ==> (ps + [p])[j] == ps[j];
    if k < |ps| {
      assert (ps + [p])[k].difficulty == d;
    } else if p.difficulty == d {
      assert (ps + [p])[|ps|].difficulty == d;
    }
  }

  lemma {:induction false} GroupOrderFirstIndex(ps: seq<Problem>, d: Difficulty)
    ensures d in GroupOrder(ps) <==> FirstIndex(ps, d) < |ps|
  {
    if ps != [] {
      var init, q := ps[..|ps| - 1], ps[|ps| - 1];
      assert ps == init + [q];
      GroupOrderSnoc(init, q);
      FirstIndexSnoc(init, q, d);
      GroupOrderFirstIndex(init, d);
    }
  }

  /** A difficulty has a group exactly when some problem has it. */
  lemma GroupOrderMembers(ps: seq<Problem>, d: Difficulty)
    ensures d in GroupOrder(ps) <==> FirstIndex(ps, d) < |ps|
    ensures d in GroupOrder(ps) <==> exists p :: p in ps && p.difficulty == d
  {
    GroupOrderFirstIndex(ps, d);
    var k := FirstIndex(ps, d);
    if k < |ps| {
      assert ps[k] in ps;
    } else {
      forall p | p in ps ensures p.difficulty != d {
        var j :| 0 <= j < |ps| && ps[j] == p;
      }
    }
  }

  /** Groups come in order of the first occurrence of their difficulty. */
  lemma GroupOrderIsFirstOccurrence(ps: seq<Problem>)
    ensures forall i :: 0 <= i < |GroupOrder(ps)| ==> FirstIndex(ps, GroupOrder(ps)[i]) < |ps|
    ensures forall i, j :: 0 <= i < j < |GroupOrder(ps)| ==>
      FirstIndex(ps, GroupOrder(ps)[i]) < FirstIndex(ps, GroupOrder(ps)[j])
  {
    forall i | 0 <= i < |GroupOrder(ps)| ensures FirstIndex(ps, GroupOrder(ps)[i]) < |ps| {
      GroupOrderMembers(ps, GroupOrder(ps)[i]);
    }
    GroupOrderIncreasing(ps);
  }

  lemma {:induction false} GroupOrderIncreasing(ps: seq<Problem>)
    ensures forall i, j :: 0 <= i < j < |GroupOrder(ps)| ==>
      FirstIndex(ps, GroupOrder(ps)[i]) < FirstIndex(ps, GroupOrder(ps)[j])
  {
    if ps != [] {
      var init := ps[..|ps| - 1];
      var p := ps[|ps| - 1];
      assert ps == init + [p];
      GroupOrderIncreasing(init);
      var prev := GroupOrder(init);
      forall i | 0 <= i < |prev| ensures FirstIndex(ps, prev[i]) == FirstIndex(init, prev[i]) < |init| {
        FirstIndexSnoc(init, p, prev[i]);
        GroupOrderMembers(init, prev[i]);
      }
      GroupOrderSnoc(init, p);
      if p.difficulty !in prev {
        FirstIndexSnoc(init, p, p.difficulty);
        GroupOrderMembers(init, p.difficulty);
        var order := prev + [p.difficulty];
        assert FirstIndex(ps, order[|prev|]) == |init|;
        assert forall i :: 0 <= i < |prev| ==> order[i] == prev[i];
      }
    }
  }

  // ---------------------------------------------------------------------------
  // The progress map (lines 27, 34-52) and its local updates (lines 69-72, 95-98)
  // ---------------------------------------------------------------------------

  /** One value of `userProgress`; `None` is a null or absent (undefined) flag. */
  datatype Entry = Entry(attempted: Option<bool>, solved: Option<bool>)

  type ProgressMap = map<Id, Entry>

  /** A row of the read at lines 37-41 (`problem_id, attempted, solved`). */
  datatype ProgressRow = ProgressRow(problemId: Id, attempted: Option<bool>, solved: Option<bool>)

  /** `.in('problem_id', problems.map(p => p.id))`: the id is one of the listed problems'. */
  predicate OnPage(problems: seq<Problem>, id: Id) {
    exists p :: p in problems && p.id == id
  }

  /** The filters of the read at lines 37-41: this user's row, for a problem on the page. */
  predicate Matches(t: CodingProgressRow, user: Id, problems: seq<Problem>) {
    t.userId == Some(user) && t.problemId.Some? && OnPage(problems, t.problemId.value)
  }

  /** The three selected columns of a row with a problem id. */
  function RowOf(t: CodingProgressRow): ProgressRow
    requires t.problemId.Some?
  {
    ProgressRow(t.problemId.value, t.attempted, t.solved)
  }

  /** The read: exactly the selected columns of the table rows that pass the filters, in table order. */
  function ProgressQuery(table: seq<CodingProgressRow>, user: Id, problems: seq<Problem>): (rows: seq<ProgressRow>)
    ensures |rows| <= |table|
    ensures forall r :: r in rows ==> OnPage(problems, r.problemId)
    ensures forall r :: r in rows <==>
      exists i :: 0 <= i < |table| && Matches(table[i], user, problems) && r == RowOf(table[i])
  {
    if table == [] then []
    else
      var t := table[0];
      var rest := ProgressQuery(table[1..], user, problems);
      if Matches(t, user, problems) then [RowOf(t)] + rest else rest
  }

  /** The entry the last row for problem `k` leaves in the map: later rows overwrite earlier ones. */
  function LastFor(rows: seq<ProgressRow>, k: Id): (e: Option<Entry>)
    ensures e.Some? <==> exists r :: r in rows && r.problemId == k
  {
    if rows == [] then None
    else
      var last := rows[|rows| - 1];
      assert rows == rows[..|rows| - 1] + [last];
      if last.problemId == k then Some(Entry(last.attempted, last.solved))
      else LastFor(rows[..|rows| - 1], k)
  }

  /** The index of the last row for `k`, or -1 when there is none. */
  function LastIndex(rows: seq<ProgressRow>, k: Id): (i: int)
    ensures -1 <= i < |rows|
    ensures i >= 0 ==> rows[i].problemId == k
    ensures forall j :: i < j < |rows| ==> rows[j].problemId != k
  {
    if rows == [] then -1
    else if rows[|rows| - 1].problemId == k then |rows| - 1
    else
      var i := LastIndex(rows[..|rows| - 1], k);
      assert forall j :: i < j < |rows| - 1 ==> rows[j] == rows[..|rows| - 1][j];
      i
  }

  /** The map keeps the entry of the last row for `k`: later rows overwrite earlier ones. */
  lemma {:induction false} LastForIsLastRow(rows: seq<ProgressRow>, k: Id)
    ensures LastFor(rows, k) ==
      var i := LastIndex(rows, k);
      if i < 0 then None else Some(Entry(rows[i].attempted, rows[i].solved))
  {
    if rows != [] && rows[|rows| - 1].problemId != k {
      var init := rows[..|rows| - 1];
      LastForIsLastRow(init, k);
      var i := LastIndex(init, k);
      if i >= 0 { assert rows[i] == init[i]; }
    }
  }

  /**
   * A problem gets a map entry exactly when the table holds a row of this
   * user for it, and only problems on the page do: the map holds no other
   * user's progress.
   */
  lemma FetchedKeysAreThisUsersRows(table: seq<CodingProgressRow>, user: Id, problems: seq<Problem>, k: Id)
    ensures LastFor(ProgressQuery(table, user, problems), k).Some? <==>
      exists i :: 0 <= i < |table| && Matches(table[i], user, problems) && table[i].problemId == Some(k)
    ensures LastFor(ProgressQuery(table, user, problems), k).Some? ==> OnPage(problems, k)
  {
    var rows := ProgressQuery(table, user, problems);
    if LastFor(rows, k).Some? {
      var r :| r in rows && r.problemId == k;
      var i :| 0 <= i < |table| && Matches(table[i], user, problems) && r == RowOf(table[i]);
      assert table[i].problemId == Some(k);
    }
    if exists i :: 0 <= i < |table| && Matches(table[i], user, problems) && table[i].problemId == Some(k) {
      var i :| 0 <= i < |table| && Matches(table[i], user, problems) && table[i].problemId == Some(k);
      assert RowOf(table[i]) in rows;
    }
  }

  /**
   * Lines 43-49: `data?.forEach(item => progressMap[item.problem_id] = ...)`,
   * a null reply giving the empty map.
   */
  method BuildProgressMap(data: Option<seq<ProgressRow>>) returns (m: ProgressMap)
    ensures data.None? ==> m == map[]
    ensures data.Some? ==> forall k :: (k in m <==> LastFor(data.value, k).Some?)
    ensures data.Some? ==> forall k :: k in m ==> Some(m[k]) == LastFor(data.value, k)
  {
    m := map[];
    if data.None? {
      return;
    }
    var rows := data.value;
    for i := 0 to |rows|
      invariant forall k :: k in m <==> LastFor(rows[..i], k).Some?
      invariant forall k :: k in m ==> Some(m[k]) == LastFor(rows[..i], k)
    {
      assert rows[..i + 1][..i] == rows[..i];
      m := m[rows[i].problemId := Entry(rows[i].attempted, rows[i].solved)];
    }
    assert rows[..|rows|] == rows;
  }

  /** `userProgress[id] || { attempted: false, solved: false }`. */
  function Lookup(m: ProgressMap, id: Id): (e: Entry)
    ensures id in m ==> e == m[id]
    ensures id !in m ==> e == Entry(Some(false), Some(false))
  {
    if id in m then m[id] else Entry(Some(false), Some(false))
  }

  /** The local update after a successful "Mark Attempted": `{ ...prev[id], attempted: true }`. */
  function AttemptedLocally(m: ProgressMap, id: Id): (m': ProgressMap)
    ensures m'.Keys == m.Keys + {id}
    ensures m'[id].attempted == Some(true)
    ensures m'[id].solved == (if id in m then m[id].solved else None)
    ensures forall k :: k in m && k != id ==> m'[k] == m[k]
  {
    m[id := Entry(Some(true), if id in m then m[id].solved else None)]
  }

  /** The local update after a successful "Mark Solved": both flags true for that problem only. */
  function SolvedLocally(m: ProgressMap, id: Id): (m': ProgressMap)
    ensures m'.Keys == m.Keys + {id}
    ensures m'[id] == Entry(Some(true), Some(true))
    ensures forall k :: k in m && k != id ==> m'[k] == m[k]
  {
    m[id := Entry(Some(true), Some(true))]
  }

  // ---------------------------------------------------------------------------
  // What a card offers (lines 136-199)
  // ---------------------------------------------------------------------------

  /** "Mark Attempted" is rendered when `!progress.attempted`. */
  predicate OffersMarkAttempted(e: Entry) {
    !OrFalse(e.attempted)
  }

  /** "Mark Solved" is rendered when `progress.attempted && !progress.solved`. */
  predicate OffersMarkSolved(e: Entry) {
    OrFalse(e.attempted) && !OrFalse(e.solved)
  }

  /** The card's ring and icon: solved (green, check), attempted only (yellow, clock), or none. */
  datatype Status = NotStarted | InProgress | Finished

  function StatusOf(e: Entry): (s: Status)
    ensures s == Finished <==> OrFalse(e.solved)
    ensures s == InProgress <==> OrFalse(e.attempted) && !OrFalse(e.solved)
  {
    if OrFalse(e.solved) then Finished else if OrFalse(e.attempted) then InProgress else NotStarted
  }

  /** The two buttons are never offered together; a solved problem offers neither, an unlisted one "Mark Attempted". */
  lemma ButtonsExclusive(m: ProgressMap, id: Id)
    ensures !(OffersMarkAttempted(Lookup(m, id)) && OffersMarkSolved(Lookup(m, id)))
    ensures OrFalse(Lookup(m, id).attempted) && OrFalse(Lookup(m, id).solved) ==>
      !OffersMarkAttempted(Lookup(m, id)) && !OffersMarkSolved(Lookup(m, id))
    ensures id !in m ==> OffersMarkAttempted(Lookup(m, id)) && StatusOf(Lookup(m, id)) == NotStarted
  {
  }

  /**
   * The buttons lead none -> attempted -> solved: "Mark Attempted" on an
   * unsolved problem leaves just "Mark Solved", "Mark Solved" leaves no
   * button, and no other problem's card changes.
   */
  lemma ButtonProgression(m: ProgressMap, id: Id, other: Id)
    requires other != id
    ensures !OrFalse(Lookup(m, id).solved) ==>
      var e := Lookup(AttemptedLocally(m, id), id);
      !OffersMarkAttempted(e) && OffersMarkSolved(e) && StatusOf(e) == InProgress
    ensures var e := Lookup(SolvedLocally(m, id), id);
      !OffersMarkAttempted(e) && !OffersMarkSolved(e) && StatusOf(e) == Finished
    ensures Lookup(AttemptedLocally(m, id), other) == Lookup(m, other)
    ensures Lookup(SolvedLocally(m, id), other) == Lookup(m, other)
  {
  }

  /** The list component's state. */
  class ProblemList {
    var userProgress: ProgressMap

    constructor ()
      ensures userProgress == map[]
    {
      userProgress := map[];
    }

    /**
     * `fetchUserProgress`: nothing happens without a user or without
     * problems; otherwise the map is rebuilt from the read, an error reply
     * (`data` null) giving the empty map. The read is not guarded, so a
     * rejected one ends the call before the map is set.
     */
    method FetchUserProgress(user: Option<Id>, problems: seq<Problem>, table: seq<CodingProgressRow>, read: Outcome)
      modifies this
      ensures user.None? || problems == [] || read == Threw ==> userProgress == old(userProgress)
      ensures user.Some? && problems != [] && read == Refused ==> userProgress == map[]
      ensures user.Some? && problems != [] && read == Answered ==>
        forall k :: (k in userProgress <==> LastFor(ProgressQuery(table, user.value, problems), k).Some?)
          && (k in userProgress ==> Some(userProgress[k]) == LastFor(ProgressQuery(table, user.value, problems), k))
    {
      if user.None? || problems == [] || read == Threw {
        return;
      }
      var data := if read == Answered then Some(ProgressQuery(table, user.value, problems)) else None;
      userProgress := BuildProgressMap(data);
    }

    /**
     * `markAsAttempted` (lines 54-76): on a write without error, the local
     * update and `onProgressUpdate()` (`notified`, line 73); otherwise nothing.
     */
    method MarkAsAttempted(user: Option<Id>, problemId: Id, writeOk: bool) returns (notified: bool)
      modifies this
      ensures notified <==> user.Some? && writeOk
      ensures userProgress == if notified then AttemptedLocally(old(userProgress), problemId) else old(userProgress)
    {
      notified := user.Some? && writeOk;
      if notified {
        userProgress := AttemptedLocally(userProgress, problemId);
      }
    }

    /**
     * `markAsSolved` (lines 78-102): on a write without error, the local
     * update and `onProgressUpdate()` (`notified`, line 99); otherwise nothing.
     */
    method MarkAsSolved(user: Option<Id>, problemId: Id, writeOk: bool) returns (notified: bool)
      modifies this
      ensures notified <==> user.Some? && writeOk
      ensures userProgress == if notified then SolvedLocally(old(userProgress), problemId) else old(userProgress)
    {
      notified := user.Some? && writeOk;
      if notified {
        userProgress := SolvedLocally(userProgress, problemId);
      }
    }
  }
}
