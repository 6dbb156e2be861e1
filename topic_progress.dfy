/**
 * Topic-progress aggregation (src/hooks/useTopicProgress.tsx).
 *
 * For one topic and one user: the ids of the topic's videos, MCQs and coding
 * problems, the user's completion rows restricted to those ids, three rounded
 * per-category percentages and the rounded mean of the non-empty ones.
 * The data service is a value `Db` of tables; which reads fail is a value
 * `Faults`, so that the model is a function of everything the hook sees.
 */
module TopicProgress {
  import opened Wrappers
  import opened Schema
  import opened Replies

  /** The hook's result record. */
  datatype Progress = Progress(videoProgress: nat, mcqProgress: nat, codingProgress: nat, overallProgress: nat)

  /** The initial value, the short-circuit value and the error value. */
  const Zero := Progress(0, 0, 0, 0)

  // ---------------------------------------------------------------------------
  // Arithmetic (lines 85-99)
  // ---------------------------------------------------------------------------

  /** `Math.round(n / d)` on non-negative operands: the nearest integer, halves up. */
  function RoundHalfUp(n: nat, d: nat): (r: nat)
    requires d > 0
    ensures 2 * d * r <= 2 * n + d < 2 * d * (r + 1)
  {
    var q := (2 * n + d) / (2 * d);
    assert 2 * n + d == 2 * d * q + (2 * n + d) % (2 * d);
    q
  }

  /** A category percentage: `total > 0 ? Math.round(done / total * 100) : 0`. */
  function Percent(done: nat, total: nat): (r: nat)
    ensures total == 0 ==> r == 0
    ensures total > 0 ==> 2 * total * r <= 200 * done + total < 2 * total * (r + 1)
  {
    if total > 0 then RoundHalfUp(100 * done, total) else 0
  }

  lemma MulLeq(a: nat, b: nat, c: nat)
    requires a <= b
    ensures c * a <= c * b
  {
  }

  /** From `k * x < k * y` with `k > 0` follows `x < y`. */
  lemma CancelLess(k: nat, x: nat, y: nat)
    requires k > 0 && k * x < k * y
    ensures x < y
  {
    if y <= x { MulLeq(y, x, k); }
  }

  /** No more done than there are items: at most 100. */
  lemma PercentAtMost100(done: nat, total: nat)
    requires done <= total
    ensures Percent(done, total) <= 100
  {
    if total > 0 {
      var r := Percent(done, total);
      MulLeq(done, total, 200);
      assert 2 * total * r < 2 * total * 101;
      CancelLess(2 * total, r, 101);
    }
  }

  /** Everything done: exactly 100. */
  lemma PercentOfAll(total: nat)
    requires total > 0
    ensures Percent(total, total) == 100
  {
    var r := Percent(total, total);
    assert 2 * total * r < 2 * total * 101;
    CancelLess(2 * total, r, 101);
    assert 2 * total * 99 < 2 * total * (r + 1);
    CancelLess(2 * total, 99, r + 1);
  }

  /** Nothing done: 0. */
  lemma PercentOfNone(total: nat)
    ensures Percent(0, total) == 0
  {
    if total > 0 {
      var r := Percent(0, total);
      assert 2 * total * r < 2 * total * 1;
      CancelLess(2 * total, r, 1);
    }
  }

  /** More done never shows less. */
  lemma PercentMonotone(d1: nat, d2: nat, total: nat)
    requires d1 <= d2
    ensures Percent(d1, total) <= Percent(d2, total)
  {
    if total > 0 {
      var r1, r2 := Percent(d1, total), Percent(d2, total);
      MulLeq(d1, d2, 200);
      assert 2 * total * r1 < 2 * total * (r2 + 1);
      CancelLess(2 * total, r1, r2 + 1);
    }
  }

  /**
   * With at most 100 items, one item more done always shows more, so removing
   * a completion always lowers the percentage; with more items it may not.
   */
  lemma PercentStrictlyMonotone(d1: nat, d2: nat, total: nat)
    requires d1 < d2 && 0 < total <= 100
    ensures Percent(d1, total) < Percent(d2, total)
  {
    var r1, r2 := Percent(d1, total), Percent(d2, total);
    MulLeq(d1 + 1, d2, 200);
    assert 2 * total * r1 < 2 * total * (r2 + 1);
    assert 2 * total * r1 < 2 * total * r2;
    CancelLess(2 * total, r1, r2);
  }

  /** With 101 to 200 items one more done can show the same percentage. */
  lemma PercentNotStrictAbove100()
    ensures Percent(1, 150) == Percent(2, 150) == 1
  {
  }

  /** `totalWeight`: how many categories have items. */
  function Weight(totalVideos: nat, totalMcqs: nat, totalProblems: nat): nat {
    (if totalVideos > 0 then 1 else 0) + (if totalMcqs > 0 then 1 else 0) + (if totalProblems > 0 then 1 else 0)
  }

  /** The sum of the percentages of the non-empty categories. */
  function NonEmptySum(totalVideos: nat, totalMcqs: nat, totalProblems: nat,
                       videoPct: nat, mcqPct: nat, codingPct: nat): nat
  {
    (if totalVideos > 0 then videoPct else 0) + (if totalMcqs > 0 then mcqPct else 0)
      + (if totalProblems > 0 then codingPct else 0)
  }

  /** `overallProgress`: the rounded mean of the already rounded non-empty percentages, 0 if none. */
  function Overall(totalVideos: nat, totalMcqs: nat, totalProblems: nat,
                   videoPct: nat, mcqPct: nat, codingPct: nat): (r: nat)
  {
    var w := Weight(totalVideos, totalMcqs, totalProblems);
    if w > 0 then RoundHalfUp(NonEmptySum(totalVideos, totalMcqs, totalProblems, videoPct, mcqPct, codingPct), w)
    else 0
  }

  /** The percentages of the categories that have items, in the order video, MCQ, coding. */
  function NonEmptyPercents(totalVideos: nat, totalMcqs: nat, totalProblems: nat,
                            videoPct: nat, mcqPct: nat, codingPct: nat): seq<nat>
  {
    (if totalVideos > 0 then [videoPct] else []) + (if totalMcqs > 0 then [mcqPct] else [])
      + (if totalProblems > 0 then [codingPct] else [])
  }

  function Sum(s: seq<nat>): nat {
    if s == [] then 0 else s[0] + Sum(s[1..])
  }

  /** The reference definition: the rounded mean of a list of integers, 0 for no list. */
  function RoundedMean(s: seq<nat>): nat {
    if s == [] then 0 else RoundHalfUp(Sum(s), |s|)
  }

  /** Overall is the rounded mean over the non-empty categories only. */
  lemma OverallIsMeanOfNonEmpty(totalVideos: nat, totalMcqs: nat, totalProblems: nat,
                                videoPct: nat, mcqPct: nat, codingPct: nat)
    ensures Overall(totalVideos, totalMcqs, totalProblems, videoPct, mcqPct, codingPct)
         == RoundedMean(NonEmptyPercents(totalVideos, totalMcqs, totalProblems, videoPct, mcqPct, codingPct))
  {
    var s := NonEmptyPercents(totalVideos, totalMcqs, totalProblems, videoPct, mcqPct, codingPct);
    assert |s| == Weight(totalVideos, totalMcqs, totalProblems);
    assert Sum(s) == NonEmptySum(totalVideos, totalMcqs, totalProblems, videoPct, mcqPct, codingPct) by {
      var a := if totalVideos > 0 then [videoPct] else [];
      var b := if totalMcqs > 0 then [mcqPct] else [];
      var c := if totalProblems > 0 then [codingPct] else [];
      assert s == a + b + c;
      SumAppend(a + b, c);
      SumAppend(a, b);
    }
  }

  lemma {:induction false} SumAppend(a: seq<nat>, b: seq<nat>)
    ensures Sum(a + b) == Sum(a) + Sum(b)
  {
    if a != [] {
      assert (a + b)[1..] == a[1..] + b;
      SumAppend(a[1..], b);
    } else {
      assert a + b == b;
    }
  }

  /**
   * An empty category neither raises nor lowers overall: overall lies between
   * the smallest and the largest percentage of the non-empty categories.
   */
  lemma OverallBetween(totalVideos: nat, totalMcqs: nat, totalProblems: nat,
                       videoPct: nat, mcqPct: nat, codingPct: nat, lo: nat, hi: nat)
    requires Weight(totalVideos, totalMcqs, totalProblems) > 0
    requires totalVideos > 0 ==> lo <= videoPct <= hi
    requires totalMcqs > 0 ==> lo <= mcqPct <= hi
    requires totalProblems > 0 ==> lo <= codingPct <= hi
    ensures lo <= Overall(totalVideos, totalMcqs, totalProblems, videoPct, mcqPct, codingPct) <= hi
  {
    var w := Weight(totalVideos, totalMcqs, totalProblems);
    WeightTimes(totalVideos, totalMcqs, totalProblems, lo);
    WeightTimes(totalVideos, totalMcqs, totalProblems, hi);
    MeanBetween(NonEmptySum(totalVideos, totalMcqs, totalProblems, videoPct, mcqPct, codingPct), w, lo, hi);
  }

  /** `Weight * x` as a sum of one `x` per non-empty category. */
  lemma WeightTimes(totalVideos: nat, totalMcqs: nat, totalProblems: nat, x: nat)
    ensures Weight(totalVideos, totalMcqs, totalProblems) * x ==
      (if totalVideos > 0 then x else 0) + (if totalMcqs > 0 then x else 0) + (if totalProblems > 0 then x else 0)
  {
    var a, b, c := if totalVideos > 0 then 1 else 0, if totalMcqs > 0 then 1 else 0, if totalProblems > 0 then 1 else 0;
    assert (a + b + c) * x == a * x + b * x + c * x;
  }

  lemma MulSucc(k: nat, x: nat)
    ensures k * (x + 1) == k * x + k
  {
  }

  lemma MulAssoc2(w: nat, x: nat)
    ensures 2 * w * x == 2 * (w * x)
  {
  }

  /** A rounded mean lies between bounds that the mean itself respects. */
  lemma MeanBetween(s: nat, w: nat, lo: nat, hi: nat)
    requires w > 0 && w * lo <= s <= w * hi
    ensures lo <= RoundHalfUp(s, w) <= hi
  {
    var r := RoundHalfUp(s, w);
    var k := 2 * w;
    MulSucc(k, hi);
    MulAssoc2(w, hi);
    assert k * r < k * (hi + 1);
    CancelLess(k, r, hi + 1);
    MulSucc(k, r);
    MulAssoc2(w, lo);
    assert k * lo < k * (r + 1);
    CancelLess(k, lo, r + 1);
  }

  /** The pure part of the hook (lines 81-99), from totals and completion counts. */
  function Compute(totalVideos: nat, totalMcqs: nat, totalProblems: nat,
                   doneVideos: nat, doneMcqs: nat, doneProblems: nat): Progress
  {
    var videoPct := Percent(doneVideos, totalVideos);
    var mcqPct := Percent(doneMcqs, totalMcqs);
    var codingPct := Percent(doneProblems, totalProblems);
    Progress(videoPct, mcqPct, codingPct,
             Overall(totalVideos, totalMcqs, totalProblems, videoPct, mcqPct, codingPct))
  }

  /** The worked example: 4 videos (2 done), no MCQs, 4 problems (1 solved). */
  lemma ComputeExample()
    ensures Compute(4, 0, 4, 2, 0, 1) == Progress(50, 0, 25, 38)
  {
  }

  /** Done counts within the totals give results within [0, 100]. */
  lemma ComputeWithin100(totalVideos: nat, totalMcqs: nat, totalProblems: nat,
                         doneVideos: nat, doneMcqs: nat, doneProblems: nat)
    requires doneVideos <= totalVideos && doneMcqs <= totalMcqs && doneProblems <= totalProblems
    ensures var p := Compute(totalVideos, totalMcqs, totalProblems, doneVideos, doneMcqs, doneProblems);
      p.videoProgress <= 100 && p.mcqProgress <= 100 && p.codingProgress <= 100 && p.overallProgress <= 100
  {
    PercentAtMost100(doneVideos, totalVideos);
    PercentAtMost100(doneMcqs, totalMcqs);
    PercentAtMost100(doneProblems, totalProblems);
    if Weight(totalVideos, totalMcqs, totalProblems) > 0 {
      OverallBetween(totalVideos, totalMcqs, totalProblems, Percent(doneVideos, totalVideos),
                     Percent(doneMcqs, totalMcqs), Percent(doneProblems, totalProblems), 0, 100);
    }
  }

  // ---------------------------------------------------------------------------
  // Queries (lines 34-42 and 56-83)
  // ---------------------------------------------------------------------------

  /** A content table (`video_tutorials`, `mcqs`, `coding_problems`) seen through its `id` and `topic`. */
  datatype ContentRow = ContentRow(id: Id, topic: Topic)

  /** The tables the hook reads. */
  datatype Db = Db(
    videos: seq<ContentRow>,
    mcqs: seq<ContentRow>,
    problems: seq<ContentRow>,
    videoProgress: seq<VideoProgressRow>,
    mcqAttempts: seq<McqAttemptRow>,
    codingProgress: seq<CodingProgressRow>)

  /**
   * `select <column> from <rows> where <keep>`: the non-null column values of
   * the kept rows, in row order.
   */
  function Select<R>(rows: seq<R>, keep: R -> bool, column: R -> Option<Id>): (out: seq<Id>)
    ensures |out| <= |rows|
    ensures forall v :: v in out <==> exists i :: 0 <= i < |rows| && keep(rows[i]) && column(rows[i]) == Some(v)
  {
    if rows == [] then []
    else
      var rest := Select(rows[1..], keep, column);
      assert forall v :: v in rest <==> exists i :: 1 <= i < |rows| && keep(rows[i]) && column(rows[i]) == Some(v) by {
        forall v ensures v in rest ==> exists i :: 1 <= i < |rows| && keep(rows[i]) && column(rows[i]) == Some(v) {
          if v in rest {
            var i :| 0 <= i < |rows[1..]| && keep(rows[1..][i]) && column(rows[1..][i]) == Some(v);
            assert rows[i + 1] == rows[1..][i];
          }
        }
        forall v ensures (exists i :: 1 <= i < |rows| && keep(rows[i]) && column(rows[i]) == Some(v)) ==> v in rest {
          if exists i :: 1 <= i < |rows| && keep(rows[i]) && column(rows[i]) == Some(v) {
            var i :| 1 <= i < |rows| && keep(rows[i]) && column(rows[i]) == Some(v);
            assert rows[1..][i - 1] == rows[i];
          }
        }
      }
      if keep(rows[0]) && column(rows[0]).Some? then [column(rows[0]).value] + rest else rest
  }

  /** `select id from <content table> where topic = topic`. */
  function TopicIds(items: seq<ContentRow>, topic: string): (ids: seq<Id>)
    ensures |ids| <= |items|
    ensures forall v :: v in ids <==> exists i :: 0 <= i < |items| && items[i].id == v && TopicName(items[i].topic) == topic
  {
    Select(items, (r: ContentRow) => TopicName(r.topic) == topic, (r: ContentRow) => Some(r.id))
  }

  /** A row of `user_video_progress` that the completed-video read returns. */
  predicate CountsVideo(r: VideoProgressRow, user: Id, ids: seq<Id>) {
    r.userId == Some(user) && r.completed == Some(true) && r.videoId.Some? && r.videoId.value in ids
  }

  /** A row of `user_mcq_attempts` that the attempted-MCQ read returns. */
  predicate CountsMcq(r: McqAttemptRow, user: Id, ids: seq<Id>) {
    r.userId == Some(user) && r.mcqId.Some? && r.mcqId.value in ids
  }

  /** A row of `user_coding_progress` that the solved-problem read returns. */
  predicate CountsProblem(r: CodingProgressRow, user: Id, ids: seq<Id>) {
    r.userId == Some(user) && r.solved == Some(true) && r.problemId.Some? && r.problemId.value in ids
  }

  /** `select video_id from user_video_progress where user_id = user and completed = true and video_id in ids`. */
  function CompletedVideoIds(rows: seq<VideoProgressRow>, user: Id, ids: seq<Id>): (out: seq<Id>)
    ensures |out| <= |rows|
    ensures forall v :: v in out <==> exists i :: 0 <= i < |rows| && CountsVideo(rows[i], user, ids) && rows[i].videoId == Some(v)
  {
    Select(rows, (r: VideoProgressRow) => CountsVideo(r, user, ids), (r: VideoProgressRow) => r.videoId)
  }

  /** `select mcq_id from user_mcq_attempts where user_id = user and mcq_id in ids`: one entry per attempt. */
  function AttemptedMcqIds(rows: seq<McqAttemptRow>, user: Id, ids: seq<Id>): (out: seq<Id>)
    ensures |out| <= |rows|
    ensures forall v :: v in out <==> exists i :: 0 <= i < |rows| && CountsMcq(rows[i], user, ids) && rows[i].mcqId == Some(v)
  {
    Select(rows, (r: McqAttemptRow) => CountsMcq(r, user, ids), (r: McqAttemptRow) => r.mcqId)
  }

  /** `select problem_id from user_coding_progress where user_id = user and solved = true and problem_id in ids`. */
  function SolvedProblemIds(rows: seq<CodingProgressRow>, user: Id, ids: seq<Id>): (out: seq<Id>)
    ensures |out| <= |rows|
    ensures forall v :: v in out <==> exists i :: 0 <= i < |rows| && CountsProblem(rows[i], user, ids) && rows[i].problemId == Some(v)
  {
    Select(rows, (r: CodingProgressRow) => CountsProblem(r, user, ids), (r: CodingProgressRow) => r.problemId)
  }

  function ToSet(s: seq<Id>): set<Id> {
    set v | v in s
  }

  // ---------------------------------------------------------------------------
  // The fetch (lines 29-119)
  // ---------------------------------------------------------------------------

  // A read that is refused leaves `data` null, so `data?.length || 0` is 0
  // and `data?.map(...) || []` is empty; one that throws reaches the `catch`
  // at line 108, which sets the zero record.

  /** The outcome of each of the six reads, in the order the source issues them. */
  datatype Faults = Faults(
    videos: Outcome, mcqs: Outcome, problems: Outcome,
    doneVideos: Outcome, doneMcqs: Outcome, doneProblems: Outcome)

  const NoFaults := Faults(Answered, Answered, Answered, Answered, Answered, Answered)

  /** The ids a read leaves to the code: all of them if delivered, none otherwise. */
  function Received(ids: seq<Id>, s: Outcome): seq<Id> {
    if s == Answered then ids else []
  }

  /** The id lists the code holds after the first round (lines 34-42, 63, 70, 78). */
  datatype Items = Items(videos: seq<Id>, mcqs: seq<Id>, problems: seq<Id>)

  function ItemsRead(db: Db, f: Faults, topic: string): Items {
    Items(Received(TopicIds(db.videos, topic), f.videos),
          Received(TopicIds(db.mcqs, topic), f.mcqs),
          Received(TopicIds(db.problems, topic), f.problems))
  }

  /** The completion ids the code holds after the second round (lines 56-79). */
  datatype Done = Done(videos: seq<Id>, mcqs: seq<Id>, problems: seq<Id>)

  function DoneRead(db: Db, f: Faults, user: Id, items: Items): Done {
    Done(Received(CompletedVideoIds(db.videoProgress, user, items.videos), f.doneVideos),
         Received(AttemptedMcqIds(db.mcqAttempts, user, items.mcqs), f.doneMcqs),
         Received(SolvedProblemIds(db.codingProgress, user, items.problems), f.doneProblems))
  }

  /** Lines 81-99: rows are counted, MCQ ids through a set. */
  function Tally(items: Items, done: Done): Progress {
    Compute(|items.videos|, |items.mcqs|, |items.problems|, |done.videos|, |ToSet(done.mcqs)|, |done.problems|)
  }

  predicate FirstRoundThrew(f: Faults) {
    f.videos == Threw || f.mcqs == Threw || f.problems == Threw
  }

  predicate SecondRoundThrew(f: Faults) {
    f.doneVideos == Threw || f.doneMcqs == Threw || f.doneProblems == Threw
  }

  /** `fetchProgress` for a present user and a non-empty topic string. */
  function FetchProgress(db: Db, f: Faults, user: Id, topic: string): Progress {
    if FirstRoundThrew(f) then Zero
    else
      var items := ItemsRead(db, f, topic);
      if items.videos == [] && items.mcqs == [] && items.problems == [] then Zero
      else if SecondRoundThrew(f) then Zero
      else Tally(items, DoneRead(db, f, user, items))
  }

  /** The hook's state: the progress shown and whether it is still loading. */
  datatype HookState = HookState(progress: Progress, loading: bool)

  const Initial := HookState(Zero, true)

  /**
   * One run of the effect (lines 23-122) from state `prev`: without a user or
   * with an empty topic nothing is read and the shown progress is kept.
   */
  function Effect(prev: HookState, db: Db, f: Faults, user: Option<Id>, topic: string): (next: HookState)
    ensures !next.loading
  {
    if user.None? || topic == "" then HookState(prev.progress, false)
    else HookState(FetchProgress(db, f, user.value, topic), false)
  }

  // ---------------------------------------------------------------------------
  // Properties of the fetch
  // ---------------------------------------------------------------------------

  /** Without a user or with an empty topic nothing is read; from the initial state progress stays zero. */
  lemma NothingFetchedWithoutUserOrTopic(prev: HookState, db: Db, f: Faults, user: Option<Id>, topic: string)
    requires user.None? || topic == ""
    ensures Effect(prev, db, f, user, topic) == HookState(prev.progress, false)
    ensures Effect(Initial, db, f, user, topic) == HookState(Zero, false)
  {
  }

  /** A topic with no items at all gives the zero record, whatever the completion tables and their reads. */
  lemma EmptyTopicShortCircuit(db: Db, f: Faults, user: Id, topic: string)
    requires TopicIds(db.videos, topic) == [] && TopicIds(db.mcqs, topic) == [] && TopicIds(db.problems, topic) == []
    ensures FetchProgress(db, f, user, topic) == Zero
  {
  }

  /** A topic string outside `topic_type` gets an error reply or no items, so it gives the zero record. */
  lemma UnknownTopicIsZero(db: Db, f: Faults, user: Id, topic: string)
    requires ParseTopic(topic).None?
    ensures FetchProgress(db, f, user, topic) == Zero
  {
    forall items: seq<ContentRow> ensures TopicIds(items, topic) == [] {
      var ids := TopicIds(items, topic);
      if ids != [] {
        assert ids[0] in ids;
        var i :| 0 <= i < |items| && items[i].id == ids[0] && TopicName(items[i].topic) == topic;
        TopicRoundTrip(items[i].topic);
        assert false;
      }
    }
    EmptyTopicShortCircuit(db, f, user, topic);
  }

  /** A read that rejects, in either round, resets all four values to zero. */
  lemma AnyThrownReadGivesZero(db: Db, f: Faults, user: Id, topic: string)
    requires f.videos == Threw || f.mcqs == Threw || f.problems == Threw
          || f.doneVideos == Threw || f.doneMcqs == Threw || f.doneProblems == Threw
    ensures FetchProgress(db, f, user, topic) == Zero
  {
  }

  /** An error reply (null data) to a category's item read counts as no items: that category shows 0. */
  lemma FailedItemReadCountsZero(db: Db, f: Faults, user: Id, topic: string)
    ensures f.videos == Refused ==> FetchProgress(db, f, user, topic).videoProgress == 0
    ensures f.mcqs == Refused ==> FetchProgress(db, f, user, topic).mcqProgress == 0
    ensures f.problems == Refused ==> FetchProgress(db, f, user, topic).codingProgress == 0
  {
  }

  /** An error reply to a category's completion read counts as nothing done: that category shows 0. */
  lemma FailedCompletionReadCountsZero(db: Db, f: Faults, user: Id, topic: string)
    ensures f.doneVideos == Refused ==> FetchProgress(db, f, user, topic).videoProgress == 0
    ensures f.doneMcqs == Refused ==> FetchProgress(db, f, user, topic).mcqProgress == 0
    ensures f.doneProblems == Refused ==> FetchProgress(db, f, user, topic).codingProgress == 0
  {
    if !FirstRoundThrew(f) && !SecondRoundThrew(f) {
      var items := ItemsRead(db, f, topic);
      assert ToSet([]) == {};
      PercentOfNone(|items.videos|);
      PercentOfNone(|items.mcqs|);
      PercentOfNone(|items.problems|);
    }
  }

  ghost predicate Distinct(s: seq<Id>) {
    forall i, j :: 0 <= i < j < |s| ==> s[i] != s[j]
  }

  /** Content ids are primary keys. */
  ghost predicate KeysUnique(items: seq<ContentRow>) {
    forall i, j :: 0 <= i < j < |items| ==> items[i].id != items[j].id
  }

  /** At most one `user_video_progress` row per (user, video). */
  ghost predicate OneVideoRowPerPair(rows: seq<VideoProgressRow>) {
    forall i, j :: 0 <= i < j < |rows| && rows[i].userId.Some? && rows[i].videoId.Some? ==>
      rows[i].userId != rows[j].userId || rows[i].videoId != rows[j].videoId
  }

  /** At most one `user_coding_progress` row per (user, problem). */
  ghost predicate OneCodingRowPerPair(rows: seq<CodingProgressRow>) {
    forall i, j :: 0 <= i < j < |rows| && rows[i].userId.Some? && rows[i].problemId.Some? ==>
      rows[i].userId != rows[j].userId || rows[i].problemId != rows[j].problemId
  }

  /** Rows whose kept column values never repeat select distinct ids. */
  lemma {:induction false} SelectDistinct<R>(rows: seq<R>, keep: R -> bool, column: R -> Option<Id>)
    requires forall i, j :: 0 <= i < j < |rows| && keep(rows[i]) && keep(rows[j]) && column(rows[i]).Some? ==>
      column(rows[i]) != column(rows[j])
    ensures Distinct(Select(rows, keep, column))
  {
    if rows != [] {
      var tail := rows[1..];
      forall i, j | 0 <= i < j < |tail| && keep(tail[i]) && keep(tail[j]) && column(tail[i]).Some?
        ensures column(tail[i]) != column(tail[j])
      {
        assert tail[i] == rows[i + 1] && tail[j] == rows[j + 1];
      }
      SelectDistinct(tail, keep, column);
      var rest := Select(tail, keep, column);
      if keep(rows[0]) && column(rows[0]).Some? {
        var v := column(rows[0]).value;
        forall i | 0 <= i < |tail| && keep(tail[i]) ensures column(tail[i]) != Some(v) {
          assert tail[i] == rows[i + 1];
        }
        assert v !in rest;
        var out := [v] + rest;
        forall i, j | 0 <= i < j < |out| ensures out[i] != out[j] {
          if i == 0 { assert out[j] == rest[j - 1]; assert out[j] in rest; }
          else { assert out[i] == rest[i - 1] && out[j] == rest[j - 1]; }
        }
      }
    }
  }

  /** `new Set(s).size` never exceeds the length, and equals it for distinct `s`. */
  lemma {:induction false} CardOfSet(s: seq<Id>)
    ensures |ToSet(s)| <= |s|
    ensures Distinct(s) ==> |ToSet(s)| == |s|
  {
    if s != [] {
      CardOfSet(s[1..]);
      assert ToSet(s) == {s[0]} + ToSet(s[1..]);
      if Distinct(s) {
        assert Distinct(s[1..]) by {
          forall i, j | 0 <= i < j < |s[1..]| ensures s[1..][i] != s[1..][j] {
            assert s[1..][i] == s[i + 1] && s[1..][j] == s[j + 1];
          }
        }
        forall k | 0 <= k < |s[1..]| ensures s[1..][k] != s[0] {
          assert s[1..][k] == s[k + 1];
        }
        assert s[0] !in ToSet(s[1..]);
      }
    } else {
      assert ToSet(s) == {};
    }
  }

  lemma SubsetCard(a: set<Id>, b: set<Id>)
    requires a <= b
    ensures |a| <= |b|
  {
    assert b == a + (b - a);
  }

  /** Ids drawn from `ids` number at most `|ids|`: distinct ones as a list, any as a set. */
  lemma DrawnFrom(done: seq<Id>, ids: seq<Id>)
    requires forall v :: v in done ==> v in ids
    ensures |ToSet(done)| <= |ids|
    ensures Distinct(done) ==> |done| <= |ids|
  {
    CardOfSet(done);
    CardOfSet(ids);
    SubsetCard(ToSet(done), ToSet(ids));
  }

  /** Counted video completions lie within the number of videos. */
  lemma VideosWithinTotal(rows: seq<VideoProgressRow>, user: Id, ids: seq<Id>)
    requires OneVideoRowPerPair(rows)
    ensures |CompletedVideoIds(rows, user, ids)| <= |ids|
  {
    SelectDistinct(rows, (r: VideoProgressRow) => CountsVideo(r, user, ids), (r: VideoProgressRow) => r.videoId);
    DrawnFrom(CompletedVideoIds(rows, user, ids), ids);
  }

  /** Distinct attempted MCQs lie within the number of MCQs, however many attempts there are. */
  lemma McqsWithinTotal(rows: seq<McqAttemptRow>, user: Id, ids: seq<Id>)
    ensures |ToSet(AttemptedMcqIds(rows, user, ids))| <= |ids|
  {
    DrawnFrom(AttemptedMcqIds(rows, user, ids), ids);
  }

  /** Counted solved problems lie within the number of problems. */
  lemma ProblemsWithinTotal(rows: seq<CodingProgressRow>, user: Id, ids: seq<Id>)
    requires OneCodingRowPerPair(rows)
    ensures |SolvedProblemIds(rows, user, ids)| <= |ids|
  {
    SelectDistinct(rows, (r: CodingProgressRow) => CountsProblem(r, user, ids), (r: CodingProgressRow) => r.problemId);
    DrawnFrom(SolvedProblemIds(rows, user, ids), ids);
  }

  /** With at most one progress row per (user, item), all four results lie in [0, 100]. */
  lemma ResultsWithin100(db: Db, f: Faults, user: Id, topic: string)
    requires OneVideoRowPerPair(db.videoProgress) && OneCodingRowPerPair(db.codingProgress)
    ensures var p := FetchProgress(db, f, user, topic);
      p.videoProgress <= 100 && p.mcqProgress <= 100 && p.codingProgress <= 100 && p.overallProgress <= 100
  {
    var items := ItemsRead(db, f, topic);
    VideosWithinTotal(db.videoProgress, user, items.videos);
    McqsWithinTotal(db.mcqAttempts, user, items.mcqs);
    ProblemsWithinTotal(db.codingProgress, user, items.problems);
    var done := DoneRead(db, f, user, items);
    assert ToSet([]) == {};
    ComputeWithin100(|items.videos|, |items.mcqs|, |items.problems|, |done.videos|, |ToSet(done.mcqs)|, |done.problems|);
  }

  /** The user has a counting row for every item of the topic. */
  ghost predicate CompletedEverything(db: Db, user: Id, topic: string) {
    && (forall v :: v in TopicIds(db.videos, topic) ==>
          exists r :: r in db.videoProgress && r.userId == Some(user) && r.completed == Some(true) && r.videoId == Some(v))
    && (forall v :: v in TopicIds(db.mcqs, topic) ==>
          exists r :: r in db.mcqAttempts && r.userId == Some(user) && r.mcqId == Some(v))
    && (forall v :: v in TopicIds(db.problems, topic) ==>
          exists r :: r in db.codingProgress && r.userId == Some(user) && r.solved == Some(true) && r.problemId == Some(v))
  }

  /** A distinct list of ids that all appear in `done` is no longer than `done`'s set. */
  lemma Covered(ids: seq<Id>, done: seq<Id>)
    requires Distinct(ids)
    requires forall v :: v in ids ==> v in done
    ensures |ids| <= |ToSet(done)| <= |done|
  {
    CardOfSet(ids);
    CardOfSet(done);
    SubsetCard(ToSet(ids), ToSet(done));
  }

  /** Every video of the topic completed: as many completion rows counted as videos. */
  lemma AllVideosCounted(db: Db, user: Id, topic: string)
    requires KeysUnique(db.videos) && OneVideoRowPerPair(db.videoProgress)
    requires CompletedEverything(db, user, topic)
    ensures |CompletedVideoIds(db.videoProgress, user, TopicIds(db.videos, topic))| == |TopicIds(db.videos, topic)|
  {
    var ids := TopicIds(db.videos, topic);
    var done := CompletedVideoIds(db.videoProgress, user, ids);
    SelectDistinct(db.videos, (r: ContentRow) => TopicName(r.topic) == topic, (r: ContentRow) => Some(r.id));
    forall v | v in ids ensures v in done {
      var r :| r in db.videoProgress && r.userId == Some(user) && r.completed == Some(true) && r.videoId == Some(v);
      var i :| 0 <= i < |db.videoProgress| && db.videoProgress[i] == r;
      assert CountsVideo(db.videoProgress[i], user, ids);
    }
    Covered(ids, done);
    VideosWithinTotal(db.videoProgress, user, ids);
  }

  /** Every MCQ of the topic attempted: as many distinct attempted ids as MCQs. */
  lemma AllMcqsCounted(db: Db, user: Id, topic: string)
    requires KeysUnique(db.mcqs)
    requires CompletedEverything(db, user, topic)
    ensures |ToSet(AttemptedMcqIds(db.mcqAttempts, user, TopicIds(db.mcqs, topic)))| == |TopicIds(db.mcqs, topic)|
  {
    var ids := TopicIds(db.mcqs, topic);
    var done := AttemptedMcqIds(db.mcqAttempts, user, ids);
    SelectDistinct(db.mcqs, (r: ContentRow) => TopicName(r.topic) == topic, (r: ContentRow) => Some(r.id));
    forall v | v in ids ensures v in done {
      var r :| r in db.mcqAttempts && r.userId == Some(user) && r.mcqId == Some(v);
      var i :| 0 <= i < |db.mcqAttempts| && db.mcqAttempts[i] == r;
      assert CountsMcq(db.mcqAttempts[i], user, ids);
    }
    Covered(ids, done);
    DrawnFrom(done, ids);
  }

  /** Every problem of the topic solved: as many solved rows counted as problems. */
  lemma AllProblemsCounted(db: Db, user: Id, topic: string)
    requires KeysUnique(db.problems) && OneCodingRowPerPair(db.codingProgress)
    requires CompletedEverything(db, user, topic)
    ensures |SolvedProblemIds(db.codingProgress, user, TopicIds(db.problems, topic))| == |TopicIds(db.problems, topic)|
  {
    var ids := TopicIds(db.problems, topic);
    var done := SolvedProblemIds(db.codingProgress, user, ids);
    SelectDistinct(db.problems, (r: ContentRow) => TopicName(r.topic) == topic, (r: ContentRow) => Some(r.id));
    forall v | v in ids ensures v in done {
      var r :| r in db.codingProgress && r.userId == Some(user) && r.solved == Some(true) && r.problemId == Some(v);
      var i :| 0 <= i < |db.codingProgress| && db.codingProgress[i] == r;
      assert CountsProblem(db.codingProgress[i], user, ids);
    }
    Covered(ids, done);
    ProblemsWithinTotal(db.codingProgress, user, ids);
  }

  /** Completing every item of every non-empty category gives 100 everywhere that has items. */
  lemma CompletingEverythingGives100(db: Db, user: Id, topic: string)
    requires KeysUnique(db.videos) && KeysUnique(db.mcqs) && KeysUnique(db.problems)
    requires OneVideoRowPerPair(db.videoProgress) && OneCodingRowPerPair(db.codingProgress)
    requires CompletedEverything(db, user, topic)
    requires TopicIds(db.videos, topic) != [] || TopicIds(db.mcqs, topic) != [] || TopicIds(db.problems, topic) != []
    ensures var p := FetchProgress(db, NoFaults, user, topic);
      && p.overallProgress == 100
      && (TopicIds(db.videos, topic) != [] ==> p.videoProgress == 100)
      && (TopicIds(db.mcqs, topic) != [] ==> p.mcqProgress == 100)
      && (TopicIds(db.problems, topic) != [] ==> p.codingProgress == 100)
  {
    AllVideosCounted(db, user, topic);
    AllMcqsCounted(db, user, topic);
    AllProblemsCounted(db, user, topic);
    FetchAllAnswered(db, user, topic);
    ComputeAllDone(|TopicIds(db.videos, topic)|, |TopicIds(db.mcqs, topic)|, |TopicIds(db.problems, topic)|);
  }

  /** When every read is answered, the fetch tallies the topic's items against the user's rows. */
  lemma FetchAllAnswered(db: Db, user: Id, topic: string)
    ensures var ids := Items(TopicIds(db.videos, topic), TopicIds(db.mcqs, topic), TopicIds(db.problems, topic));
      FetchProgress(db, NoFaults, user, topic) ==
        if ids.videos == [] && ids.mcqs == [] && ids.problems == [] then Zero
        else Compute(|ids.videos|, |ids.mcqs|, |ids.problems|,
                     |CompletedVideoIds(db.videoProgress, user, ids.videos)|,
                     |ToSet(AttemptedMcqIds(db.mcqAttempts, user, ids.mcqs))|,
                     |SolvedProblemIds(db.codingProgress, user, ids.problems)|)
  {
  }

  /** Arithmetic of the full-completion case. */
  lemma ComputeAllDone(tv: nat, tm: nat, tp: nat)
    requires tv > 0 || tm > 0 || tp > 0
    ensures var p := Compute(tv, tm, tp, tv, tm, tp);
      && p.overallProgress == 100
      && (tv > 0 ==> p.videoProgress == 100)
      && (tm > 0 ==> p.mcqProgress == 100)
      && (tp > 0 ==> p.codingProgress == 100)
  {
    if tv > 0 { PercentOfAll(tv); }
    if tm > 0 { PercentOfAll(tm); }
    if tp > 0 { PercentOfAll(tp); }
    OverallBetween(tv, tm, tp, Percent(tv, tv), Percent(tm, tm), Percent(tp, tp), 100, 100);
  }

  /** Attempting an MCQ the user has already attempted changes nothing: attempts count once per MCQ. */
  lemma RepeatedAttemptCountsOnce(db: Db, f: Faults, user: Id, topic: string, a: McqAttemptRow)
    requires exists i :: 0 <= i < |db.mcqAttempts| && db.mcqAttempts[i].userId == a.userId && db.mcqAttempts[i].mcqId == a.mcqId
    ensures FetchProgress(db.(mcqAttempts := db.mcqAttempts + [a]), f, user, topic) == FetchProgress(db, f, user, topic)
  {
    var k :| 0 <= k < |db.mcqAttempts| && db.mcqAttempts[k].userId == a.userId && db.mcqAttempts[k].mcqId == a.mcqId;
    forall ids: seq<Id>
      ensures ToSet(AttemptedMcqIds(db.mcqAttempts + [a], user, ids)) == ToSet(AttemptedMcqIds(db.mcqAttempts, user, ids))
    {
      RepeatedAttemptSameIds(db.mcqAttempts, a, k, user, ids);
    }
  }

  lemma RepeatedAttemptSameIds(rows: seq<McqAttemptRow>, a: McqAttemptRow, k: nat, user: Id, ids: seq<Id>)
    requires k < |rows| && rows[k].userId == a.userId && rows[k].mcqId == a.mcqId
    ensures ToSet(AttemptedMcqIds(rows + [a], user, ids)) == ToSet(AttemptedMcqIds(rows, user, ids))
  {
    var rows' := rows + [a];
    forall v ensures v in AttemptedMcqIds(rows', user, ids) <==> v in AttemptedMcqIds(rows, user, ids) {
      if v in AttemptedMcqIds(rows', user, ids) {
        var i :| 0 <= i < |rows'| && CountsMcq(rows'[i], user, ids) && rows'[i].mcqId == Some(v);
        if i < |rows| { assert rows'[i] == rows[i]; } else { assert CountsMcq(rows[k], user, ids); }
      }
      if v in AttemptedMcqIds(rows, user, ids) {
        var i :| 0 <= i < |rows| && CountsMcq(rows[i], user, ids) && rows[i].mcqId == Some(v);
        assert rows'[i] == rows[i];
      }
    }
  }

  lemma {:induction false} SelectAppend<R>(a: seq<R>, b: seq<R>, keep: R -> bool, column: R -> Option<Id>)
    ensures Select(a + b, keep, column) == Select(a, keep, column) + Select(b, keep, column)
  {
    if a == [] {
      assert a + b == b;
    } else {
      assert (a + b)[1..] == a[1..] + b;
      SelectAppend(a[1..], b, keep, column);
    }
  }

  /**
   * A video row that does not count (another user, not completed, a video of
   * another topic) changes nothing: completions are restricted to this user,
   * to `completed = true` and to the topic's videos.
   */
  lemma NonCountingVideoRowIgnored(db: Db, f: Faults, user: Id, topic: string, r: VideoProgressRow)
    requires r.userId != Some(user) || r.completed != Some(true) || r.videoId.None?
          || r.videoId.value !in TopicIds(db.videos, topic)
    ensures FetchProgress(db.(videoProgress := db.videoProgress + [r]), f, user, topic) == FetchProgress(db, f, user, topic)
  {
    var items := ItemsRead(db, f, topic);
    var db' := db.(videoProgress := db.videoProgress + [r]);
    assert ItemsRead(db', f, topic) == items;
    SelectAppend(db.videoProgress, [r], (r: VideoProgressRow) => CountsVideo(r, user, items.videos), (r: VideoProgressRow) => r.videoId);
    assert [r][1..] == [];
    assert DoneRead(db', f, user, items) == DoneRead(db, f, user, items);
  }

  /** Likewise for a coding-progress row that is not a solved problem of this topic for this user. */
  lemma NonCountingProblemRowIgnored(db: Db, f: Faults, user: Id, topic: string, r: CodingProgressRow)
    requires r.userId != Some(user) || r.solved != Some(true) || r.problemId.None?
          || r.problemId.value !in TopicIds(db.problems, topic)
    ensures FetchProgress(db.(codingProgress := db.codingProgress + [r]), f, user, topic) == FetchProgress(db, f, user, topic)
  {
    var items := ItemsRead(db, f, topic);
    var db' := db.(codingProgress := db.codingProgress + [r]);
    assert ItemsRead(db', f, topic) == items;
    SelectAppend(db.codingProgress, [r], (r: CodingProgressRow) => CountsProblem(r, user, items.problems), (r: CodingProgressRow) => r.problemId);
    assert [r][1..] == [];
    assert DoneRead(db', f, user, items) == DoneRead(db, f, user, items);
  }
}
