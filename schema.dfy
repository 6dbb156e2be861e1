/**
 * The closed enumerations of the database schema and the row shapes of the
 * tables the core reads and writes (src/integrations/supabase/types.ts).
 * Strings are the wire values; nullable columns are `Option`s.
 */
module Schema {
  import opened Wrappers

  /** A row identifier (a uuid on the wire). */
  type Id = string

  /** A point in time; the source writes ISO strings, and only their order matters here. */
  type Timestamp = nat

  // ---------------------------------------------------------------------------
  // Enumerations
  // ---------------------------------------------------------------------------

  /** `topic_type`, in declaration order. */
  datatype Topic = Strings | Basics | BitManipulation | Sorting | Searching | Hashmaps

  /** `difficulty_level`, in declaration order. */
  datatype Difficulty = Beginner | Medium | High

  /** `platform_type`, in declaration order. */
  datatype Platform = Leetcode | Hackerrank | Codeforces | Codechef | Geeksforgeeks

  /** Every topic, in the order of the union type. */
  const AllTopics: seq<Topic> := [Strings, Basics, BitManipulation, Sorting, Searching, Hashmaps]
  const AllDifficulties: seq<Difficulty> := [Beginner, Medium, High]
  const AllPlatforms: seq<Platform> := [Leetcode, Hackerrank, Codeforces, Codechef, Geeksforgeeks]

  /** `Constants.public.Enums`: the wire values, in the order the constant lists them. */
  const TopicConstants: seq<string> :=
    ["strings", "basics", "bit_manipulation", "sorting", "searching", "hashmaps"]
  const DifficultyConstants: seq<string> := ["beginner", "medium", "high"]
  const PlatformConstants: seq<string> :=
    ["leetcode", "hackerrank", "codeforces", "codechef", "geeksforgeeks"]

  /** The wire value of a topic. */
  function TopicName(t: Topic): string {
    match t
    case Strings => "strings"
    case Basics => "basics"
    case BitManipulation => "bit_manipulation"
    case Sorting => "sorting"
    case Searching => "searching"
    case Hashmaps => "hashmaps"
  }

  function DifficultyName(d: Difficulty): string {
    match d
    case Beginner => "beginner"
    case Medium => "medium"
    case High => "high"
  }

  function PlatformName(p: Platform): string {
    match p
    case Leetcode => "leetcode"
    case Hackerrank => "hackerrank"
    case Codeforces => "codeforces"
    case Codechef => "codechef"
    case Geeksforgeeks => "geeksforgeeks"
  }

  /** Reads a wire value back as a topic; anything outside the enumeration is `None`. */
  function ParseTopic(s: string): (r: Option<Topic>)
    ensures r.Some? <==> s in TopicConstants
    ensures r.Some? ==> TopicName(r.value) == s
  {
    if s == "strings" then Some(Strings)
    else if s == "basics" then Some(Basics)
    else if s == "bit_manipulation" then Some(BitManipulation)
    else if s == "sorting" then Some(Sorting)
    else if s == "searching" then Some(Searching)
    else if s == "hashmaps" then Some(Hashmaps)
    else None
  }

  function ParseDifficulty(s: string): (r: Option<Difficulty>)
    ensures r.Some? <==> s in DifficultyConstants
    ensures r.Some? ==> DifficultyName(r.value) == s
  {
    if s == "beginner" then Some(Beginner)
    else if s == "medium" then Some(Medium)
    else if s == "high" then Some(High)
    else None
  }

  function ParsePlatform(s: string): (r: Option<Platform>)
    ensures r.Some? <==> s in PlatformConstants
    ensures r.Some? ==> PlatformName(r.value) == s
  {
    if s == "leetcode" then Some(Leetcode)
    else if s == "hackerrank" then Some(Hackerrank)
    else if s == "codeforces" then Some(Codeforces)
    else if s == "codechef" then Some(Codechef)
    else if s == "geeksforgeeks" then Some(Geeksforgeeks)
    else None
  }

  /** The union type and the constant agree: same values, same order, no repeats. */
  lemma TopicConstantsMatchEnum()
    ensures |TopicConstants| == |AllTopics| == 6
    ensures forall i :: 0 <= i < |AllTopics| ==> TopicConstants[i] == TopicName(AllTopics[i])
    ensures forall t: Topic :: t in AllTopics
    ensures forall i, j :: 0 <= i < j < |TopicConstants| ==> TopicConstants[i] != TopicConstants[j]
  {
    forall t: Topic ensures t in AllTopics {
      match t
      case Strings => assert AllTopics[0] == Strings;
      case Basics => assert AllTopics[1] == Basics;
      case BitManipulation => assert AllTopics[2] == BitManipulation;
      case Sorting => assert AllTopics[3] == Sorting;
      case Searching => assert AllTopics[4] == Searching;
      case Hashmaps => assert AllTopics[5] == Hashmaps;
    }
  }

  lemma DifficultyConstantsMatchEnum()
    ensures |DifficultyConstants| == |AllDifficulties| == 3
    ensures forall i :: 0 <= i < |AllDifficulties| ==> DifficultyConstants[i] == DifficultyName(AllDifficulties[i])
    ensures forall d: Difficulty :: d in AllDifficulties
    ensures forall i, j :: 0 <= i < j < |DifficultyConstants| ==> DifficultyConstants[i] != DifficultyConstants[j]
  {
    forall d: Difficulty ensures d in AllDifficulties {
      match d
      case Beginner => assert AllDifficulties[0] == Beginner;
      case Medium => assert AllDifficulties[1] == Medium;
      case High => assert AllDifficulties[2] == High;
    }
  }

  lemma PlatformConstantsMatchEnum()
    ensures |PlatformConstants| == |AllPlatforms| == 5
    ensures forall i :: 0 <= i < |AllPlatforms| ==> PlatformConstants[i] == PlatformName(AllPlatforms[i])
    ensures forall p: Platform :: p in AllPlatforms
    ensures forall i, j :: 0 <= i < j < |PlatformConstants| ==> PlatformConstants[i] != PlatformConstants[j]
  {
    forall p: Platform ensures p in AllPlatforms {
      match p
      case Leetcode => assert AllPlatforms[0] == Leetcode;
      case Hackerrank => assert AllPlatforms[1] == Hackerrank;
      case Codeforces => assert AllPlatforms[2] == Codeforces;
      case Codechef => assert AllPlatforms[3] == Codechef;
      case Geeksforgeeks => assert AllPlatforms[4] == Geeksforgeeks;
    }
  }

  /** Names and parsers are inverse on the enumeration. */
  lemma TopicRoundTrip(t: Topic)
    ensures ParseTopic(TopicName(t)) == Some(t)
  {
  }

  lemma DifficultyRoundTrip(d: Difficulty)
    ensures ParseDifficulty(DifficultyName(d)) == Some(d)
  {
  }

  lemma PlatformRoundTrip(p: Platform)
    ensures ParsePlatform(PlatformName(p)) == Some(p)
  {
  }

  // ---------------------------------------------------------------------------
  // Row shapes (the `Row` types of the tables the core touches)
  // ---------------------------------------------------------------------------

  /** `user_coding_progress.Row`: both flags and both timestamps are nullable. */
  datatype CodingProgressRow = CodingProgressRow(
    attempted: Option<bool>,
    attemptedAt: Option<Timestamp>,
    id: Id,
    problemId: Option<Id>,
    solved: Option<bool>,
    solvedAt: Option<Timestamp>,
    userId: Option<Id>)

  /** `user_mcq_attempts.Row`: `is_correct` is the one non-null flag. */
  datatype McqAttemptRow = McqAttemptRow(
    attemptedAt: Option<Timestamp>,
    id: Id,
    isCorrect: bool,
    mcqId: Option<Id>,
    selectedAnswer: string,
    userId: Option<Id>)

  /** `user_video_progress.Row`: `completed` is nullable. */
  datatype VideoProgressRow = VideoProgressRow(
    completed: Option<bool>,
    completedAt: Option<Timestamp>,
    id: Id,
    userId: Option<Id>,
    videoId: Option<Id>)

  /** `mcqs.Row`. */
  datatype McqRow = McqRow(
    correctAnswer: string,
    createdAt: Option<Timestamp>,
    difficulty: Difficulty,
    explanation: Option<string>,
    id: Id,
    optionA: string,
    optionB: string,
    optionC: string,
    optionD: string,
    question: string,
    topic: Topic)

  /** `coding_problems.Row`. */
  datatype CodingProblemRow = CodingProblemRow(
    createdAt: Option<Timestamp>,
    description: Option<string>,
    difficulty: Difficulty,
    id: Id,
    platform: Platform,
    problemUrl: string,
    tags: Option<seq<string>>,
    title: string,
    topic: Topic)

  /** `video_tutorials.Row`: its platform is a free string, not `platform_type`. */
  datatype VideoTutorialRow = VideoTutorialRow(
    createdAt: Option<Timestamp>,
    description: Option<string>,
    difficulty: Difficulty,
    durationMinutes: Option<int>,
    id: Id,
    platform: string,
    title: string,
    topic: Topic,
    videoUrl: string)

  /** `user_notes.Row`: nothing nullable, and the topic is a free string. */
  datatype UserNoteRow = UserNoteRow(
    content: string,
    createdAt: Timestamp,
    id: Id,
    title: string,
    topic: string,
    updatedAt: Timestamp,
    userId: Id)

  /** `quiz_sessions.Insert`, less the floating-point `score`. */
  datatype QuizSessionInsert = QuizSessionInsert(
    completedAt: Option<Timestamp>,
    correctAnswers: Option<int>,
    difficulty: Difficulty,
    timeLimitMinutes: Option<int>,
    topic: Topic,
    totalQuestions: int,
    userId: Option<Id>)

  /** `user_mcq_attempts.Insert` as the quiz builds it. */
  datatype McqAttemptInsert = McqAttemptInsert(
    isCorrect: bool,
    mcqId: Option<Id>,
    selectedAnswer: string,
    userId: Option<Id>)

  /** The truthiness of a nullable flag, `flag || false`: only `true` is true. */
  function OrFalse(b: Option<bool>): bool {
    b == Some(true)
  }
}
