/**
 * The shared data model of the exam engine: question bank entries, test configurations,
 * tests, submitted answers and scored results, with the validity rules the schemas enforce.
 */
module Schema {
  import opened Wrappers

  /** The four question kinds; `Name` gives the wire spelling. */
  datatype QuestionType = MCQ | ShortAnswer | LongAnswer | FillInBlank
  {
    function Name(): string
    {
      match this
      case MCQ => "MCQ"
      case ShortAnswer => "short_answer"
      case LongAnswer => "long_answer"
      case FillInBlank => "fill_in_blank"
    }
  }

  datatype Difficulty = Easy | Medium | Hard
  {
    function Name(): string
    {
      match this
      case Easy => "easy"
      case Medium => "medium"
      case Hard => "hard"
    }
  }

  /** The question-type enum accepts exactly the four spellings and nothing else. */
  function ParseQuestionType(s: string): (r: Option<QuestionType>)
    ensures r.Some? <==> s in {"MCQ", "short_answer", "long_answer", "fill_in_blank"}
    ensures r.Some? ==> r.value.Name() == s
  {
    if s == "MCQ" then Some(MCQ)
    else if s == "short_answer" then Some(ShortAnswer)
    else if s == "long_answer" then Some(LongAnswer)
    else if s == "fill_in_blank" then Some(FillInBlank)
    else None
  }

  /** The difficulty enum accepts exactly the three spellings and nothing else. */
  function ParseDifficulty(s: string): (r: Option<Difficulty>)
    ensures r.Some? <==> s in {"easy", "medium", "hard"}
    ensures r.Some? ==> r.value.Name() == s
  {
    if s == "easy" then Some(Easy)
    else if s == "medium" then Some(Medium)
    else if s == "hard" then Some(Hard)
    else None
  }

  lemma {:induction false} EnumNamesRoundTrip(t: QuestionType, d: Difficulty)
    ensures ParseQuestionType(t.Name()) == Some(t)
    ensures ParseDifficulty(d.Name()) == Some(d)
  {
    match t
    case MCQ =>
    case ShortAnswer =>
    case LongAnswer =>
    case FillInBlank =>
  }

  datatype Question = Question(
    id: string,
    kind: QuestionType,
    subject: string,
    topic: string,
    difficulty: Difficulty,
    questionText: string,
    options: Option<seq<string>>,
    answer: string,
    solution: string,
    marks: int,
    tags: Option<seq<string>>)

  datatype TestConfig = TestConfig(
    subjects: seq<string>,
    topics: Option<seq<string>>,
    difficulty: Option<seq<Difficulty>>,
    numQuestions: nat,
    questionTypes: Option<seq<QuestionType>>)

  /** The configuration schema: at least one subject and between 1 and 100 questions. */
  predicate ValidConfig(c: TestConfig)
  {
    |c.subjects| >= 1 && 1 <= c.numQuestions <= 100
  }

  datatype Test = Test(testId: string, config: TestConfig, questions: seq<Question>, createdAt: string)

  datatype UserAnswer = UserAnswer(questionId: string, answer: string, timeSpent: int)

  datatype QuestionResult = QuestionResult(
    questionId: string,
    question: Question,
    userAnswer: string,
    correctAnswer: string,
    isCorrect: bool,
    marksAwarded: int,
    timeSpent: int)

  /** One difficulty bucket of a result. */
  datatype Bucket = Bucket(correct: nat, total: nat)

  datatype DifficultyBreakdown = DifficultyBreakdown(easy: Bucket, medium: Bucket, hard: Bucket)
  {
    function Get(d: Difficulty): Bucket
    {
      match d
      case Easy => easy
      case Medium => medium
      case Hard => hard
    }
  }

  datatype SubjectScore = SubjectScore(subject: string, correct: nat, total: nat, percentage: real)

  datatype TestResult = TestResult(
    testId: string,
    completedAt: string,
    totalQuestions: nat,
    totalMarks: int,
    marksObtained: int,
    scorePercentage: real,
    accuracy: real,
    totalTime: int,
    questionResults: seq<QuestionResult>,
    strongTopics: seq<string>,
    weakTopics: seq<string>,
    difficultyBreakdown: DifficultyBreakdown,
    subjectBreakdown: seq<SubjectScore>)

  datatype Video = Video(
    id: string,
    subject: string,
    topic: string,
    title: string,
    videoId: string,
    thumbnail: string,
    duration: string,
    playlistId: string)
}
