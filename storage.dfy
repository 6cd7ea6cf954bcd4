/**
 * The in-memory store behind the exam server: a question bank and a video list that never
 * change after loading, and a map of generated tests keyed by test id. Generating a test
 * filters the bank, shuffles the pool and keeps a prefix of it; evaluating a stored test
 * grades every question against the submitted answers and summarises the outcome.
 *
 * The shuffle's randomness, the fresh test id and the clock are parameters: `perm` is the
 * order the shuffle produced, `freshId` the generated id, `createdAt`/`completedAt` the time.
 */
module Storage {
  import opened Wrappers
  import opened Text
  import opened Schema
  import opened Seqs
  import opened QuestionBank
  import opened Grading
  import opened Tallies
  import opened Evaluation

  datatype StorageError = NoMatchingQuestions | TestNotFound

  /** The criteria `generateTest` passes on: every subject of the configuration, always present. */
  function ConfigFilters(c: TestConfig): Filters
  {
    Filters(Some(c.subjects), c.topics, c.difficulty, c.questionTypes)
  }

  function Min(a: nat, b: nat): nat
  {
    if a < b then a else b
  }

  /** Videos whose subject and `subject` contain one another, compared lowercased. */
  function VideosMatchingSubject(videos: seq<Video>, subject: string): (r: seq<Video>)
    ensures forall i :: 0 <= i < |r| ==> r[i] in videos && ContainsEither(LowerStr(r[i].subject), LowerStr(subject))
    ensures forall i :: 0 <= i < |videos| ==> (videos[i] in r <==> ContainsEither(LowerStr(videos[i].subject), LowerStr(subject)))
    ensures IsSubsequence(r, videos)
  {
    Filter((v: Video) => ContainsEither(LowerStr(v.subject), LowerStr(subject)), videos)
  }

  /** Videos whose topic and `topic` contain one another, compared lowercased. */
  function VideosMatchingTopic(videos: seq<Video>, topic: string): (r: seq<Video>)
    ensures forall i :: 0 <= i < |r| ==> r[i] in videos && ContainsEither(LowerStr(r[i].topic), LowerStr(topic))
    ensures forall i :: 0 <= i < |videos| ==> (videos[i] in r <==> ContainsEither(LowerStr(videos[i].topic), LowerStr(topic)))
    ensures IsSubsequence(r, videos)
  {
    Filter((v: Video) => ContainsEither(LowerStr(v.topic), LowerStr(topic)), videos)
  }

  /** Every video is found by its own subject and by its own topic. */
  lemma OwnVideoIsFound(videos: seq<Video>, i: nat)
    requires i < |videos|
    ensures videos[i] in VideosMatchingSubject(videos, videos[i].subject)
    ensures videos[i] in VideosMatchingTopic(videos, videos[i].topic)
  {
    ContainsSelf(LowerStr(videos[i].subject));
    ContainsSelf(LowerStr(videos[i].topic));
  }

  // ---------------------------------------------------------------------------------------
  // The loops of `evaluateTest`, each proved against the function it computes

  /** Grade the questions in order, adding up possible and awarded marks as it goes. */
  method GradeQuestions(qs: seq<Question>, answerMap: map<string, UserAnswer>)
    returns (results: seq<QuestionResult>, totalMarks: int, marksObtained: int)
    ensures results == GradeAll(qs, answerMap)
    ensures totalMarks == TotalMarks(results) && marksObtained == MarksObtained(results)
  {
    results, totalMarks, marksObtained := [], 0, 0;
    for i := 0 to |qs|
      invariant results == GradeAll(qs[..i], answerMap)
      invariant totalMarks == TotalMarks(results) && marksObtained == MarksObtained(results)
    {
      var r := Grade(qs[i], answerMap);
      assert results + [r] == GradeAll(qs[..i + 1], answerMap) by {
        GradeAllSnoc(qs, answerMap, i);
      }
      assert TotalMarks(results + [r]) == totalMarks + r.question.marks
        && MarksObtained(results + [r]) == marksObtained + r.marksAwarded by {
        MarksAppend(results, r);
      }
      totalMarks := totalMarks + r.question.marks;
      marksObtained := marksObtained + r.marksAwarded;
      results := results + [r];
    }
    assert qs[..|qs|] == qs;
  }

  /** The `forEach` over topic performance: strong at 70% or more, else weak below 50%. */
  method ClassifyTopics(perf: seq<Tally>) returns (strong: seq<string>, weak: seq<string>)
    ensures strong == StrongTopics(perf) && weak == WeakTopics(perf)
  {
    strong, weak := [], [];
    for i := 0 to |perf|
      invariant strong == StrongTopics(perf[..i]) && weak == WeakTopics(perf[..i])
    {
      assert perf[..i + 1][..i] == perf[..i];
      var e := perf[i];
      if IsStrong(e) {
        strong := strong + [e.key];
      } else if IsBelowHalf(e) {
        weak := weak + [e.key];
      }
    }
    assert perf[..|perf|] == perf;
  }

  /** The difficulty loop: one of the three buckets is bumped per result. */
  method CountByDifficulty(results: seq<QuestionResult>) returns (b: DifficultyBreakdown)
    ensures b == CountDifficulty(results)
  {
    b := DifficultyBreakdown(Bucket(0, 0), Bucket(0, 0), Bucket(0, 0));
    for i := 0 to |results|
      invariant b == CountDifficulty(results[..i])
    {
      assert results[..i + 1][..i] == results[..i];
      var r := results[i];
      match r.question.difficulty
      case Easy => b := b.(easy := BumpBucket(b.easy, r.isCorrect));
      case Medium => b := b.(medium := BumpBucket(b.medium, r.isCorrect));
      case Hard => b := b.(hard := BumpBucket(b.hard, r.isCorrect));
    }
    assert results[..|results|] == results;
  }

  class MemStorage {
    var questions: seq<Question>
    var videos: seq<Video>
    var tests: map<string, Test>

    /** A store over the loaded bank and video list, with no tests yet. */
    constructor(questions: seq<Question>, videos: seq<Video>)
      ensures this.questions == questions && this.videos == videos && tests == map[]
    {
      this.questions := questions;
      this.videos := videos;
      tests := map[];
    }

    /** `getQuestionsByFilters`: the bank's questions that pass every present criterion, in bank order. */
    function GetQuestionsByFilters(f: Filters): (r: seq<Question>)
      reads this
      ensures forall i :: 0 <= i < |r| ==> r[i] in questions && Keep(r[i], f)
      ensures forall i :: 0 <= i < |questions| ==> (questions[i] in r <==> Keep(questions[i], f))
      ensures IsSubsequence(r, questions)
    {
      FilterBank(questions, f)
    }

    function GetVideosBySubject(subject: string): (r: seq<Video>)
      reads this
      ensures forall i :: 0 <= i < |videos| ==> (videos[i] in r <==> ContainsEither(LowerStr(videos[i].subject), LowerStr(subject)))
      ensures IsSubsequence(r, videos)
    {
      VideosMatchingSubject(videos, subject)
    }

    function GetVideosByTopic(topic: string): (r: seq<Video>)
      reads this
      ensures forall i :: 0 <= i < |videos| ==> (videos[i] in r <==> ContainsEither(LowerStr(videos[i].topic), LowerStr(topic)))
      ensures IsSubsequence(r, videos)
    {
      VideosMatchingTopic(videos, topic)
    }

    /**
     * `generateTest`: fails exactly when no question passes the configuration's criteria;
     * otherwise stores, under `freshId`, the first `min(numQuestions, |pool|)` questions of
     * the shuffled pool, and changes nothing else.
     */
    method GenerateTest(config: TestConfig, freshId: string, createdAt: string, perm: seq<nat>)
      returns (r: Result<Test, StorageError>)
      requires IsIndexPermutation(perm, |FilterBank(questions, ConfigFilters(config))|)
      modifies this
      ensures questions == old(questions) && videos == old(videos)
      ensures var pool := FilterBank(questions, ConfigFilters(config));
        && (r.Failure? <==> pool == [])
        && (r.Failure? ==> r.error == NoMatchingQuestions && tests == old(tests))
        && (r.Success? ==>
              && r.value == Test(freshId, config, Permute(pool, perm)[..Min(config.numQuestions, |pool|)], createdAt)
              && |r.value.questions| == Min(config.numQuestions, |pool|)
              && multiset(r.value.questions) <= multiset(pool)
              && (forall i :: 0 <= i < |r.value.questions| ==>
                    r.value.questions[i] in old(questions) && Keep(r.value.questions[i], ConfigFilters(config)))
              && tests == old(tests)[freshId := r.value])
    {
      var pool := GetQuestionsByFilters(ConfigFilters(config));
      if |pool| == 0 {
        return Failure(NoMatchingQuestions);
      }
      var shuffled := Permute(pool, perm);
      PermuteMultiset(pool, perm);
      var count := Min(config.numQuestions, |shuffled|);
      var selected := shuffled[..count];
      assert shuffled == selected + shuffled[count..];
      assert forall i :: 0 <= i < count ==> selected[i] == pool[perm[i]] && selected[i] in pool;
      var test := Test(freshId, config, selected, createdAt);
      tests := tests[freshId := test];
      return Success(test);
    }

    /**
     * `evaluateTest`: fails exactly when no test is stored under `testId`; otherwise returns
     * the evaluation of that test and leaves the store as it was.
     */
    method EvaluateTest(testId: string, answers: seq<UserAnswer>, completedAt: string)
      returns (r: Result<TestResult, StorageError>)
      ensures r.Failure? <==> testId !in tests
      ensures r.Failure? ==> r.error == TestNotFound
      ensures r.Success? ==> r.value == Evaluate(tests[testId], testId, answers, completedAt)
    {
      if testId !in tests {
        return Failure(TestNotFound);
      }
      var test := tests[testId];
      var answerMap := AnswerMap(answers);
      var results, totalMarks, marksObtained := GradeQuestions(test.questions, answerMap);
      var topicPerf := CountPerformance(results, ByTopic);
      var strong, weak := ClassifyTopics(topicPerf);
      var byDifficulty := CountByDifficulty(results);
      var subjectPerf := CountPerformance(results, BySubject);
      var result := TestResult(
        testId, completedAt, |test.questions|,
        totalMarks, marksObtained, ScorePercentage(marksObtained, totalMarks),
        Accuracy(results), TotalTime(answers), results,
        strong, weak, byDifficulty, SubjectScores(subjectPerf));
      return Success(result);
    }
  }
}
