/**
 * What evaluating a stored test against submitted answers produces: one graded result per
 * test question in test order, marks totals, accuracy, strong and weak topics, the
 * three-bucket difficulty breakdown and the per-subject breakdown.
 */
module Evaluation {
  import opened Schema
  import opened Numeric
  import opened Grading
  import opened Tallies

  /** `new Map(answers.map(a => [a.question_id, a]))`: a later answer for an id replaces an earlier one. */
  function AnswerMap(answers: seq<UserAnswer>): map<string, UserAnswer>
    decreases |answers|
  {
    if answers == [] then map[]
    else
      var n := |answers| - 1;
      AnswerMap(answers[..n])[answers[n].questionId := answers[n]]
  }

  /** An id has an entry exactly when some submitted answer carries it. */
  lemma {:induction false} AnswerMapDomain(answers: seq<UserAnswer>, id: string)
    ensures id in AnswerMap(answers) <==> exists k :: 0 <= k < |answers| && answers[k].questionId == id
    ensures id in AnswerMap(answers) ==>
      exists k :: 0 <= k < |answers| && answers[k].questionId == id && AnswerMap(answers)[id] == answers[k]
    decreases |answers|
  {
    if answers != [] {
      var n := |answers| - 1;
      AnswerMapDomain(answers[..n], id);
      if id != answers[n].questionId && id in AnswerMap(answers) {
        var k :| 0 <= k < n && answers[..n][k].questionId == id && AnswerMap(answers[..n])[id] == answers[..n][k];
        assert answers[k].questionId == id && AnswerMap(answers)[id] == answers[k];
      }
      if exists k :: 0 <= k < |answers| && answers[k].questionId == id {
        var k :| 0 <= k < |answers| && answers[k].questionId == id;
        if k < n {
          assert answers[..n][k].questionId == id;
        }
      }
    }
  }

  /** The entry for an id is the last answer submitted for it. */
  lemma {:induction false} AnswerMapLastWins(answers: seq<UserAnswer>, j: nat)
    requires j < |answers|
    requires forall k :: j < k < |answers| ==> answers[k].questionId != answers[j].questionId
    ensures answers[j].questionId in AnswerMap(answers)
    ensures AnswerMap(answers)[answers[j].questionId] == answers[j]
    decreases |answers|
  {
    var n := |answers| - 1;
    if j < n {
      AnswerMapLastWins(answers[..n], j);
    }
  }

  /** Grade one question: a missing answer counts as "" with no time spent. */
  function Grade(q: Question, answers: map<string, UserAnswer>): QuestionResult
  {
    var text := if q.id in answers then answers[q.id].answer else "";
    var time := if q.id in answers then answers[q.id].timeSpent else 0;
    var ok := IsAnswerCorrect(q, text);
    QuestionResult(q.id, q, text, q.answer, ok, if ok then q.marks else 0, time)
  }

  function GradeAll(qs: seq<Question>, answers: map<string, UserAnswer>): (rs: seq<QuestionResult>)
    ensures |rs| == |qs| && forall i :: 0 <= i < |qs| ==> rs[i] == Grade(qs[i], answers)
    decreases |qs|
  {
    if qs == [] then [] else GradeAll(qs[..|qs| - 1], answers) + [Grade(qs[|qs| - 1], answers)]
  }

  /** Grading one more question appends its grade. */
  lemma GradeAllSnoc(qs: seq<Question>, answers: map<string, UserAnswer>, i: nat)
    requires i < |qs|
    ensures GradeAll(qs[..i + 1], answers) == GradeAll(qs[..i], answers) + [Grade(qs[i], answers)]
  {
    assert qs[..i + 1][..i] == qs[..i];
  }

  function TotalMarks(rs: seq<QuestionResult>): int
    decreases |rs|
  {
    if rs == [] then 0 else TotalMarks(rs[..|rs| - 1]) + rs[|rs| - 1].question.marks
  }

  function MarksObtained(rs: seq<QuestionResult>): int
    decreases |rs|
  {
    if rs == [] then 0 else MarksObtained(rs[..|rs| - 1]) + rs[|rs| - 1].marksAwarded
  }

  function TotalTime(answers: seq<UserAnswer>): int
    decreases |answers|
  {
    if answers == [] then 0 else TotalTime(answers[..|answers| - 1]) + answers[|answers| - 1].timeSpent
  }

  function ScorePercentage(obtained: int, total: int): real
  {
    if total > 0 then Percent(obtained, total) else 0.0
  }

  function Accuracy(rs: seq<QuestionResult>): real
  {
    if |rs| > 0 then Percent(CorrectCount(rs), |rs|) else 0.0
  }

  /** A topic entry at 70% accuracy or more. */
  predicate IsStrong(e: Tally)
  {
    e.total > 0 && Percent(e.correct, e.total) >= 70.0
  }

  /** A topic entry below 50% accuracy. */
  predicate IsBelowHalf(e: Tally)
  {
    e.total > 0 && Percent(e.correct, e.total) < 50.0
  }

  lemma MarksAppend(rs: seq<QuestionResult>, r: QuestionResult)
    ensures TotalMarks(rs + [r]) == TotalMarks(rs) + r.question.marks
    ensures MarksObtained(rs + [r]) == MarksObtained(rs) + r.marksAwarded
  {
    assert (rs + [r])[..|rs|] == rs;
  }

  /** Topics answered with at least 70% accuracy, in tally order. */
  function StrongTopics(t: seq<Tally>): seq<string>
    decreases |t|
  {
    if t == [] then []
    else StrongTopics(t[..|t| - 1]) + (if IsStrong(t[|t| - 1]) then [t[|t| - 1].key] else [])
  }

  /** Topics below 50% accuracy (the `else if` after the strong test), in tally order. */
  function WeakTopics(t: seq<Tally>): seq<string>
    decreases |t|
  {
    if t == [] then []
    else
      var e := t[|t| - 1];
      WeakTopics(t[..|t| - 1]) + (if !IsStrong(e) && IsBelowHalf(e) then [e.key] else [])
  }

  function BumpBucket(b: Bucket, ok: bool): Bucket
  {
    Bucket(b.correct + (if ok then 1 else 0), b.total + 1)
  }

  function CountDifficulty(rs: seq<QuestionResult>): DifficultyBreakdown
    decreases |rs|
  {
    if rs == [] then DifficultyBreakdown(Bucket(0, 0), Bucket(0, 0), Bucket(0, 0))
    else
      var b := CountDifficulty(rs[..|rs| - 1]);
      var r := rs[|rs| - 1];
      match r.question.difficulty
      case Easy => b.(easy := BumpBucket(b.easy, r.isCorrect))
      case Medium => b.(medium := BumpBucket(b.medium, r.isCorrect))
      case Hard => b.(hard := BumpBucket(b.hard, r.isCorrect))
  }

  function SubjectScores(t: seq<Tally>): (s: seq<SubjectScore>)
    requires WellCounted(t)
    ensures |s| == |t|
  {
    seq(|t|, i requires 0 <= i < |t| => SubjectScore(t[i].key, t[i].correct, t[i].total, Percent(t[i].correct, t[i].total)))
  }

  /** The result `evaluateTest` builds for a stored test; `testId` is the key it was looked up by. */
  function Evaluate(test: Test, testId: string, answers: seq<UserAnswer>, completedAt: string): TestResult
  {
    var rs := GradeAll(test.questions, AnswerMap(answers));
    var topics := TallyOf(rs, ByTopic);
    TestResult(
      testId, completedAt, |test.questions|,
      TotalMarks(rs), MarksObtained(rs), ScorePercentage(MarksObtained(rs), TotalMarks(rs)),
      Accuracy(rs), TotalTime(answers), rs,
      StrongTopics(topics), WeakTopics(topics),
      CountDifficulty(rs), SubjectScores(TallyOf(rs, BySubject)))
  }

  // ---------------------------------------------------------------------------------------
  // Properties of an evaluation

  /** One result per test question, in test order. */
  lemma {:induction false} EvaluateResults(test: Test, testId: string, answers: seq<UserAnswer>, completedAt: string)
    ensures var r := Evaluate(test, testId, answers, completedAt);
      && r.totalQuestions == |r.questionResults| == |test.questions|
      && forall i :: 0 <= i < |test.questions| ==> r.questionResults[i].question == test.questions[i]
  {
  }

  /** A question no submitted answer is for is graded as "" with no time spent. */
  lemma {:induction false} EvaluateUnanswered(test: Test, testId: string, answers: seq<UserAnswer>, completedAt: string, i: nat)
    requires i < |test.questions|
    requires forall k :: 0 <= k < |answers| ==> answers[k].questionId != test.questions[i].id
    ensures var qr := Evaluate(test, testId, answers, completedAt).questionResults[i];
      qr.userAnswer == "" && qr.timeSpent == 0
  {
    AnswerMapDomain(answers, test.questions[i].id);
  }

  /** The question graded from the last of several answers submitted for its id. */
  lemma {:induction false} EvaluateUsesLastAnswer(test: Test, testId: string, answers: seq<UserAnswer>, completedAt: string, i: nat, j: nat)
    requires i < |test.questions| && j < |answers|
    requires answers[j].questionId == test.questions[i].id
    requires forall k :: j < k < |answers| ==> answers[k].questionId != answers[j].questionId
    ensures var qr := Evaluate(test, testId, answers, completedAt).questionResults[i];
      qr.userAnswer == answers[j].answer && qr.timeSpent == answers[j].timeSpent
  {
    AnswerMapLastWins(answers, j);
  }

  lemma {:induction false} MarksBounds(rs: seq<QuestionResult>)
    requires forall i :: 0 <= i < |rs| ==> rs[i].question.marks >= 0
    requires forall i :: 0 <= i < |rs| ==> rs[i].marksAwarded == (if rs[i].isCorrect then rs[i].question.marks else 0)
    ensures 0 <= MarksObtained(rs) <= TotalMarks(rs)
    ensures (forall i :: 0 <= i < |rs| ==> rs[i].isCorrect) ==> MarksObtained(rs) == TotalMarks(rs)
    decreases |rs|
  {
    if rs != [] {
      MarksBounds(rs[..|rs| - 1]);
    }
  }

  lemma {:induction false} CorrectCountBounds(rs: seq<QuestionResult>)
    ensures CorrectCount(rs) <= |rs|
    ensures CorrectCount(rs) == |rs| <==> forall i :: 0 <= i < |rs| ==> rs[i].isCorrect
    decreases |rs|
  {
    if rs != [] {
      var n := |rs| - 1;
      CorrectCountBounds(rs[..n]);
      if CorrectCount(rs) == |rs| {
        forall i | 0 <= i < |rs|
          ensures rs[i].isCorrect
        {
          if i < n {
            assert rs[..n][i] == rs[i];
          }
        }
      }
    }
  }

  /** Accuracy is a percentage, 0 for no results, and 100 exactly when every result is correct. */
  lemma {:induction false} AccuracyRange(rs: seq<QuestionResult>)
    ensures 0.0 <= Accuracy(rs) <= 100.0
    ensures |rs| == 0 ==> Accuracy(rs) == 0.0
    ensures |rs| > 0 ==> (Accuracy(rs) == 100.0 <==> forall i :: 0 <= i < |rs| ==> rs[i].isCorrect)
  {
    CorrectCountBounds(rs);
    if |rs| > 0 {
      PercentRange(CorrectCount(rs), |rs|);
    }
  }

  /** The score is a percentage when 0 <= obtained <= total, and 0 when there are no marks. */
  lemma {:induction false} ScoreRange(obtained: int, total: int)
    requires 0 <= obtained <= total
    ensures 0.0 <= ScorePercentage(obtained, total) <= 100.0
    ensures total == 0 ==> ScorePercentage(obtained, total) == 0.0
    ensures total > 0 ==> (ScorePercentage(obtained, total) == 100.0 <==> obtained == total)
  {
    if total > 0 {
      PercentRange(obtained, total);
    }
  }

  /**
   * With non-negative marks: the marks obtained lie between 0 and the total, the score and the
   * accuracy are percentages, a test without marks scores 0, and accuracy is 100 exactly when
   * every question of a non-empty test is correct.
   */
  lemma {:induction false} EvaluateMarks(test: Test, testId: string, answers: seq<UserAnswer>, completedAt: string)
    requires forall i :: 0 <= i < |test.questions| ==> test.questions[i].marks >= 0
    ensures var r := Evaluate(test, testId, answers, completedAt);
      && 0 <= r.marksObtained <= r.totalMarks
      && 0.0 <= r.scorePercentage <= 100.0
      && (r.totalMarks == 0 ==> r.scorePercentage == 0.0)
      && 0.0 <= r.accuracy <= 100.0
      && (|test.questions| == 0 ==> r.accuracy == 0.0)
      && (|test.questions| > 0 ==> (r.accuracy == 100.0 <==> forall i :: 0 <= i < |test.questions| ==> r.questionResults[i].isCorrect))
  {
    var rs := GradeAll(test.questions, AnswerMap(answers));
    MarksBounds(rs);
    ScoreRange(MarksObtained(rs), TotalMarks(rs));
    AccuracyRange(rs);
  }

  lemma {:induction false} StrongMembers(t: seq<Tally>, k: string)
    ensures k in StrongTopics(t) <==> exists i :: 0 <= i < |t| && t[i].key == k && IsStrong(t[i])
    decreases |t|
  {
    if t != [] {
      var n := |t| - 1;
      StrongMembers(t[..n], k);
      if k in StrongTopics(t[..n]) {
        var i :| 0 <= i < n && t[..n][i].key == k && IsStrong(t[..n][i]);
        assert t[i] == t[..n][i];
      }
      if exists i :: 0 <= i < |t| && t[i].key == k && IsStrong(t[i]) {
        var i :| 0 <= i < |t| && t[i].key == k && IsStrong(t[i]);
        if i < n {
          assert t[..n][i] == t[i];
        }
      }
    }
  }

  lemma {:induction false} WeakMembers(t: seq<Tally>, k: string)
    ensures k in WeakTopics(t) <==> exists i :: 0 <= i < |t| && t[i].key == k && !IsStrong(t[i]) && IsBelowHalf(t[i])
    decreases |t|
  {
    if t != [] {
      var n := |t| - 1;
      WeakMembers(t[..n], k);
      if k in WeakTopics(t[..n]) {
        var i :| 0 <= i < n && t[..n][i].key == k && !IsStrong(t[..n][i]) && IsBelowHalf(t[..n][i]);
        assert t[i] == t[..n][i];
      }
      if exists i :: 0 <= i < |t| && t[i].key == k && !IsStrong(t[i]) && IsBelowHalf(t[i]) {
        var i :| 0 <= i < |t| && t[i].key == k && !IsStrong(t[i]) && IsBelowHalf(t[i]);
        if i < n {
          assert t[..n][i] == t[i];
        }
      }
    }
  }

  /** Keys of distinct entries are listed at most once. */
  lemma {:induction false} ClassifiedDistinct(t: seq<Tally>)
    requires DistinctKeys(t)
    ensures forall a, b :: 0 <= a < b < |StrongTopics(t)| ==> StrongTopics(t)[a] != StrongTopics(t)[b]
    ensures forall a, b :: 0 <= a < b < |WeakTopics(t)| ==> WeakTopics(t)[a] != WeakTopics(t)[b]
    decreases |t|
  {
    if t != [] {
      var n := |t| - 1;
      ClassifiedDistinct(t[..n]);
      var k := t[n].key;
      StrongMembers(t[..n], k);
      WeakMembers(t[..n], k);
      assert k !in StrongTopics(t[..n]) && k !in WeakTopics(t[..n]);
    }
  }

  /**
   * A topic is strong exactly when at least 70% of its questions are correct and weak exactly
   * when fewer than 50% are; the lists are disjoint, repeat no topic, and a topic between 50%
   * and 70% appears in neither.
   */
  lemma {:induction false} TopicClassification(test: Test, testId: string, answers: seq<UserAnswer>, completedAt: string)
    ensures var r := Evaluate(test, testId, answers, completedAt);
      var rs := r.questionResults;
      && (forall k :: k in r.strongTopics <==> CountKey(rs, ByTopic, k) > 0 && 10 * CountCorrectKey(rs, ByTopic, k) >= 7 * CountKey(rs, ByTopic, k))
      && (forall k :: k in r.weakTopics <==> CountKey(rs, ByTopic, k) > 0 && 2 * CountCorrectKey(rs, ByTopic, k) < CountKey(rs, ByTopic, k))
      && (forall k :: !(k in r.strongTopics && k in r.weakTopics))
      && (forall a, b :: 0 <= a < b < |r.strongTopics| ==> r.strongTopics[a] != r.strongTopics[b])
      && (forall a, b :: 0 <= a < b < |r.weakTopics| ==> r.weakTopics[a] != r.weakTopics[b])
  {
    var r := Evaluate(test, testId, answers, completedAt);
    var rs := r.questionResults;
    var t := TallyOf(rs, ByTopic);
    TallyCounts(rs, ByTopic);
    ClassifiedDistinct(t);
    forall k
      ensures k in r.strongTopics <==> CountKey(rs, ByTopic, k) > 0 && 10 * CountCorrectKey(rs, ByTopic, k) >= 7 * CountKey(rs, ByTopic, k)
      ensures k in r.weakTopics <==> CountKey(rs, ByTopic, k) > 0 && 2 * CountCorrectKey(rs, ByTopic, k) < CountKey(rs, ByTopic, k)
    {
      StrongMembers(t, k);
      WeakMembers(t, k);
      if CountKey(rs, ByTopic, k) > 0 {
        assert k in Keys(t);
        var i :| 0 <= i < |t| && Keys(t)[i] == k;
        PercentAtLeast(t[i].correct, t[i].total, 70);
        PercentAtLeast(t[i].correct, t[i].total, 50);
        forall j | 0 <= j < |t| && t[j].key == k
          ensures j == i
        {
        }
      } else {
        assert k !in Keys(t);
      }
    }
  }

  function BucketSum(b: DifficultyBreakdown): nat
  {
    b.easy.total + b.medium.total + b.hard.total
  }

  function BucketCorrect(b: DifficultyBreakdown): nat
  {
    b.easy.correct + b.medium.correct + b.hard.correct
  }

  function CountWithDifficulty(rs: seq<QuestionResult>, d: Difficulty): nat
    decreases |rs|
  {
    if rs == [] then 0
    else CountWithDifficulty(rs[..|rs| - 1], d) + (if rs[|rs| - 1].question.difficulty == d then 1 else 0)
  }

  /** Each bucket counts the questions of its difficulty; the buckets add up to the whole test. */
  lemma {:induction false} DifficultyBuckets(rs: seq<QuestionResult>)
    ensures BucketSum(CountDifficulty(rs)) == |rs|
    ensures BucketCorrect(CountDifficulty(rs)) == CorrectCount(rs)
    ensures forall d :: CountDifficulty(rs).Get(d).total == CountWithDifficulty(rs, d)
    ensures forall d :: CountDifficulty(rs).Get(d).correct <= CountDifficulty(rs).Get(d).total
    decreases |rs|
  {
    if rs != [] {
      DifficultyBuckets(rs[..|rs| - 1]);
    }
  }

  function SumScoreTotals(s: seq<SubjectScore>): nat
    decreases |s|
  {
    if s == [] then 0 else SumScoreTotals(s[..|s| - 1]) + s[|s| - 1].total
  }

  lemma {:induction false} ScoreTotalsOfTally(t: seq<Tally>)
    requires WellCounted(t)
    ensures SumScoreTotals(SubjectScores(t)) == SumTotals(t)
    decreases |t|
  {
    if t != [] {
      ScoreTotalsOfTally(t[..|t| - 1]);
      assert SubjectScores(t)[..|t| - 1] == SubjectScores(t[..|t| - 1]);
    }
  }

  /** Each subject entry carries its exact counts once, and the entries cover every result. */
  lemma {:induction false} SubjectScoresCount(rs: seq<QuestionResult>)
    ensures var sbs := SubjectScores(TallyOf(rs, BySubject));
      && SumScoreTotals(sbs) == |rs|
      && (forall i :: 0 <= i < |sbs| ==>
            && 0 < sbs[i].total && sbs[i].correct <= sbs[i].total
            && sbs[i].total == CountKey(rs, BySubject, sbs[i].subject)
            && sbs[i].correct == CountCorrectKey(rs, BySubject, sbs[i].subject)
            && sbs[i].percentage == Percent(sbs[i].correct, sbs[i].total))
      && (forall i, j :: 0 <= i < j < |sbs| ==> sbs[i].subject != sbs[j].subject)
  {
    var t := TallyOf(rs, BySubject);
    TallySums(rs, BySubject);
    TallyCounts(rs, BySubject);
    ScoreTotalsOfTally(t);
    var sbs := SubjectScores(t);
    assert forall i :: 0 <= i < |sbs| ==> sbs[i].subject == t[i].key && sbs[i].total == t[i].total && sbs[i].correct == t[i].correct;
  }

  /**
   * The difficulty buckets and the subject entries both partition the test's questions, with
   * correct at most total everywhere; each subject appears once with its exact counts.
   */
  lemma {:induction false} EvaluateBreakdowns(test: Test, testId: string, answers: seq<UserAnswer>, completedAt: string)
    ensures var r := Evaluate(test, testId, answers, completedAt);
      && BucketSum(r.difficultyBreakdown) == |test.questions|
      && BucketCorrect(r.difficultyBreakdown) == CorrectCount(r.questionResults)
      && (forall d :: r.difficultyBreakdown.Get(d).correct <= r.difficultyBreakdown.Get(d).total)
      && SumScoreTotals(r.subjectBreakdown) == |test.questions|
      && (forall i :: 0 <= i < |r.subjectBreakdown| ==>
            var sb := r.subjectBreakdown[i];
            && 0 < sb.total && sb.correct <= sb.total
            && sb.total == CountKey(r.questionResults, BySubject, sb.subject)
            && sb.correct == CountCorrectKey(r.questionResults, BySubject, sb.subject)
            && sb.percentage == Percent(sb.correct, sb.total))
      && (forall i, j :: 0 <= i < j < |r.subjectBreakdown| ==> r.subjectBreakdown[i].subject != r.subjectBreakdown[j].subject)
  {
    var rs := GradeAll(test.questions, AnswerMap(answers));
    DifficultyBuckets(rs);
    SubjectScoresCount(rs);
  }

  /**
   * Answering every question with its canonical answer makes every result correct, earns all
   * the marks and, for a non-empty test, gives 100% accuracy.
   */
  lemma {:induction false} VerbatimAnswersScoreFully(test: Test, testId: string, answers: seq<UserAnswer>, completedAt: string)
    requires |answers| == |test.questions|
    requires forall i :: 0 <= i < |answers| ==> answers[i].questionId == test.questions[i].id && answers[i].answer == test.questions[i].answer
    requires forall i, j :: 0 <= i < |test.questions| && 0 <= j < |test.questions| && test.questions[i].id == test.questions[j].id
               ==> test.questions[i].answer == test.questions[j].answer
    ensures var r := Evaluate(test, testId, answers, completedAt);
      && (forall i :: 0 <= i < |r.questionResults| ==> r.questionResults[i].isCorrect)
      && r.marksObtained == r.totalMarks
      && (|test.questions| > 0 ==> r.accuracy == 100.0)
  {
    var r := Evaluate(test, testId, answers, completedAt);
    var rs := r.questionResults;
    var am := AnswerMap(answers);
    forall i | 0 <= i < |rs|
      ensures rs[i].isCorrect
    {
      var q := test.questions[i];
      AnswerMapDomain(answers, q.id);
      assert answers[i].questionId == q.id;
      var k :| 0 <= k < |answers| && answers[k].questionId == q.id && am[q.id] == answers[k];
      assert rs[i].userAnswer == q.answer;
      VerbatimIsCorrect(q);
    }
    MarksBoundsAllCorrect(rs);
    CorrectCountBounds(rs);
    if |rs| > 0 {
      PercentRange(|rs|, |rs|);
    }
  }

  lemma {:induction false} MarksBoundsAllCorrect(rs: seq<QuestionResult>)
    requires forall i :: 0 <= i < |rs| ==> rs[i].isCorrect && rs[i].marksAwarded == rs[i].question.marks
    ensures MarksObtained(rs) == TotalMarks(rs)
    decreases |rs|
  {
    if rs != [] {
      MarksBoundsAllCorrect(rs[..|rs| - 1]);
    }
  }

  lemma {:induction false} AnswerMapAppend(answers: seq<UserAnswer>, a: UserAnswer)
    ensures AnswerMap(answers + [a]) == AnswerMap(answers)[a.questionId := a]
  {
    assert (answers + [a])[..|answers|] == answers;
  }

  lemma {:induction false} TotalTimeAppend(answers: seq<UserAnswer>, a: UserAnswer)
    ensures TotalTime(answers + [a]) == TotalTime(answers) + a.timeSpent
  {
    assert (answers + [a])[..|answers|] == answers;
  }

  /** Grading reads only the entry for the question's own id. */
  lemma {:induction false} GradeIgnoresOtherIds(q: Question, m: map<string, UserAnswer>, id: string, a: UserAnswer)
    requires q.id != id
    ensures Grade(q, m[id := a]) == Grade(q, m)
  {
    assert (q.id in m[id := a]) == (q.id in m);
    if q.id in m {
      assert m[id := a][q.id] == m[q.id];
    }
  }

  lemma {:induction false} GradeAllIgnoresOtherIds(qs: seq<Question>, m: map<string, UserAnswer>, id: string, a: UserAnswer)
    requires forall i :: 0 <= i < |qs| ==> qs[i].id != id
    ensures GradeAll(qs, m[id := a]) == GradeAll(qs, m)
  {
    forall i | 0 <= i < |qs|
      ensures Grade(qs[i], m[id := a]) == Grade(qs[i], m)
    {
      GradeIgnoresOtherIds(qs[i], m, id, a);
    }
  }

  /**
   * An answer for an id that is not in the test still adds its time to the total, and changes
   * no graded result (the results and the total time are all `Evaluate` reads of the answers).
   */
  lemma {:induction false} StrayAnswerCountsTime(qs: seq<Question>, answers: seq<UserAnswer>, stray: UserAnswer)
    requires forall i :: 0 <= i < |qs| ==> qs[i].id != stray.questionId
    ensures GradeAll(qs, AnswerMap(answers + [stray])) == GradeAll(qs, AnswerMap(answers))
    ensures TotalTime(answers + [stray]) == TotalTime(answers) + stray.timeSpent
  {
    AnswerMapAppend(answers, stray);
    TotalTimeAppend(answers, stray);
    GradeAllIgnoresOtherIds(qs, AnswerMap(answers), stray.questionId, stray);
  }

  /**
   * An unanswered question is graded as "" with no time: wrong for a choice or fill-in question
   * whose canonical answer is not blank, but correct for a short-answer question.
   */
  lemma {:induction false} UnansweredGrade(q: Question, answers: map<string, UserAnswer>)
    requires q.id !in answers
    ensures Grade(q, answers).userAnswer == "" && Grade(q, answers).timeSpent == 0
    ensures (q.kind == MCQ || q.kind == FillInBlank) && Normalize(q.answer) != "" ==>
      !Grade(q, answers).isCorrect && Grade(q, answers).marksAwarded == 0
    ensures q.kind == ShortAnswer ==> Grade(q, answers).isCorrect
  {
    if q.kind == MCQ || q.kind == FillInBlank {
      if Normalize(q.answer) != "" {
        BlankExactAnswerIsWrong(q);
      }
    } else if q.kind == ShortAnswer {
      EmptyShortAnswerIsCorrect(q, "");
    }
  }

  /**
   * With no answers at all every result is blank with no time and the total time is 0; blank
   * choice and fill-in answers are wrong (against non-blank canonical answers), but blank short
   * answers are judged correct.
   */
  lemma {:induction false} NoAnswersSubmitted(qs: seq<Question>)
    ensures TotalTime([]) == 0
    ensures var rs := GradeAll(qs, AnswerMap([]));
      && (forall i :: 0 <= i < |rs| ==> rs[i].userAnswer == "" && rs[i].timeSpent == 0)
      && (forall i :: 0 <= i < |qs| && (qs[i].kind == MCQ || qs[i].kind == FillInBlank) && Normalize(qs[i].answer) != ""
            ==> !rs[i].isCorrect && rs[i].marksAwarded == 0)
      && (forall i :: 0 <= i < |qs| && qs[i].kind == ShortAnswer ==> rs[i].isCorrect)
  {
    var rs := GradeAll(qs, AnswerMap([]));
    forall i | 0 <= i < |qs|
      ensures rs[i].userAnswer == "" && rs[i].timeSpent == 0
      ensures (qs[i].kind == MCQ || qs[i].kind == FillInBlank) && Normalize(qs[i].answer) != "" ==> !rs[i].isCorrect && rs[i].marksAwarded == 0
      ensures qs[i].kind == ShortAnswer ==> rs[i].isCorrect
    {
      UnansweredGrade(qs[i], map[]);
    }
  }
}
