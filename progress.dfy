/**
 * The learner's progress record the client keeps in local storage: one history entry per
 * completed test, running totals, the mean accuracy over the history, and per-topic and
 * per-subject counts merged from each test result.
 *
 * Local storage is the `stored` field of `ProgressStore`; the clock is the parameter `now`
 * (an ISO timestamp), read once per call.
 */
module ProgressTracker {
  import opened Wrappers
  import opened Text
  import opened Schema
  import opened Numeric
  import opened Tallies
  import Evaluation

  datatype HistoryEntry = HistoryEntry(testId: string, date: string, score: real, accuracy: real)

  datatype TopicRecord = TopicRecord(
    topic: string, subject: string, attempts: nat, correct: nat, accuracy: real, lastPracticed: string)

  datatype SubjectRecord = SubjectRecord(subject: string, totalQuestions: nat, correct: nat, accuracy: real)

  datatype Progress = Progress(
    totalTests: nat,
    totalQuestions: nat,
    overallAccuracy: real,
    testHistory: seq<HistoryEntry>,
    topicMastery: seq<TopicRecord>,
    subjectProgress: seq<SubjectRecord>,
    createdAt: string,
    updatedAt: string)

  /** The record `getProgress` starts from when nothing is stored. */
  function DefaultProgress(now: string): (p: Progress)
    ensures p.totalTests == 0 && p.totalQuestions == 0 && p.overallAccuracy == 0.0
    ensures p.testHistory == [] && p.topicMastery == [] && p.subjectProgress == []
    ensures p.createdAt == now && p.updatedAt == now
  {
    Progress(0, 0, 0.0, [], [], [], now, now)
  }

  /** `now.split("T")[0]`: the calendar date of an ISO timestamp. */
  function DatePart(now: string): string
  {
    SplitOn(now, 'T')[0]
  }

  /** The date of a timestamp is the text before its first `T`. */
  lemma DatePartOfTimestamp(date: string, time: string)
    requires 'T' !in date
    ensures DatePart(date + "T" + time) == date
  {
    SplitOnCons(date, 'T', time);
  }

  // ---------------------------------------------------------------------------------------
  // History and overall accuracy

  /** The history entry a result contributes. */
  function Entry(result: TestResult, now: string): HistoryEntry
  {
    HistoryEntry(result.testId, DatePart(now), result.scorePercentage, result.accuracy)
  }

  function Accuracies(h: seq<HistoryEntry>): (r: seq<real>)
    ensures |r| == |h| && forall i :: 0 <= i < |h| ==> r[i] == h[i].accuracy
  {
    seq(|h|, i requires 0 <= i < |h| => h[i].accuracy)
  }

  /** The `reduce` over the history divided by its length, or 0 for an empty history. */
  function OverallAccuracy(h: seq<HistoryEntry>): real
  {
    if |h| > 0 then Mean(Accuracies(h)) else 0.0
  }

  /**
   * Folding in one more test moves the overall accuracy incrementally: the new mean weighs
   * every test equally, whatever its number of questions.
   */
  lemma OverallAccuracyAppend(h: seq<HistoryEntry>, e: HistoryEntry)
    ensures |h| == 0 ==> OverallAccuracy(h + [e]) == e.accuracy
    ensures |h| > 0 ==>
      OverallAccuracy(h + [e]) == (OverallAccuracy(h) * |h| as real + e.accuracy) / (|h| + 1) as real
  {
    assert Accuracies(h + [e]) == Accuracies(h) + [e.accuracy];
    if |h| > 0 {
      MeanAppend(Accuracies(h), e.accuracy);
    } else {
      assert Accuracies(h + [e])[..0] == [];
    }
  }

  /** Two tests at 80% and 60% accuracy average 70%, however many questions each had. */
  lemma TwoTestsAverage(a: HistoryEntry, b: HistoryEntry)
    requires a.accuracy == 80.0 && b.accuracy == 60.0
    ensures OverallAccuracy([a, b]) == 70.0
  {
    OverallAccuracyAppend([a], b);
    OverallAccuracyAppend([], a);
    assert [a, b] == [a] + [b];
  }

  // ---------------------------------------------------------------------------------------
  // Topic mastery

  function Topics(ms: seq<TopicRecord>): (ks: seq<string>)
    ensures |ks| == |ms| && forall i :: 0 <= i < |ms| ==> ks[i] == ms[i].topic
  {
    seq(|ms|, i requires 0 <= i < |ms| => ms[i].topic)
  }

  predicate DistinctTopics(ms: seq<TopicRecord>)
  {
    forall i, j :: 0 <= i < j < |ms| ==> ms[i].topic != ms[j].topic
  }

  /** Index of the record for `topic` (`topicMastery.find`), or `|ms|` when there is none. */
  function FindTopic(ms: seq<TopicRecord>, topic: string): (i: nat)
    ensures i <= |ms|
    ensures i < |ms| ==> ms[i].topic == topic
    ensures forall j :: 0 <= j < i ==> ms[j].topic != topic
    decreases |ms|
  {
    if ms == [] then 0 else if ms[0].topic == topic then 0 else 1 + FindTopic(ms[1..], topic)
  }

  /** The subject of the first result on `topic`, or "" when no result is on it. */
  function SubjectOfTopic(rs: seq<QuestionResult>, topic: string): string
    decreases |rs|
  {
    if rs == [] then "" else if rs[0].question.topic == topic then rs[0].question.subject else SubjectOfTopic(rs[1..], topic)
  }

  /** An existing record after this test: counts added, accuracy recomputed from the sums. */
  function PractisedTopic(m: TopicRecord, e: Tally, now: string): TopicRecord
    requires e.total > 0
  {
    var attempts := m.attempts + e.total;
    var correct := m.correct + e.correct;
    m.(attempts := attempts, correct := correct, accuracy := Percent(correct, attempts), lastPracticed := now)
  }

  /** The record pushed for a topic practised for the first time. */
  function NewTopic(e: Tally, rs: seq<QuestionResult>, now: string): TopicRecord
    requires e.total > 0
  {
    TopicRecord(e.key, SubjectOfTopic(rs, e.key), e.total, e.correct, Percent(e.correct, e.total), now)
  }

  /** One iteration of the merge loop over `topicMap`. */
  function MergeTopic(ms: seq<TopicRecord>, e: Tally, rs: seq<QuestionResult>, now: string): seq<TopicRecord>
    requires e.total > 0
  {
    var i := FindTopic(ms, e.key);
    if i < |ms| then ms[i := PractisedTopic(ms[i], e, now)] else ms + [NewTopic(e, rs, now)]
  }

  /** The whole merge loop, entry by entry in `topicMap` order. */
  function MergeTopics(ms: seq<TopicRecord>, t: seq<Tally>, rs: seq<QuestionResult>, now: string): seq<TopicRecord>
    requires WellCounted(t)
    decreases |t|
  {
    if t == [] then ms
    else
      var n := |t| - 1;
      MergeTopic(MergeTopics(ms, t[..n], rs, now), t[n], rs, now)
  }

  /** One merge step keeps every record's topic and adds the entry's topic at the end when it is new. */
  lemma MergeTopicTopics(ms: seq<TopicRecord>, e: Tally, rs: seq<QuestionResult>, now: string)
    requires e.total > 0
    ensures var m := MergeTopic(ms, e, rs, now);
      && |m| == (if e.key in Topics(ms) then |ms| else |ms| + 1)
      && (forall i :: 0 <= i < |ms| ==> m[i].topic == ms[i].topic)
      && (forall k :: k in Topics(m) <==> k in Topics(ms) || k == e.key)
  {
    var i := FindTopic(ms, e.key);
    var m := MergeTopic(ms, e, rs, now);
    if i < |ms| {
      assert Topics(ms)[i] == e.key;
      assert Topics(m) == Topics(ms);
    } else {
      assert e.key !in Topics(ms);
      assert Topics(m) == Topics(ms) + [e.key];
    }
  }

  /**
   * One merge step updates the record for the entry's topic in place, or appends a new one
   * when there is none, and leaves every other record as it was.
   */
  lemma MergeTopicStep(ms: seq<TopicRecord>, e: Tally, rs: seq<QuestionResult>, now: string)
    requires DistinctTopics(ms) && e.total > 0
    ensures var m := MergeTopic(ms, e, rs, now);
      && DistinctTopics(m)
      && (e.key in Topics(ms) ==>
            && |m| == |ms|
            && forall i :: 0 <= i < |ms| ==> m[i] == if ms[i].topic == e.key then PractisedTopic(ms[i], e, now) else ms[i])
      && (e.key !in Topics(ms) ==> m == ms + [NewTopic(e, rs, now)])
  {
    var i := FindTopic(ms, e.key);
    if i < |ms| {
      assert Topics(ms)[i] == e.key;
    } else {
      assert e.key !in Topics(ms);
    }
  }

  /** The merge keeps the old records' topics in place and adds exactly the tally's new topics. */
  lemma {:induction false} MergeTopicsTopics(ms: seq<TopicRecord>, t: seq<Tally>, rs: seq<QuestionResult>, now: string)
    requires WellCounted(t)
    ensures var m := MergeTopics(ms, t, rs, now);
      && |ms| <= |m|
      && (forall i :: 0 <= i < |ms| ==> m[i].topic == ms[i].topic)
      && (forall k :: k in Topics(m) <==> k in Topics(ms) || LastIndex(t, k) >= 0)
    decreases |t|
  {
    if t != [] {
      var n := |t| - 1;
      MergeTopicsTopics(ms, t[..n], rs, now);
      MergeTopicTopics(MergeTopics(ms, t[..n], rs, now), t[n], rs, now);
    }
  }

  /** The merge never lists a topic twice. */
  lemma {:induction false} MergeTopicsDistinct(ms: seq<TopicRecord>, t: seq<Tally>, rs: seq<QuestionResult>, now: string)
    requires WellCounted(t) && DistinctTopics(ms)
    ensures DistinctTopics(MergeTopics(ms, t, rs, now))
    decreases |t|
  {
    if t != [] {
      var n := |t| - 1;
      MergeTopicsDistinct(ms, t[..n], rs, now);
      MergeTopicStep(MergeTopics(ms, t[..n], rs, now), t[n], rs, now);
    }
  }

  /** A record that was there before is practised with its topic's entry, or left as it was. */
  lemma {:induction false} MergeTopicsOld(ms: seq<TopicRecord>, t: seq<Tally>, rs: seq<QuestionResult>, now: string)
    requires DistinctTopics(ms) && DistinctKeys(t) && WellCounted(t)
    ensures var m := MergeTopics(ms, t, rs, now);
      |ms| <= |m| &&
      forall i :: 0 <= i < |ms| ==>
        m[i] == if LastIndex(t, ms[i].topic) >= 0 then PractisedTopic(ms[i], t[LastIndex(t, ms[i].topic)], now) else ms[i]
    decreases |t|
  {
    if t != [] {
      var n := |t| - 1;
      var e := t[n];
      var m0 := MergeTopics(ms, t[..n], rs, now);
      var m := MergeTopics(ms, t, rs, now);
      MergeTopicsOld(ms, t[..n], rs, now);
      MergeTopicsTopics(ms, t[..n], rs, now);
      MergeTopicsDistinct(ms, t[..n], rs, now);
      MergeTopicStep(m0, e, rs, now);
      LastIndexSnoc(t);
      forall i | 0 <= i < |ms|
        ensures m[i] == if LastIndex(t, ms[i].topic) >= 0 then PractisedTopic(ms[i], t[LastIndex(t, ms[i].topic)], now) else ms[i]
      {
        if ms[i].topic == e.key {
          assert Topics(m0)[i] == e.key;
        }
      }
    }
  }

  /** The records after the old ones are new topics, each built from its entry. */
  lemma {:induction false} MergeTopicsNew(ms: seq<TopicRecord>, t: seq<Tally>, rs: seq<QuestionResult>, now: string)
    requires DistinctTopics(ms) && DistinctKeys(t) && WellCounted(t)
    ensures var m := MergeTopics(ms, t, rs, now);
      forall j :: |ms| <= j < |m| ==>
        && m[j].topic !in Topics(ms)
        && LastIndex(t, m[j].topic) >= 0
        && m[j] == NewTopic(t[LastIndex(t, m[j].topic)], rs, now)
    decreases |t|
  {
    if t != [] {
      var n := |t| - 1;
      var e := t[n];
      var m0 := MergeTopics(ms, t[..n], rs, now);
      MergeTopicsNew(ms, t[..n], rs, now);
      MergeTopicsTopics(ms, t[..n], rs, now);
      MergeTopicsDistinct(ms, t[..n], rs, now);
      MergeTopicStep(m0, e, rs, now);
      LastIndexSnoc(t);
    }
  }

  /**
   * Folding in a result's topic tally, old records: a record on a topic of the result gains
   * exactly that topic's attempts and correct answers, gets its accuracy recomputed from the
   * sums and is stamped `now`; a record on any other topic is unchanged.
   */
  lemma TopicMasteryKeeps(ms: seq<TopicRecord>, rs: seq<QuestionResult>, now: string)
    requires DistinctTopics(ms)
    ensures var m := MergeTopics(ms, TallyOf(rs, ByTopic), rs, now);
      && |ms| <= |m|
      && forall i :: 0 <= i < |ms| ==>
           && m[i].topic == ms[i].topic && m[i].subject == ms[i].subject
           && m[i].attempts == ms[i].attempts + CountKey(rs, ByTopic, ms[i].topic)
           && m[i].correct == ms[i].correct + CountCorrectKey(rs, ByTopic, ms[i].topic)
           && (CountKey(rs, ByTopic, ms[i].topic) == 0 ==> m[i] == ms[i])
           && (CountKey(rs, ByTopic, ms[i].topic) > 0 ==>
                 m[i].lastPracticed == now && m[i].accuracy == Percent(m[i].correct, m[i].attempts))
  {
    var t := TallyOf(rs, ByTopic);
    var m := MergeTopics(ms, t, rs, now);
    TallyCounts(rs, ByTopic);
    MergeTopicsOld(ms, t, rs, now);
    forall i | 0 <= i < |ms|
      ensures && m[i].topic == ms[i].topic && m[i].subject == ms[i].subject
              && m[i].attempts == ms[i].attempts + CountKey(rs, ByTopic, ms[i].topic)
              && m[i].correct == ms[i].correct + CountCorrectKey(rs, ByTopic, ms[i].topic)
              && (CountKey(rs, ByTopic, ms[i].topic) == 0 ==> m[i] == ms[i])
              && (CountKey(rs, ByTopic, ms[i].topic) > 0 ==>
                    m[i].lastPracticed == now && m[i].accuracy == Percent(m[i].correct, m[i].attempts))
    {
      var k := ms[i].topic;
      LastIndexKeys(t, k);
      var j := LastIndex(t, k);
      if j >= 0 {
        assert t[j].key == k;
        assert CountKey(rs, ByTopic, k) > 0;
      } else {
        assert CountKey(rs, ByTopic, k) == 0 && CountCorrectKey(rs, ByTopic, k) == 0 by {
          CorrectAtMostCount(rs, ByTopic, k);
        }
      }
    }
  }

  /**
   * Folding in a result's topic tally, new records: the topics listed afterwards are the old
   * ones and the result's; each topic met for the first time gets one record after the old
   * ones, carrying its counts, their percentage, the subject of its first result and `now`.
   */
  lemma TopicMasteryAdds(ms: seq<TopicRecord>, rs: seq<QuestionResult>, now: string)
    requires DistinctTopics(ms)
    ensures var m := MergeTopics(ms, TallyOf(rs, ByTopic), rs, now);
      && DistinctTopics(m)
      && (forall k :: k in Topics(m) <==> k in Topics(ms) || CountKey(rs, ByTopic, k) > 0)
      && forall j :: |ms| <= j < |m| ==>
           && m[j].topic !in Topics(ms)
           && m[j].attempts == CountKey(rs, ByTopic, m[j].topic) > 0
           && m[j].correct == CountCorrectKey(rs, ByTopic, m[j].topic)
           && m[j].accuracy == Percent(m[j].correct, m[j].attempts)
           && m[j].subject == SubjectOfTopic(rs, m[j].topic)
           && m[j].lastPracticed == now
  {
    var t := TallyOf(rs, ByTopic);
    TallyCounts(rs, ByTopic);
    MergeTopicsTopics(ms, t, rs, now);
    MergeTopicsDistinct(ms, t, rs, now);
    MergeTopicsNew(ms, t, rs, now);
    forall k ensures LastIndex(t, k) >= 0 <==> CountKey(rs, ByTopic, k) > 0 {
      LastIndexKeys(t, k);
    }
  }

  // ---------------------------------------------------------------------------------------
  // Subject progress

  function Subjects(ps: seq<SubjectRecord>): (ks: seq<string>)
    ensures |ks| == |ps| && forall i :: 0 <= i < |ps| ==> ks[i] == ps[i].subject
  {
    seq(|ps|, i requires 0 <= i < |ps| => ps[i].subject)
  }

  predicate DistinctSubjects(ps: seq<SubjectRecord>)
  {
    forall i, j :: 0 <= i < j < |ps| ==> ps[i].subject != ps[j].subject
  }

  /** Index of the record for `subject` (`subjectProgress.find`), or `|ps|` when there is none. */
  function FindSubject(ps: seq<SubjectRecord>, subject: string): (i: nat)
    ensures i <= |ps|
    ensures i < |ps| ==> ps[i].subject == subject
    ensures forall j :: 0 <= j < i ==> ps[j].subject != subject
    decreases |ps|
  {
    if ps == [] then 0 else if ps[0].subject == subject then 0 else 1 + FindSubject(ps[1..], subject)
  }

  predicate DistinctScoreSubjects(sbs: seq<SubjectScore>)
  {
    forall i, j :: 0 <= i < j < |sbs| ==> sbs[i].subject != sbs[j].subject
  }

  /** Index of the last breakdown entry for `subject`, or -1 when there is none. */
  function LastScoreFor(sbs: seq<SubjectScore>, subject: string): (i: int)
    ensures -1 <= i < |sbs|
    ensures i >= 0 ==> sbs[i].subject == subject
    ensures forall j :: i < j < |sbs| ==> sbs[j].subject != subject
    decreases |sbs|
  {
    if sbs == [] then -1
    else if sbs[|sbs| - 1].subject == subject then |sbs| - 1
    else LastScoreFor(sbs[..|sbs| - 1], subject)
  }

  /** Every breakdown entry has at least one question, as every entry the evaluator builds does. */
  predicate PositiveTotals(sbs: seq<SubjectScore>)
  {
    forall i :: 0 <= i < |sbs| ==> sbs[i].total > 0
  }

  /** An existing subject record after this test: counts added, accuracy recomputed from the sums. */
  function PractisedSubject(p: SubjectRecord, sb: SubjectScore): SubjectRecord
    requires sb.total > 0
  {
    var total := p.totalQuestions + sb.total;
    var correct := p.correct + sb.correct;
    p.(totalQuestions := total, correct := correct, accuracy := Percent(correct, total))
  }

  /** A subject met for the first time keeps the breakdown's own percentage. */
  function NewSubject(sb: SubjectScore): SubjectRecord
  {
    SubjectRecord(sb.subject, sb.total, sb.correct, sb.percentage)
  }

  /** One iteration of the loop over `subject_breakdown`. */
  function MergeSubject(ps: seq<SubjectRecord>, sb: SubjectScore): seq<SubjectRecord>
    requires sb.total > 0
  {
    var i := FindSubject(ps, sb.subject);
    if i < |ps| then ps[i := PractisedSubject(ps[i], sb)] else ps + [NewSubject(sb)]
  }

  /** The whole loop, entry by entry in breakdown order. */
  function MergeSubjects(ps: seq<SubjectRecord>, sbs: seq<SubjectScore>): seq<SubjectRecord>
    requires PositiveTotals(sbs)
    decreases |sbs|
  {
    if sbs == [] then ps
    else
      var n := |sbs| - 1;
      MergeSubject(MergeSubjects(ps, sbs[..n]), sbs[n])
  }

  lemma MergeSubjectSubjects(ps: seq<SubjectRecord>, sb: SubjectScore)
    requires sb.total > 0
    ensures var m := MergeSubject(ps, sb);
      && |m| == (if sb.subject in Subjects(ps) then |ps| else |ps| + 1)
      && (forall i :: 0 <= i < |ps| ==> m[i].subject == ps[i].subject)
      && (forall k :: k in Subjects(m) <==> k in Subjects(ps) || k == sb.subject)
  {
    var i := FindSubject(ps, sb.subject);
    var m := MergeSubject(ps, sb);
    if i < |ps| {
      assert Subjects(ps)[i] == sb.subject;
      assert Subjects(m) == Subjects(ps);
    } else {
      assert sb.subject !in Subjects(ps);
      assert Subjects(m) == Subjects(ps) + [sb.subject];
    }
  }

  lemma MergeSubjectStep(ps: seq<SubjectRecord>, sb: SubjectScore)
    requires DistinctSubjects(ps) && sb.total > 0
    ensures var m := MergeSubject(ps, sb);
      && DistinctSubjects(m)
      && (sb.subject in Subjects(ps) ==>
            && |m| == |ps|
            && forall i :: 0 <= i < |ps| ==> m[i] == if ps[i].subject == sb.subject then PractisedSubject(ps[i], sb) else ps[i])
      && (sb.subject !in Subjects(ps) ==> m == ps + [NewSubject(sb)])
  {
    var i := FindSubject(ps, sb.subject);
    if i < |ps| {
      assert Subjects(ps)[i] == sb.subject;
    } else {
      assert sb.subject !in Subjects(ps);
    }
  }

  /** The loop keeps the old records' subjects in place and adds exactly the breakdown's new subjects. */
  lemma {:induction false} MergeSubjectsSubjects(ps: seq<SubjectRecord>, sbs: seq<SubjectScore>)
    requires PositiveTotals(sbs)
    ensures var m := MergeSubjects(ps, sbs);
      && |ps| <= |m|
      && (forall i :: 0 <= i < |ps| ==> m[i].subject == ps[i].subject)
      && (forall k :: k in Subjects(m) <==> k in Subjects(ps) || LastScoreFor(sbs, k) >= 0)
    decreases |sbs|
  {
    if sbs != [] {
      var n := |sbs| - 1;
      MergeSubjectsSubjects(ps, sbs[..n]);
      MergeSubjectSubjects(MergeSubjects(ps, sbs[..n]), sbs[n]);
    }
  }

  /** The loop never lists a subject twice. */
  lemma {:induction false} MergeSubjectsDistinct(ps: seq<SubjectRecord>, sbs: seq<SubjectScore>)
    requires PositiveTotals(sbs) && DistinctSubjects(ps)
    ensures DistinctSubjects(MergeSubjects(ps, sbs))
    decreases |sbs|
  {
    if sbs != [] {
      var n := |sbs| - 1;
      MergeSubjectsDistinct(ps, sbs[..n]);
      MergeSubjectStep(MergeSubjects(ps, sbs[..n]), sbs[n]);
    }
  }

  /**
   * Subject progress, old records: a record whose subject is in the breakdown adds that
   * entry's total and correct answers and recomputes its accuracy from the sums; a record
   * whose subject is not in the breakdown is unchanged.
   */
  lemma {:induction false} MergeSubjectsOld(ps: seq<SubjectRecord>, sbs: seq<SubjectScore>)
    requires DistinctSubjects(ps) && DistinctScoreSubjects(sbs) && PositiveTotals(sbs)
    ensures var m := MergeSubjects(ps, sbs);
      |ps| <= |m| &&
      forall i :: 0 <= i < |ps| ==>
        m[i] == if LastScoreFor(sbs, ps[i].subject) >= 0 then PractisedSubject(ps[i], sbs[LastScoreFor(sbs, ps[i].subject)]) else ps[i]
    decreases |sbs|
  {
    if sbs != [] {
      var n := |sbs| - 1;
      var sb := sbs[n];
      var m0 := MergeSubjects(ps, sbs[..n]);
      var m := MergeSubjects(ps, sbs);
      MergeSubjectsOld(ps, sbs[..n]);
      MergeSubjectsSubjects(ps, sbs[..n]);
      MergeSubjectsDistinct(ps, sbs[..n]);
      MergeSubjectStep(m0, sb);
      assert LastScoreFor(sbs[..n], sb.subject) == -1;
      forall i | 0 <= i < |ps|
        ensures m[i] == if LastScoreFor(sbs, ps[i].subject) >= 0 then PractisedSubject(ps[i], sbs[LastScoreFor(sbs, ps[i].subject)]) else ps[i]
      {
        if ps[i].subject == sb.subject {
          assert Subjects(m0)[i] == sb.subject;
        }
      }
    }
  }

  /**
   * Subject progress, new records: the subjects listed afterwards are the old ones and the
   * breakdown's; each new subject gets one record after the old ones, copied from its entry
   * with the entry's own percentage.
   */
  lemma {:induction false} MergeSubjectsNew(ps: seq<SubjectRecord>, sbs: seq<SubjectScore>)
    requires DistinctSubjects(ps) && DistinctScoreSubjects(sbs) && PositiveTotals(sbs)
    ensures var m := MergeSubjects(ps, sbs);
      && DistinctSubjects(m)
      && (forall k :: k in Subjects(m) <==> k in Subjects(ps) || LastScoreFor(sbs, k) >= 0)
      && forall j :: |ps| <= j < |m| ==>
           && m[j].subject !in Subjects(ps)
           && LastScoreFor(sbs, m[j].subject) >= 0
           && m[j] == NewSubject(sbs[LastScoreFor(sbs, m[j].subject)])
    decreases |sbs|
  {
    MergeSubjectsSubjects(ps, sbs);
    MergeSubjectsDistinct(ps, sbs);
    if sbs != [] {
      var n := |sbs| - 1;
      var sb := sbs[n];
      var m0 := MergeSubjects(ps, sbs[..n]);
      MergeSubjectsNew(ps, sbs[..n]);
      MergeSubjectStep(m0, sb);
      assert LastScoreFor(sbs[..n], sb.subject) == -1;
    }
  }

  // ---------------------------------------------------------------------------------------
  // The whole update

  /** `updateProgress` on the current record, read as one expression. */
  function Updated(p: Progress, result: TestResult, now: string): Progress
    requires PositiveTotals(result.subjectBreakdown)
  {
    var history := p.testHistory + [Entry(result, now)];
    Progress(
      p.totalTests + 1,
      p.totalQuestions + result.totalQuestions,
      OverallAccuracy(history),
      history,
      MergeTopics(p.topicMastery, TallyOf(result.questionResults, ByTopic), result.questionResults, now),
      MergeSubjects(p.subjectProgress, result.subjectBreakdown),
      p.createdAt,
      now)
  }

  predicate SoundTopic(m: TopicRecord)
  {
    0 < m.attempts && m.correct <= m.attempts && m.accuracy == Percent(m.correct, m.attempts)
  }

  predicate SoundSubject(s: SubjectRecord)
  {
    0 < s.totalQuestions && s.correct <= s.totalQuestions && s.accuracy == Percent(s.correct, s.totalQuestions)
  }

  /**
   * What the record keeps true between updates: one history entry per test, the overall
   * accuracy is the mean of the history, one record per topic and per subject, and each
   * record's correct count is at most its attempts, with its accuracy their percentage.
   */
  predicate Consistent(p: Progress)
  {
    && p.totalTests == |p.testHistory|
    && p.overallAccuracy == OverallAccuracy(p.testHistory)
    && DistinctTopics(p.topicMastery)
    && DistinctSubjects(p.subjectProgress)
    && (forall i :: 0 <= i < |p.topicMastery| ==> SoundTopic(p.topicMastery[i]))
    && (forall i :: 0 <= i < |p.subjectProgress| ==> SoundSubject(p.subjectProgress[i]))
  }

  /** Breakdown entries with at least one question, correct at most total, and their percentage. */
  predicate SoundBreakdown(sbs: seq<SubjectScore>)
  {
    forall i :: 0 <= i < |sbs| ==>
      0 < sbs[i].total && sbs[i].correct <= sbs[i].total && sbs[i].percentage == Percent(sbs[i].correct, sbs[i].total)
  }

  lemma DefaultIsConsistent(now: string)
    ensures Consistent(DefaultProgress(now))
  {
  }

  lemma MergeTopicSound(ms: seq<TopicRecord>, e: Tally, rs: seq<QuestionResult>, now: string)
    requires 0 < e.total && e.correct <= e.total
    requires forall i :: 0 <= i < |ms| ==> SoundTopic(ms[i])
    ensures var m := MergeTopic(ms, e, rs, now);
      forall i :: 0 <= i < |m| ==> SoundTopic(m[i])
  {
  }

  /** Merging well-counted entries keeps every record's correct count within its attempts. */
  lemma {:induction false} MergeTopicsSound(ms: seq<TopicRecord>, t: seq<Tally>, rs: seq<QuestionResult>, now: string)
    requires WellCounted(t)
    requires forall i :: 0 <= i < |ms| ==> SoundTopic(ms[i])
    ensures var m := MergeTopics(ms, t, rs, now);
      forall i :: 0 <= i < |m| ==> SoundTopic(m[i])
    decreases |t|
  {
    if t != [] {
      var n := |t| - 1;
      var m0 := MergeTopics(ms, t[..n], rs, now);
      MergeTopicsSound(ms, t[..n], rs, now);
      assert forall i :: 0 <= i < |MergeTopics(ms, t[..n], rs, now)| ==> SoundTopic(MergeTopics(ms, t[..n], rs, now)[i]);
      MergeTopicSound(m0, t[n], rs, now);
    }
  }

  lemma MergeSubjectSound(ps: seq<SubjectRecord>, sb: SubjectScore)
    requires 0 < sb.total && sb.correct <= sb.total && sb.percentage == Percent(sb.correct, sb.total)
    requires forall i :: 0 <= i < |ps| ==> SoundSubject(ps[i])
    ensures var m := MergeSubject(ps, sb);
      forall i :: 0 <= i < |m| ==> SoundSubject(m[i])
  {
  }

  /** Merging a sound breakdown keeps every record's correct count within its total. */
  lemma {:induction false} MergeSubjectsSound(ps: seq<SubjectRecord>, sbs: seq<SubjectScore>)
    requires SoundBreakdown(sbs)
    requires forall i :: 0 <= i < |ps| ==> SoundSubject(ps[i])
    ensures PositiveTotals(sbs)
    ensures var m := MergeSubjects(ps, sbs);
      forall i :: 0 <= i < |m| ==> SoundSubject(m[i])
    decreases |sbs|
  {
    if sbs != [] {
      var n := |sbs| - 1;
      var m0 := MergeSubjects(ps, sbs[..n]);
      assert SoundBreakdown(sbs[..n]);
      MergeSubjectsSound(ps, sbs[..n]);
      assert forall i :: 0 <= i < |MergeSubjects(ps, sbs[..n])| ==> SoundSubject(MergeSubjects(ps, sbs[..n])[i]);
      MergeSubjectSound(m0, sbs[n]);
    }
  }

  /** An update keeps a consistent record consistent. */
  lemma UpdateKeepsConsistent(p: Progress, result: TestResult, now: string)
    requires Consistent(p) && SoundBreakdown(result.subjectBreakdown)
    ensures PositiveTotals(result.subjectBreakdown)
    ensures Consistent(Updated(p, result, now))
  {
    var rs := result.questionResults;
    var t := TallyOf(rs, ByTopic);
    MergeSubjectsSound(p.subjectProgress, result.subjectBreakdown);
    MergeTopicsSound(p.topicMastery, t, rs, now);
    MergeTopicsDistinct(p.topicMastery, t, rs, now);
    MergeSubjectsDistinct(p.subjectProgress, result.subjectBreakdown);
    var q := Updated(p, result, now);
    assert q.topicMastery == MergeTopics(p.topicMastery, t, rs, now);
    assert q.subjectProgress == MergeSubjects(p.subjectProgress, result.subjectBreakdown);
    assert q.totalTests == |q.testHistory|;
  }

  /** An update appends exactly one history entry, with the result's id, score and accuracy, and bumps the totals. */
  lemma UpdateHistoryAndTotals(p: Progress, result: TestResult, now: string)
    requires PositiveTotals(result.subjectBreakdown)
    ensures var q := Updated(p, result, now);
      && q.testHistory[..|p.testHistory|] == p.testHistory
      && |q.testHistory| == |p.testHistory| + 1
      && q.testHistory[|p.testHistory|] == HistoryEntry(result.testId, DatePart(now), result.scorePercentage, result.accuracy)
      && q.totalTests == p.totalTests + 1
      && q.totalQuestions == p.totalQuestions + result.totalQuestions
      && q.createdAt == p.createdAt && q.updatedAt == now
  {
    var h := p.testHistory + [Entry(result, now)];
    assert Updated(p, result, now).testHistory == h;
    assert h[..|p.testHistory|] == p.testHistory;
  }

  /**
   * An update moves the overall accuracy to the mean including the new test: the new test's
   * own accuracy after the first test, the running mean weighted by the test count after that.
   */
  lemma UpdateOverallAccuracy(p: Progress, result: TestResult, now: string)
    requires Consistent(p) && PositiveTotals(result.subjectBreakdown)
    ensures var q := Updated(p, result, now);
      && (p.totalTests == 0 ==> q.overallAccuracy == result.accuracy)
      && (p.totalTests > 0 ==>
            q.overallAccuracy == (p.overallAccuracy * p.totalTests as real + result.accuracy) / (p.totalTests + 1) as real)
  {
    var h := p.testHistory + [Entry(result, now)];
    assert Updated(p, result, now).overallAccuracy == OverallAccuracy(h);
    OverallAccuracyAppend(p.testHistory, Entry(result, now));
  }

  /** Every result the evaluator builds can be folded in: its subject breakdown is sound and duplicate-free. */
  lemma EvaluatedResultIsSound(test: Test, testId: string, answers: seq<UserAnswer>, completedAt: string)
    ensures var r := Evaluation.Evaluate(test, testId, answers, completedAt);
      SoundBreakdown(r.subjectBreakdown) && DistinctScoreSubjects(r.subjectBreakdown)
  {
    var rs := Evaluation.GradeAll(test.questions, Evaluation.AnswerMap(answers));
    Evaluation.SubjectScoresCount(rs);
  }

  // ---------------------------------------------------------------------------------------
  // The loops of `updateProgress`

  /** The merge loop over `topicMap`. */
  method MergeTopicRecords(ms: seq<TopicRecord>, topicMap: seq<Tally>, rs: seq<QuestionResult>, now: string)
    returns (topics: seq<TopicRecord>)
    requires WellCounted(topicMap)
    ensures topics == MergeTopics(ms, topicMap, rs, now)
  {
    topics := ms;
    for i := 0 to |topicMap|
      invariant topics == MergeTopics(ms, topicMap[..i], rs, now)
    {
      assert topicMap[..i + 1][..i] == topicMap[..i];
      topics := MergeTopic(topics, topicMap[i], rs, now);
    }
    assert topicMap[..|topicMap|] == topicMap;
  }

  /** The loop over `subject_breakdown`. */
  method MergeSubjectRecords(ps: seq<SubjectRecord>, sbs: seq<SubjectScore>) returns (subjects: seq<SubjectRecord>)
    requires PositiveTotals(sbs)
    ensures subjects == MergeSubjects(ps, sbs)
  {
    subjects := ps;
    for i := 0 to |sbs|
      invariant subjects == MergeSubjects(ps, sbs[..i])
    {
      assert sbs[..i + 1][..i] == sbs[..i];
      subjects := MergeSubject(subjects, sbs[i]);
    }
    assert sbs[..|sbs|] == sbs;
  }

  // ---------------------------------------------------------------------------------------
  // The store

  class ProgressStore {
    /** The `user_progress` entry of local storage, if any. */
    var stored: Option<Progress>

    constructor(initial: Option<Progress>)
      ensures stored == initial
    {
      stored := initial;
    }

    /** `getProgress`: the stored record, or a fresh one stamped `now`. */
    function GetProgress(now: string): (p: Progress)
      reads this
      ensures stored.None? ==> p == DefaultProgress(now)
      ensures stored.Some? ==> p == stored.value
    {
      match stored
      case None => DefaultProgress(now)
      case Some(p) => p
    }

    /** `updateProgress`: folds `result` into the current record, stores it and returns it. */
    method UpdateProgress(result: TestResult, now: string) returns (p: Progress)
      requires PositiveTotals(result.subjectBreakdown)
      modifies this
      ensures p == Updated(old(GetProgress(now)), result, now)
      ensures stored == Some(p)
    {
      var current := GetProgress(now);
      var history := current.testHistory + [Entry(result, now)];
      var topicMap := CountPerformance(result.questionResults, ByTopic);
      var topics := MergeTopicRecords(current.topicMastery, topicMap, result.questionResults, now);
      var subjects := MergeSubjectRecords(current.subjectProgress, result.subjectBreakdown);
      p := Progress(
        current.totalTests + 1, current.totalQuestions + result.totalQuestions,
        OverallAccuracy(history), history, topics, subjects, current.createdAt, now);
      assert p == Updated(current, result, now);
      stored := Some(p);
    }
  }
}
