/**
 * Per-key performance counting over question results, in first-seen key order: the
 * `topicPerformance` and `subjectPerformance` maps of the evaluator and the `topicMap` of the
 * progress accumulator.
 */
module Tallies {
  import opened Schema

  datatype Grouping = ByTopic | BySubject

  function KeyOf(g: Grouping, r: QuestionResult): string
  {
    match g
    case ByTopic => r.question.topic
    case BySubject => r.question.subject
  }

  /** Performance of one key: how many results carry it, and how many of those are correct. */
  datatype Tally = Tally(key: string, correct: nat, total: nat)

  predicate WellCounted(t: seq<Tally>)
  {
    forall i :: 0 <= i < |t| ==> 0 < t[i].total && t[i].correct <= t[i].total
  }

  predicate DistinctKeys(t: seq<Tally>)
  {
    forall i, j :: 0 <= i < j < |t| ==> t[i].key != t[j].key
  }

  function Keys(t: seq<Tally>): (ks: seq<string>)
    ensures |ks| == |t| && forall i :: 0 <= i < |t| ==> ks[i] == t[i].key
  {
    seq(|t|, i requires 0 <= i < |t| => t[i].key)
  }

  /** Index of the first entry for `k`, or `|t|` when there is none (`Map.has`/`Map.get`). */
  function Find(t: seq<Tally>, k: string): (i: nat)
    ensures i <= |t|
    ensures i < |t| ==> t[i].key == k
    ensures forall j :: 0 <= j < i ==> t[j].key != k
    decreases |t|
  {
    if t == [] then 0 else if t[0].key == k then 0 else 1 + Find(t[1..], k)
  }

  /** Index of the last entry for `k`, or -1 when there is none. */
  function LastIndex(t: seq<Tally>, k: string): (i: int)
    ensures -1 <= i < |t|
    ensures i >= 0 ==> t[i].key == k
    ensures forall j :: i < j < |t| ==> t[j].key != k
    decreases |t|
  {
    if t == [] then -1 else if t[|t| - 1].key == k then |t| - 1 else LastIndex(t[..|t| - 1], k)
  }

  lemma LastIndexKeys(t: seq<Tally>, k: string)
    ensures LastIndex(t, k) >= 0 <==> k in Keys(t)
  {
    var i := LastIndex(t, k);
    if i >= 0 {
      assert Keys(t)[i] == k;
    }
  }

  /** With distinct keys, the last entry's key does not occur before it. */
  lemma LastIndexSnoc(t: seq<Tally>)
    requires t != [] && DistinctKeys(t)
    ensures LastIndex(t[..|t| - 1], t[|t| - 1].key) == -1
  {
  }

  /** Count one more result for `k`: update its entry, or append a fresh one at the end. */
  function Bump(t: seq<Tally>, k: string, ok: bool): seq<Tally>
  {
    var i := Find(t, k);
    var c := if ok then 1 else 0;
    if i < |t| then t[i := Tally(k, t[i].correct + c, t[i].total + 1)] else t + [Tally(k, c, 1)]
  }

  function TallyOf(rs: seq<QuestionResult>, g: Grouping): (t: seq<Tally>)
    ensures WellCounted(t)
    decreases |rs|
  {
    if rs == [] then []
    else
      var n := |rs| - 1;
      Bump(TallyOf(rs[..n], g), KeyOf(g, rs[n]), rs[n].isCorrect)
  }

  /** Reference counts: results carrying key `k`, and the correct ones among them. */
  function CountKey(rs: seq<QuestionResult>, g: Grouping, k: string): nat
    decreases |rs|
  {
    if rs == [] then 0
    else CountKey(rs[..|rs| - 1], g, k) + (if KeyOf(g, rs[|rs| - 1]) == k then 1 else 0)
  }

  function CountCorrectKey(rs: seq<QuestionResult>, g: Grouping, k: string): nat
    decreases |rs|
  {
    if rs == [] then 0
    else
      var r := rs[|rs| - 1];
      CountCorrectKey(rs[..|rs| - 1], g, k) + (if KeyOf(g, r) == k && r.isCorrect then 1 else 0)
  }

  function CorrectCount(rs: seq<QuestionResult>): nat
    decreases |rs|
  {
    if rs == [] then 0 else CorrectCount(rs[..|rs| - 1]) + (if rs[|rs| - 1].isCorrect then 1 else 0)
  }

  function SumTotals(t: seq<Tally>): nat
    decreases |t|
  {
    if t == [] then 0 else SumTotals(t[..|t| - 1]) + t[|t| - 1].total
  }

  function SumCorrect(t: seq<Tally>): nat
    decreases |t|
  {
    if t == [] then 0 else SumCorrect(t[..|t| - 1]) + t[|t| - 1].correct
  }

  /** Bumping adds one to the entry for `k` (a fresh one at the end if needed) and nothing else. */
  lemma BumpFacts(t: seq<Tally>, k: string, ok: bool)
    requires DistinctKeys(t)
    ensures var b := Bump(t, k, ok);
      && DistinctKeys(b)
      && (if k in Keys(t) then |b| == |t| else |b| == |t| + 1 && b[|t|] == Tally(k, if ok then 1 else 0, 1))
      && (forall i :: 0 <= i < |t| ==>
            && b[i].key == t[i].key
            && b[i].total == t[i].total + (if t[i].key == k then 1 else 0)
            && b[i].correct == t[i].correct + (if t[i].key == k && ok then 1 else 0))
  {
    var i := Find(t, k);
    if i < |t| {
      assert k in Keys(t) by { assert Keys(t)[i] == k; }
    } else {
      assert k !in Keys(t);
    }
  }

  /** No key is listed twice. */
  lemma {:induction false} TallyDistinct(rs: seq<QuestionResult>, g: Grouping)
    ensures DistinctKeys(TallyOf(rs, g))
    decreases |rs|
  {
    if rs != [] {
      var n := |rs| - 1;
      TallyDistinct(rs[..n], g);
      BumpFacts(TallyOf(rs[..n], g), KeyOf(g, rs[n]), rs[n].isCorrect);
    }
  }

  /** Counting the last result adds one to its key's count and nothing to the others. */
  lemma CountsOfLast(rs: seq<QuestionResult>, g: Grouping, x: string)
    requires rs != []
    ensures var r := rs[|rs| - 1];
      && CountKey(rs, g, x) == CountKey(rs[..|rs| - 1], g, x) + (if KeyOf(g, r) == x then 1 else 0)
      && CountCorrectKey(rs, g, x) == CountCorrectKey(rs[..|rs| - 1], g, x) + (if KeyOf(g, r) == x && r.isCorrect then 1 else 0)
  {
  }

  /** A key has an entry exactly when some result carries it. */
  lemma {:induction false} TallyKeys(rs: seq<QuestionResult>, g: Grouping)
    ensures forall k :: k in Keys(TallyOf(rs, g)) <==> CountKey(rs, g, k) > 0
    decreases |rs|
  {
    if rs != [] {
      var n := |rs| - 1;
      var prev := TallyOf(rs[..n], g);
      var k := KeyOf(g, rs[n]);
      TallyKeys(rs[..n], g);
      TallyDistinct(rs[..n], g);
      BumpFacts(prev, k, rs[n].isCorrect);
      var t := TallyOf(rs, g);
      if k !in Keys(prev) {
        assert Keys(t) == Keys(prev) + [k];
      } else {
        assert Keys(t) == Keys(prev);
      }
      forall x
        ensures x in Keys(t) <==> CountKey(rs, g, x) > 0
      {
        CountsOfLast(rs, g, x);
      }
    }
  }

  /** Each entry holds exactly the reference counts for its key. */
  lemma {:induction false} TallyEntries(rs: seq<QuestionResult>, g: Grouping)
    ensures forall i :: 0 <= i < |TallyOf(rs, g)| ==>
      TallyOf(rs, g)[i].total == CountKey(rs, g, TallyOf(rs, g)[i].key) &&
      TallyOf(rs, g)[i].correct == CountCorrectKey(rs, g, TallyOf(rs, g)[i].key)
    decreases |rs|
  {
    if rs != [] {
      var n := |rs| - 1;
      var prev := TallyOf(rs[..n], g);
      var k := KeyOf(g, rs[n]);
      TallyEntries(rs[..n], g);
      TallyDistinct(rs[..n], g);
      TallyKeys(rs[..n], g);
      BumpFacts(prev, k, rs[n].isCorrect);
      var t := TallyOf(rs, g);
      forall i | 0 <= i < |t|
        ensures t[i].total == CountKey(rs, g, t[i].key) && t[i].correct == CountCorrectKey(rs, g, t[i].key)
      {
        CountsOfLast(rs, g, t[i].key);
        if i == |prev| {
          CorrectAtMostCount(rs[..n], g, k);
        }
      }
    }
  }

  /**
   * The tally has one entry per key that occurs, each entry holds exactly the reference
   * counts for its key, and no key is listed twice.
   */
  lemma TallyCounts(rs: seq<QuestionResult>, g: Grouping)
    ensures DistinctKeys(TallyOf(rs, g))
    ensures forall i :: 0 <= i < |TallyOf(rs, g)| ==>
      TallyOf(rs, g)[i].total == CountKey(rs, g, TallyOf(rs, g)[i].key) &&
      TallyOf(rs, g)[i].correct == CountCorrectKey(rs, g, TallyOf(rs, g)[i].key)
    ensures forall k :: k in Keys(TallyOf(rs, g)) <==> CountKey(rs, g, k) > 0
  {
    TallyDistinct(rs, g);
    TallyKeys(rs, g);
    TallyEntries(rs, g);
  }

  lemma {:induction false} CorrectAtMostCount(rs: seq<QuestionResult>, g: Grouping, k: string)
    ensures CountCorrectKey(rs, g, k) <= CountKey(rs, g, k)
    decreases |rs|
  {
    if rs != [] {
      CorrectAtMostCount(rs[..|rs| - 1], g, k);
    }
  }

  lemma {:induction false} SumTotalsUpdate(t: seq<Tally>, i: nat, e: Tally)
    requires i < |t|
    ensures SumTotals(t[i := e]) == SumTotals(t) - t[i].total + e.total
    ensures SumCorrect(t[i := e]) == SumCorrect(t) - t[i].correct + e.correct
    decreases |t|
  {
    var n := |t| - 1;
    if i < n {
      SumTotalsUpdate(t[..n], i, e);
      assert t[i := e][..n] == t[..n][i := e];
    } else {
      assert t[i := e][..n] == t[..n];
    }
  }

  /** One bump adds one to the totals, and one to the correct answers when the result is correct. */
  lemma BumpSums(t: seq<Tally>, k: string, ok: bool)
    ensures SumTotals(Bump(t, k, ok)) == SumTotals(t) + 1
    ensures SumCorrect(Bump(t, k, ok)) == SumCorrect(t) + (if ok then 1 else 0)
  {
    var i := Find(t, k);
    var c := if ok then 1 else 0;
    if i < |t| {
      SumTotalsUpdate(t, i, Tally(k, t[i].correct + c, t[i].total + 1));
    } else {
      var b := t + [Tally(k, c, 1)];
      assert b[..|b| - 1] == t;
    }
  }

  /** The entries partition the results: totals add up to the number of results. */
  lemma {:induction false} TallySums(rs: seq<QuestionResult>, g: Grouping)
    ensures SumTotals(TallyOf(rs, g)) == |rs|
    ensures SumCorrect(TallyOf(rs, g)) == CorrectCount(rs)
    decreases |rs|
  {
    if rs != [] {
      var n := |rs| - 1;
      TallySums(rs[..n], g);
      BumpSums(TallyOf(rs[..n], g), KeyOf(g, rs[n]), rs[n].isCorrect);
    }
  }

  /**
   * The counting loop (`has`, `set`, then `get` and increment): one bump per result, so it
   * computes the tally.
   */
  method CountPerformance(results: seq<QuestionResult>, g: Grouping) returns (perf: seq<Tally>)
    ensures perf == TallyOf(results, g)
  {
    perf := [];
    for i := 0 to |results|
      invariant perf == TallyOf(results[..i], g)
    {
      assert results[..i + 1][..i] == results[..i];
      perf := Bump(perf, KeyOf(g, results[i]), results[i].isCorrect);
    }
    assert results[..|results|] == results;
  }
}
