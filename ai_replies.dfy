/**
 * The two parsers applied to the AI assistant's replies. The reply is an input: `None` stands
 * for a call that threw, `Some(text)` for the text it returned.
 */
module AiReplies {
  import opened Wrappers
  import opened Text
  import Seqs

  /** What `evaluateSubjectiveAnswer` returns. */
  datatype SubjectiveVerdict = SubjectiveVerdict(isCorrect: bool, feedback: string, score: int)

  const DefaultFeedback := "Answer evaluated"
  const UnavailableFeedback := "Unable to evaluate answer automatically"

  /** `parseInt(field) || 0`: the leading integer, with `NaN` read as 0. */
  function ScoreOf(field: string): int
  {
    match ParseInt(field)
    case None => 0
    case Some(v) => v
  }

  /**
   * A `SCORE|CORRECT|FEEDBACK` reply, read field by field: a missing correctness field counts
   * as "no", a missing or empty feedback field gives the default feedback, and a failed call
   * gives a fixed "incorrect, score 0" verdict.
   */
  function ParseVerdict(reply: Option<string>): (v: SubjectiveVerdict)
    ensures reply.None? ==> v == SubjectiveVerdict(false, UnavailableFeedback, 0)
    ensures reply.Some? ==> v.score == ScoreOf(SplitOn(reply.value, '|')[0])
    ensures reply.Some? && v.score >= 70 ==> v.isCorrect
    ensures v.feedback != ""
  {
    match reply
    case None => SubjectiveVerdict(false, UnavailableFeedback, 0)
    case Some(text) =>
      var parts := SplitOn(text, '|');
      var score := ScoreOf(parts[0]);
      var isCorrect := (|parts| > 1 && Contains(LowerStr(parts[1]), "yes")) || score >= 70;
      var feedback := if |parts| > 2 && parts[2] != "" then parts[2] else DefaultFeedback;
      SubjectiveVerdict(isCorrect, feedback, score)
  }

  /**
   * A reply in the requested format, `n|c|f` with no `|` inside `c` or `f`, is read as score
   * `n`, correct exactly when `c` says "yes" in any case or `n` is at least 70, and feedback
   * `f` unless `f` is empty.
   */
  lemma WellFormedVerdict(n: nat, c: string, f: string)
    requires '|' !in c && '|' !in f
    ensures var v := ParseVerdict(Some(Decimal(n) + "|" + c + "|" + f));
      && v.score == n
      && (v.isCorrect <==> Contains(LowerStr(c), "yes") || n >= 70)
      && v.feedback == if f == "" then DefaultFeedback else f
  {
    var d := Decimal(n);
    assert '|' !in d by {
      assert forall i :: 0 <= i < |d| ==> IsDigit(d[i]);
    }
    SplitOnCons(d, '|', c + "|" + f);
    SplitOnCons(c, '|', f);
    SplitOnAbsent(f, '|');
    assert d + "|" + c + "|" + f == d + ['|'] + (c + ['|'] + f);
    assert SplitOn(d + "|" + c + "|" + f, '|') == [d, c, f];
    ParseIntDecimal(n, "");
    assert d + "" == d;
  }

  /** The score is the leading number of the reply: digits up to the first non-digit. */
  lemma LeadingScore(n: nat, rest: string)
    requires rest == [] || !IsDigit(rest[0])
    requires n == 0 && rest != [] ==> rest[0] != 'x' && rest[0] != 'X'
    ensures ParseVerdict(Some(Decimal(n) + rest)).score == n
  {
    var d := Decimal(n);
    assert '|' !in d by {
      assert forall i :: 0 <= i < |d| ==> IsDigit(d[i]);
    }
    FirstPieceAppend(d, rest, '|');
    var tail := SplitOn(rest, '|')[0];
    FirstPieceIsPrefix(rest, '|');
    assert tail == [] || tail[0] == rest[0];
    ParseIntDecimal(n, tail);
  }

  /** Characters before the separator join the first piece. */
  lemma {:induction false} FirstPieceAppend(d: string, rest: string, c: char)
    requires c !in d
    ensures SplitOn(d + rest, c)[0] == d + SplitOn(rest, c)[0]
    decreases |d|
  {
    if d != [] {
      assert (d + rest)[0] == d[0] != c;
      assert (d + rest)[1..] == d[1..] + rest;
      assert c !in d[1..];
      FirstPieceAppend(d[1..], rest, c);
      assert [d[0]] + (d[1..] + SplitOn(rest, c)[0]) == d + SplitOn(rest, c)[0];
    } else {
      assert d + rest == rest;
    }
  }

  /** The first piece starts the string. */
  lemma {:induction false} FirstPieceIsPrefix(s: string, c: char)
    ensures SplitOn(s, c)[0] <= s
    decreases |s|
  {
    if s != [] {
      FirstPieceIsPrefix(s[1..], c);
    }
  }

  /** A reply without a correctness field is correct only by its score. */
  lemma ScoreOnlyVerdict(text: string)
    requires '|' !in text
    ensures var v := ParseVerdict(Some(text));
      && (v.isCorrect <==> ScoreOf(text) >= 70)
      && v.feedback == DefaultFeedback
  {
    SplitOnAbsent(text, '|');
  }

  // ---------------------------------------------------------------------------------------
  // Video recommendations

  predicate NonBlank(line: string)
  {
    Trim(line) != ""
  }

  /**
   * `recommendVideos`: at most the first three non-blank lines of the reply. When the call
   * fails, the fallback refers to an undefined variable and itself throws, so there is no
   * list at all (`None`).
   */
  function RecommendedTopics(reply: Option<string>): (r: Option<seq<string>>)
    ensures r.None? <==> reply.None?
    ensures r.Some? ==> |r.value| <= 3
    ensures r.Some? ==> forall i :: 0 <= i < |r.value| ==> NonBlank(r.value[i]) && '\n' !in r.value[i]
  {
    match reply
    case None => None
    case Some(text) => Some(Seqs.Take(Seqs.Filter(NonBlank, SplitOn(text, '\n')), 3))
  }

  /** A reply of non-blank lines yields its first three lines, in order. */
  lemma LinesRecommended(lines: seq<string>)
    requires lines != []
    requires forall i :: 0 <= i < |lines| ==> NonBlank(lines[i]) && '\n' !in lines[i]
    ensures RecommendedTopics(Some(Join(lines, "\n"))) == Some(Seqs.Take(lines, 3))
  {
    SplitOnOfJoin(lines, '\n');
    Seqs.FilterAll(NonBlank, lines);
  }

  /**
   * Any reply, given as its lines: the blank lines are skipped and the first three of the
   * remaining lines are kept, in order.
   */
  lemma NonBlankLinesRecommended(lines: seq<string>)
    requires lines != []
    requires forall i :: 0 <= i < |lines| ==> '\n' !in lines[i]
    ensures RecommendedTopics(Some(Join(lines, "\n"))) == Some(Seqs.Take(Seqs.Filter(NonBlank, lines), 3))
  {
    SplitOnOfJoin(lines, '\n');
  }
}
