/**
 * The per-type correctness rule of the answer evaluator. Both sides are lowercased and
 * trimmed first; choice and fill-in answers must then be equal, short answers must contain
 * one another, and long answers must mention at least half of the canonical answer's
 * keywords (its words longer than three characters).
 */
module Grading {
  import opened Text
  import opened Schema
  import Seqs

  function Normalize(s: string): string
  {
    Trim(LowerStr(s))
  }

  /**
   * The keywords of a normalized canonical answer. The source splits on `/\s+/`, which on a
   * trimmed string yields its words, or the single piece "" for an empty string; the length
   * filter drops that piece, so the words of the string give the same keywords.
   */
  function Keywords(canonical: string): seq<string>
  {
    Seqs.Filter(w => |w| > 3, Words(canonical))
  }

  /** Keywords found as substrings of the answer, repeated keywords counted each time. */
  function MatchedKeywords(keywords: seq<string>, answer: string): seq<string>
  {
    Seqs.Filter(kw => Contains(answer, kw), keywords)
  }

  predicate IsAnswerCorrect(q: Question, userAnswer: string)
  {
    var u := Normalize(userAnswer);
    var c := Normalize(q.answer);
    match q.kind
    case MCQ => u == c
    case FillInBlank => u == c
    case ShortAnswer => Contains(u, c) || Contains(c, u)
    case LongAnswer =>
      var keywords := Keywords(c);
      |MatchedKeywords(keywords, u)| as real >= |keywords| as real * 0.5
  }

  /** The 50% keyword rule in integer form. */
  lemma LongAnswerRule(q: Question, userAnswer: string)
    requires q.kind == LongAnswer
    ensures var keywords := Keywords(Normalize(q.answer));
            IsAnswerCorrect(q, userAnswer) <==> 2 * |MatchedKeywords(keywords, Normalize(userAnswer))| >= |keywords|
  {
  }

  /** Submitting the canonical answer itself is judged correct for every question type. */
  lemma VerbatimIsCorrect(q: Question)
    ensures IsAnswerCorrect(q, q.answer)
  {
    var c := Normalize(q.answer);
    ContainsSelf(c);
    if q.kind == LongAnswer {
      var keywords := Keywords(c);
      WordsContained(c);
      forall i | 0 <= i < |keywords|
        ensures Contains(c, keywords[i])
      {
        assert keywords[i] in Words(c);
      }
      Seqs.FilterAll(kw => Contains(c, kw), keywords);
    }
  }

  /** An empty (or blank) short answer is contained in every canonical answer, so it is correct. */
  lemma EmptyShortAnswerIsCorrect(q: Question, blank: string)
    requires q.kind == ShortAnswer && Normalize(blank) == ""
    ensures IsAnswerCorrect(q, blank)
  {
    ContainsEmpty(Normalize(q.answer));
  }

  /** A long canonical answer without any word over three characters accepts every answer. */
  lemma NoKeywordsAcceptsAll(q: Question, userAnswer: string)
    requires q.kind == LongAnswer && Keywords(Normalize(q.answer)) == []
    ensures IsAnswerCorrect(q, userAnswer)
  {
  }

  /** Choice and fill-in answers are correct exactly when they normalize to the canonical one. */
  lemma ExactKinds(q: Question, userAnswer: string)
    requires q.kind == MCQ || q.kind == FillInBlank
    ensures IsAnswerCorrect(q, userAnswer) <==> Normalize(userAnswer) == Normalize(q.answer)
  {
  }

  /** A blank choice or fill-in answer is wrong whenever the canonical answer is not blank. */
  lemma BlankExactAnswerIsWrong(q: Question)
    requires q.kind == MCQ || q.kind == FillInBlank
    requires Normalize(q.answer) != ""
    ensures !IsAnswerCorrect(q, "")
  {
    assert LowerStr("") == "";
  }
}
