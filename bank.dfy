/**
 * The question repository's matching rule: a question is kept when it passes every
 * criterion that is present and non-empty; inside one criterion any listed value may match.
 */
module QuestionBank {
  import opened Wrappers
  import opened Text
  import opened Schema
  import Seqs

  /** Optional criteria; an absent list and an empty list both impose nothing. */
  datatype Filters = Filters(
    subjects: Option<seq<string>>,
    topics: Option<seq<string>>,
    difficulty: Option<seq<Difficulty>>,
    types: Option<seq<QuestionType>>)

  function Listed<T>(o: Option<seq<T>>): seq<T>
  {
    o.GetOr([])
  }

  /** Subjects are compared lowercased, with every whitespace run turned into `_`. */
  function NormalizeSubject(s: string): string
  {
    CollapseWhitespace(LowerStr(s))
  }

  predicate SubjectMatches(subject: string, wanted: string)
  {
    ContainsEither(NormalizeSubject(subject), NormalizeSubject(wanted))
  }

  /** Topics are compared lowercased only. */
  predicate TopicMatches(topic: string, wanted: string)
  {
    ContainsEither(LowerStr(topic), LowerStr(wanted))
  }

  predicate Keep(q: Question, f: Filters)
  {
    && (Listed(f.subjects) != [] ==> exists s :: s in Listed(f.subjects) && SubjectMatches(q.subject, s))
    && (Listed(f.topics) != [] ==> exists t :: t in Listed(f.topics) && TopicMatches(q.topic, t))
    && (Listed(f.difficulty) != [] ==> q.difficulty in Listed(f.difficulty))
    && (Listed(f.types) != [] ==> q.kind in Listed(f.types))
  }

  /** `getQuestionsByFilters`: the kept questions, in bank order. */
  function FilterBank(bank: seq<Question>, f: Filters): (r: seq<Question>)
    ensures forall i :: 0 <= i < |r| ==> r[i] in bank && Keep(r[i], f)
    ensures forall i :: 0 <= i < |bank| ==> (bank[i] in r <==> Keep(bank[i], f))
    ensures Seqs.IsSubsequence(r, bank)
  {
    Seqs.Filter(q => Keep(q, f), bank)
  }

  /** Each question of the bank comes back as often as it occurs there when it is kept, else never. */
  lemma FilterBankCounts(bank: seq<Question>, f: Filters)
    ensures forall q :: multiset(FilterBank(bank, f))[q] == if Keep(q, f) then multiset(bank)[q] else 0
  {
    Seqs.FilterCounts(q => Keep(q, f), bank);
  }

  predicate NoCriteria(f: Filters)
  {
    Listed(f.subjects) == [] && Listed(f.topics) == [] && Listed(f.difficulty) == [] && Listed(f.types) == []
  }

  /** With every criterion absent or empty the whole bank comes back unchanged. */
  lemma NoCriteriaKeepsAll(bank: seq<Question>, f: Filters)
    requires NoCriteria(f)
    ensures FilterBank(bank, f) == bank
  {
    Seqs.FilterAll(q => Keep(q, f), bank);
  }

  /** Every question is found by its own subject, topic, difficulty and type. */
  lemma OwnAttributesMatch(q: Question)
    ensures Keep(q, Filters(Some([q.subject]), Some([q.topic]), Some([q.difficulty]), Some([q.kind])))
  {
    ContainsSelf(NormalizeSubject(q.subject));
    ContainsSelf(LowerStr(q.topic));
    assert q.subject in [q.subject] && SubjectMatches(q.subject, q.subject);
    assert q.topic in [q.topic] && TopicMatches(q.topic, q.topic);
  }

  /** Every whitespace character is a space followed by a non-whitespace character. */
  predicate SingleSpaced(s: string)
  {
    forall i :: 0 <= i < |s| && IsWhitespace(s[i]) ==> s[i] == ' ' && i + 1 < |s| && !IsWhitespace(s[i + 1])
  }

  /**
   * For names whose words are separated by single spaces, collapsing whitespace runs and
   * replacing single spaces agree, so the library page's subject ids select the same names.
   */
  lemma {:induction false} SingleSpacedNormalization(s: string)
    requires SingleSpaced(s)
    ensures CollapseWhitespace(s) == ReplaceSpaces(s)
    decreases |s|
  {
    if s != [] {
      var t := s[1..];
      assert SingleSpaced(t) by {
        forall i | 0 <= i < |t| && IsWhitespace(t[i])
          ensures t[i] == ' ' && i + 1 < |t| && !IsWhitespace(t[i + 1])
        {
          assert t[i] == s[i + 1];
        }
      }
      SingleSpacedNormalization(t);
      ReplaceSpacesCons(s);
      if IsWhitespace(s[0]) {
        assert !IsWhitespace(t[0]);
        assert RunLength(t, true) == 0;
        assert RunLength(s, true) == 1;
      }
    }
  }
}
