/**
 * The practice page's configuration form: three selection lists toggled by clicks, the
 * question count typed by the user, the error messages shown under the form, and what
 * "Start test" stores for the quiz page.
 */
module Practice {
  import opened Wrappers
  import opened Text
  import opened Schema
  import Seqs

  /** `prev.includes(x) ? prev.filter(y => y !== x) : [...prev, x]`. */
  function Toggle<T(==, !new)>(xs: seq<T>, x: T): (r: seq<T>)
    ensures x in xs ==> x !in r
    ensures x !in xs ==> r == xs + [x]
    ensures forall y :: y != x ==> (y in r <==> y in xs)
  {
    if x in xs then Seqs.Filter(y => y != x, xs) else xs + [x]
  }

  predicate Distinct<T(==)>(xs: seq<T>)
  {
    forall i, j :: 0 <= i < j < |xs| ==> xs[i] != xs[j]
  }

  /** Removing `x` from a list that ends in the only `x` gives back what came before it. */
  lemma {:induction false} FilterOutLast<T>(xs: seq<T>, x: T)
    requires x !in xs
    ensures Seqs.Filter(y => y != x, xs + [x]) == xs
    decreases |xs|
  {
    if xs == [] {
      assert [x][1..] == [];
    } else {
      assert (xs + [x])[1..] == xs[1..] + [x];
      FilterOutLast(xs[1..], x);
      assert [xs[0]] + xs[1..] == xs;
    }
  }

  /** Filtering keeps a list duplicate-free. */
  lemma {:induction false} FilterDistinct<T>(p: T -> bool, xs: seq<T>)
    requires Distinct(xs)
    ensures Distinct(Seqs.Filter(p, xs))
    decreases |xs|
  {
    if xs != [] {
      assert Distinct(xs[1..]) by {
        forall i, j | 0 <= i < j < |xs[1..]|
          ensures xs[1..][i] != xs[1..][j]
        {
          assert xs[1..][i] == xs[i + 1] && xs[1..][j] == xs[j + 1];
        }
      }
      FilterDistinct(p, xs[1..]);
      var rest := Seqs.Filter(p, xs[1..]);
      assert xs[0] !in xs[1..];
    }
  }

  /** Toggling an absent entry twice restores the list exactly. */
  lemma ToggleTwice<T(!new)>(xs: seq<T>, x: T)
    requires x !in xs
    ensures Toggle(Toggle(xs, x), x) == xs
  {
    FilterOutLast(xs, x);
  }

  /** Toggling never puts a duplicate into a duplicate-free list. */
  lemma ToggleKeepsDistinct<T(!new)>(xs: seq<T>, x: T)
    requires Distinct(xs)
    ensures Distinct(Toggle(xs, x))
  {
    if x in xs {
      FilterDistinct(y => y != x, xs);
    }
  }

  /** `parseInt(value) || 1`: the typed count, with an unreadable or zero entry read as 1. */
  function CountFromInput(input: string): (n: int)
    ensures n != 0
    ensures ParseInt(input).None? ==> n == 1
    ensures ParseInt(input) == Some(0) ==> n == 1
    ensures ParseInt(input).Some? && ParseInt(input).value != 0 ==> n == ParseInt(input).value
  {
    match ParseInt(input)
    case None => 1
    case Some(v) => if v == 0 then 1 else v
  }

  /** A typed decimal number is taken as it is, except that 0 becomes 1. */
  lemma CountOfDecimal(k: nat)
    ensures CountFromInput(Decimal(k)) == if k == 0 then 1 else k
  {
    ParseIntDecimal(k, "");
    assert Decimal(k) + "" == Decimal(k);
  }

  /** A typed negative number is kept as it is, so the start check rejects it. */
  lemma CountOfNegative(k: nat)
    requires k > 0
    ensures CountFromInput("-" + Decimal(k)) == 0 - k
  {
    ParseIntNegative(k, "");
    assert "-" + Decimal(k) + "" == "-" + Decimal(k);
  }

  const SubjectsMessage := "Please select at least one subject"
  const CountMessage := "Number of questions must be between 1 and 100"

  /**
   * The `newErrors` dictionary of `handleStartTest`: a "subjects" message when no subject is
   * selected, a "numQuestions" message when the count is outside 1 to 100, and nothing else.
   */
  function StartErrors(subjects: seq<string>, count: int): (e: map<string, string>)
    ensures "subjects" in e <==> |subjects| == 0
    ensures "numQuestions" in e <==> count < 1 || count > 100
    ensures forall k :: k in e ==> k == "subjects" || k == "numQuestions"
  {
    var e0: map<string, string> := map[];
    var e1 := if |subjects| == 0 then e0["subjects" := SubjectsMessage] else e0;
    if count < 1 || count > 100 then e1["numQuestions" := CountMessage] else e1
  }

  /** The form is accepted exactly when the configuration it stores is a valid one. */
  lemma StartAcceptsValidConfigs(subjects: seq<string>, difficulty: seq<Difficulty>, count: int, types: seq<QuestionType>)
    ensures StartErrors(subjects, count) == map[] <==>
      count >= 0 && ValidConfig(TestConfig(subjects, None, Some(difficulty), count, Some(types)))
  {
    if StartErrors(subjects, count) == map[] {
      assert "subjects" !in StartErrors(subjects, count);
    }
  }

  class PracticeForm {
    var selectedSubjects: seq<string>
    var numQuestions: int
    var selectedDifficulty: seq<Difficulty>
    var selectedTypes: seq<QuestionType>
    var errors: map<string, string>
    /** The `current_test_config` entry of local storage. */
    var storedConfig: Option<TestConfig>
    /** Whether the page has moved on to the quiz. */
    var navigated: bool

    /** The form as first shown: no subject, 10 questions, medium difficulty, choice questions. */
    constructor(stored: Option<TestConfig>)
      ensures selectedSubjects == [] && numQuestions == 10
      ensures selectedDifficulty == [Medium] && selectedTypes == [MCQ]
      ensures errors == map[] && storedConfig == stored && !navigated
    {
      selectedSubjects := [];
      numQuestions := 10;
      selectedDifficulty := [Medium];
      selectedTypes := [MCQ];
      errors := map[];
      storedConfig := stored;
      navigated := false;
    }

    /** `handleSubjectToggle`: toggles the subject and blanks the subjects error. */
    method HandleSubjectToggle(subjectId: string)
      modifies this
      ensures selectedSubjects == Toggle(old(selectedSubjects), subjectId)
      ensures errors == old(errors)["subjects" := ""]
      ensures numQuestions == old(numQuestions) && selectedDifficulty == old(selectedDifficulty)
      ensures selectedTypes == old(selectedTypes) && storedConfig == old(storedConfig) && navigated == old(navigated)
    {
      selectedSubjects := Toggle(selectedSubjects, subjectId);
      errors := errors["subjects" := ""];
    }

    method HandleDifficultyToggle(d: Difficulty)
      modifies this
      ensures selectedDifficulty == Toggle(old(selectedDifficulty), d)
      ensures selectedSubjects == old(selectedSubjects) && numQuestions == old(numQuestions) && errors == old(errors)
      ensures selectedTypes == old(selectedTypes) && storedConfig == old(storedConfig) && navigated == old(navigated)
    {
      selectedDifficulty := Toggle(selectedDifficulty, d);
    }

    method HandleTypeToggle(t: QuestionType)
      modifies this
      ensures selectedTypes == Toggle(old(selectedTypes), t)
      ensures selectedSubjects == old(selectedSubjects) && numQuestions == old(numQuestions) && errors == old(errors)
      ensures selectedDifficulty == old(selectedDifficulty) && storedConfig == old(storedConfig) && navigated == old(navigated)
    {
      selectedTypes := Toggle(selectedTypes, t);
    }

    /** The count field's `onChange`: reads the count and blanks the count error. */
    method HandleCountInput(input: string)
      modifies this
      ensures numQuestions == CountFromInput(input)
      ensures errors == old(errors)["numQuestions" := ""]
      ensures selectedSubjects == old(selectedSubjects) && selectedDifficulty == old(selectedDifficulty)
      ensures selectedTypes == old(selectedTypes) && storedConfig == old(storedConfig) && navigated == old(navigated)
    {
      numQuestions := CountFromInput(input);
      errors := errors["numQuestions" := ""];
    }

    /**
     * `handleStartTest`: with any error, shows exactly those errors and stores nothing;
     * otherwise stores the selections verbatim as the configuration and goes to the quiz,
     * leaving the error messages as they were.
     */
    method HandleStartTest()
      modifies this
      ensures selectedSubjects == old(selectedSubjects) && numQuestions == old(numQuestions)
      ensures selectedDifficulty == old(selectedDifficulty) && selectedTypes == old(selectedTypes)
      ensures var e := StartErrors(old(selectedSubjects), old(numQuestions));
        && (e != map[] ==> errors == e && storedConfig == old(storedConfig) && navigated == old(navigated))
        && (e == map[] ==>
              && numQuestions >= 1
              && storedConfig == Some(TestConfig(selectedSubjects, None, Some(selectedDifficulty), numQuestions, Some(selectedTypes)))
              && navigated && errors == old(errors))
    {
      var newErrors: map<string, string> := map[];
      if |selectedSubjects| == 0 {
        newErrors := newErrors["subjects" := SubjectsMessage];
      }
      if numQuestions < 1 || numQuestions > 100 {
        newErrors := newErrors["numQuestions" := CountMessage];
      }
      if |newErrors| > 0 {
        errors := newErrors;
        return;
      }
      storedConfig := Some(TestConfig(selectedSubjects, None, Some(selectedDifficulty), numQuestions, Some(selectedTypes)));
      navigated := true;
    }
  }
}
