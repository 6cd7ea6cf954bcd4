/**
 * The quiz page's navigator: the current question index, the answers given so far keyed by
 * question id, the flagged question ids and the moment the current question was opened.
 * Event handlers take the clock reading `now` (milliseconds) as a parameter.
 */
module Quiz {
  import opened Schema
  import opened Text

  /** `Math.floor((now - start) / 1000)`: whole seconds elapsed, rounded down. */
  function ElapsedSeconds(start: int, now: int): (s: int)
    ensures s * 1000 <= now - start < (s + 1) * 1000
  {
    (now - start) / 1000
  }

  /** `prev.get(id)?.time_spent || 0`. */
  function PreviousTime(answers: map<string, UserAnswer>, id: string): (t: int)
    ensures id !in answers ==> t == 0
    ensures id in answers ==> t == answers[id].timeSpent
  {
    if id in answers then answers[id].timeSpent else 0
  }

  /** The flag set after toggling `id`: removed when present, added when absent. */
  function FlipFlag(flags: set<string>, id: string): (r: set<string>)
    ensures id in r <==> id !in flags
    ensures forall x :: x != id ==> (x in r <==> x in flags)
  {
    if id in flags then flags - {id} else flags + {id}
  }

  /** Toggling the same question twice restores the flags. */
  lemma FlipFlagTwice(flags: set<string>, id: string)
    ensures FlipFlag(FlipFlag(flags, id), id) == flags
  {
    var once := FlipFlag(flags, id);
    var twice := FlipFlag(once, id);
    forall x
      ensures x in twice <==> x in flags
    {
      if x == id {
        assert (id in twice) == (id !in once) == (id in flags);
      }
    }
  }

  /** `formatTime`: minutes, a colon, then the seconds padded to two digits. */
  function FormatTime(seconds: nat): string
  {
    Decimal(seconds / 60) + ":" + PadTwo(Decimal(seconds % 60))
  }

  /** The seconds part of a clock reading is written with exactly two digits. */
  lemma TwoDigitSeconds(k: nat)
    requires k < 60
    ensures var p := PadTwo(Decimal(k));
      |p| == 2 && (forall i :: 0 <= i < 2 ==> IsDigit(p[i])) && DigitsValue(p, 10) == k
  {
    var p := PadTwo(Decimal(k));
    if k < 10 {
      assert p == ['0', DigitChar(k)];
      assert p[..1] == ['0'] && ['0'][..0] == [];
    } else {
      assert Decimal(k) == Decimal(k / 10) + [DigitChar(k % 10)];
      DecimalValue(k);
    }
  }

  /**
   * A formatted time reads back: it splits at the colon into a minutes part and a two-digit
   * seconds part below 60, and sixty times the minutes plus the seconds is the input.
   */
  lemma FormatTimeReadsBack(seconds: nat)
    ensures var parts := SplitOn(FormatTime(seconds), ':');
      && |parts| == 2
      && |parts[1]| == 2
      && DigitsValue(parts[1], 10) < 60
      && 60 * DigitsValue(parts[0], 10) + DigitsValue(parts[1], 10) == seconds
  {
    var m := Decimal(seconds / 60);
    var p := PadTwo(Decimal(seconds % 60));
    TwoDigitSeconds(seconds % 60);
    DecimalValue(seconds / 60);
    assert ':' !in m by {
      assert forall i :: 0 <= i < |m| ==> IsDigit(m[i]);
    }
    assert ':' !in p by {
      assert forall i :: 0 <= i < |p| ==> IsDigit(p[i]);
    }
    SplitOnCons(m, ':', p);
    SplitOnAbsent(p, ':');
    assert FormatTime(seconds) == m + [':'] + p;
  }

  class QuizSession {
    var questions: seq<Question>
    var index: nat
    var answers: map<string, UserAnswer>
    var flagged: set<string>
    /** When the current question was opened. */
    var startTime: int

    /** The index points at a question, or is 0 while there are none. */
    predicate Valid()
      reads this
    {
      index == 0 || index < |questions|
    }

    /** A fresh quiz over the loaded questions, on the first one, opened at `now`. */
    constructor(questions: seq<Question>, now: int)
      ensures this.questions == questions && index == 0 && answers == map[] && flagged == {} && startTime == now
      ensures Valid()
    {
      this.questions := questions;
      index := 0;
      answers := map[];
      flagged := {};
      startTime := now;
    }

    predicate HasCurrent()
      reads this
    {
      index < |questions|
    }

    function CurrentId(): string
      reads this
      requires HasCurrent()
    {
      questions[index].id
    }

    /**
     * `handleAnswer`: records `value` for the current question, adding the whole seconds
     * spent since it was opened to its earlier time, and restarts the question clock. With
     * no current question nothing changes.
     */
    method HandleAnswer(value: string, now: int)
      requires Valid()
      modifies this
      ensures Valid()
      ensures questions == old(questions) && index == old(index) && flagged == old(flagged)
      ensures old(HasCurrent()) ==>
        && answers == old(answers)[old(CurrentId()) :=
             UserAnswer(old(CurrentId()), value, PreviousTime(old(answers), old(CurrentId())) + ElapsedSeconds(old(startTime), now))]
        && startTime == now
      ensures !old(HasCurrent()) ==> answers == old(answers) && startTime == old(startTime)
    {
      if !HasCurrent() {
        return;
      }
      var id := CurrentId();
      var timeOnQuestion := ElapsedSeconds(startTime, now);
      answers := answers[id := UserAnswer(id, value, PreviousTime(answers, id) + timeOnQuestion)];
      startTime := now;
    }

    /** `handleNext`: moves forward unless on the last question, restarting the clock when it moves. */
    method HandleNext(now: int)
      requires Valid()
      modifies this
      ensures Valid()
      ensures questions == old(questions) && answers == old(answers) && flagged == old(flagged)
      ensures old(index) + 1 < |questions| ==> index == old(index) + 1 && startTime == now
      ensures old(index) + 1 >= |questions| ==> index == old(index) && startTime == old(startTime)
    {
      if index < |questions| - 1 {
        index := index + 1;
        startTime := now;
      }
    }

    /** `handlePrevious`: moves back unless on the first question, restarting the clock when it moves. */
    method HandlePrevious(now: int)
      requires Valid()
      modifies this
      ensures Valid()
      ensures questions == old(questions) && answers == old(answers) && flagged == old(flagged)
      ensures old(index) > 0 ==> index == old(index) - 1 && startTime == now
      ensures old(index) == 0 ==> index == 0 && startTime == old(startTime)
    {
      if index > 0 {
        index := index - 1;
        startTime := now;
      }
    }

    /** `handleToggleFlag`: flips whether the current question is flagged, and nothing else. */
    method HandleToggleFlag()
      requires Valid()
      modifies this
      ensures Valid()
      ensures questions == old(questions) && index == old(index) && answers == old(answers) && startTime == old(startTime)
      ensures old(HasCurrent()) ==> flagged == FlipFlag(old(flagged), old(CurrentId()))
      ensures !old(HasCurrent()) ==> flagged == old(flagged)
    {
      if !HasCurrent() {
        return;
      }
      flagged := FlipFlag(flagged, CurrentId());
    }

    /** A click on a question's button in the navigator: jumps there and restarts the clock. */
    method JumpTo(i: nat, now: int)
      requires Valid() && i < |questions|
      modifies this
      ensures Valid()
      ensures questions == old(questions) && answers == old(answers) && flagged == old(flagged)
      ensures index == i && startTime == now
    {
      index := i;
      startTime := now;
    }
  }
}
