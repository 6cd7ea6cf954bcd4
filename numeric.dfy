/** Exact arithmetic for the percentages and means the programs compute in floating point. */
module Numeric {

  /** `(part / whole) * 100`, computed exactly. */
  function Percent(part: int, whole: int): real
    requires whole != 0
  {
    (part as real / whole as real) * 100.0
  }

  /** A percentage threshold is a linear inequality between the counts. */
  lemma PercentAtLeast(part: int, whole: int, k: int)
    requires whole > 0
    ensures Percent(part, whole) >= k as real <==> 100 * part >= k * whole
  {
    var q := part as real / whole as real;
    assert q * whole as real == part as real;
    if 100 * part >= k * whole {
      assert (q * 100.0) * whole as real >= k as real * whole as real;
    } else {
      assert (q * 100.0) * whole as real < k as real * whole as real;
    }
  }

  lemma PercentRange(part: int, whole: int)
    requires 0 <= part <= whole && whole > 0
    ensures 0.0 <= Percent(part, whole) <= 100.0
    ensures Percent(part, whole) == 100.0 <==> part == whole
  {
    PercentAtLeast(part, whole, 0);
    PercentAtLeast(part, whole, 100);
    PercentAtLeast(part, whole, 101);
    var q := part as real / whole as real;
    assert q * whole as real == part as real;
  }

  function SumReals(s: seq<real>): real
    decreases |s|
  {
    if s == [] then 0.0 else SumReals(s[..|s| - 1]) + s[|s| - 1]
  }

  /** The unweighted arithmetic mean. */
  function Mean(s: seq<real>): real
    requires |s| > 0
  {
    SumReals(s) / |s| as real
  }

  /** Appending one value moves the mean by its share of the difference. */
  lemma MeanAppend(s: seq<real>, x: real)
    requires |s| > 0
    ensures Mean(s + [x]) == (Mean(s) * |s| as real + x) / (|s| + 1) as real
  {
    assert (s + [x])[..|s|] == s;
    var n := |s| as real;
    assert Mean(s) * n == SumReals(s);
  }
}
