/**
 * ASCII abstractions of the string operations the programs rely on: `toLowerCase`, `trim`,
 * `includes`, `split`, `join`, the whitespace regexes, decimal formatting and JavaScript's
 * `parseInt`. Whitespace is the ASCII set space, tab, line feed, vertical tab, form feed and
 * carriage return; only the letters A-Z have case.
 */
module Text {
  import opened Wrappers

  predicate IsWhitespace(c: char) { c == ' ' || '\t' <= c <= '\r' }

  predicate IsDigit(c: char) { '0' <= c <= '9' }

  predicate IsAsciiLetter(c: char) { 'a' <= c <= 'z' || 'A' <= c <= 'Z' }

  predicate NoWhitespace(s: string) { forall i :: 0 <= i < |s| ==> !IsWhitespace(s[i]) }

  function Lower(c: char): char
  {
    if 'A' <= c <= 'Z' then (c as int + 32) as char else c
  }

  /** `toLowerCase` / `str.lower` on ASCII text. */
  function LowerStr(s: string): (r: string)
    ensures |r| == |s| && forall i :: 0 <= i < |s| ==> r[i] == Lower(s[i])
    decreases |s|
  {
    if s == [] then [] else [Lower(s[0])] + LowerStr(s[1..])
  }

  /** `trimStart()`: drop the leading whitespace. */
  function TrimStart(s: string): (r: string)
    ensures |r| <= |s|
    ensures r != [] ==> !IsWhitespace(r[0])
    decreases |s|
  {
    if s != [] && IsWhitespace(s[0]) then TrimStart(s[1..]) else s
  }

  /** `trimEnd()`: drop the trailing whitespace. */
  function TrimEnd(s: string): (r: string)
    ensures |r| <= |s|
    ensures r != [] ==> !IsWhitespace(r[|r| - 1])
    decreases |s|
  {
    if s != [] && IsWhitespace(s[|s| - 1]) then TrimEnd(s[..|s| - 1]) else s
  }

  /** `trim()` / `strip()`: drop leading and trailing whitespace. */
  function Trim(s: string): string
  {
    TrimEnd(TrimStart(s))
  }

  /** `s.includes(sub)`: `sub` occurs in `s` at some position. */
  predicate Contains(s: string, sub: string)
  {
    exists i :: 0 <= i <= |s| && sub <= s[i..]
  }

  /** Matching used by the lookups: either string contains the other. */
  predicate ContainsEither(a: string, b: string)
  {
    Contains(a, b) || Contains(b, a)
  }

  lemma ContainsSelf(s: string)
    ensures Contains(s, s)
  {
    assert s <= s[0..];
  }

  lemma ContainsEmpty(s: string)
    ensures Contains(s, "")
  {
    assert "" <= s[0..];
  }

  lemma ContainsSlice(s: string, a: nat, b: nat)
    requires a <= b <= |s|
    ensures Contains(s, s[a..b])
  {
    assert s[a..b] <= s[a..];
  }

  /** Length of the leading run of characters that are whitespace (`ws`) or not (`!ws`). */
  function RunLength(s: string, ws: bool): (k: nat)
    ensures k <= |s|
    ensures forall i :: 0 <= i < k ==> IsWhitespace(s[i]) == ws
    ensures k < |s| ==> IsWhitespace(s[k]) != ws
    decreases |s|
  {
    if s == [] || IsWhitespace(s[0]) != ws then 0 else 1 + RunLength(s[1..], ws)
  }

  /** Python's `str.split()`: the maximal runs of non-whitespace characters, in order. */
  function Words(s: string): (ws: seq<string>)
    ensures forall i :: 0 <= i < |ws| ==> ws[i] != [] && NoWhitespace(ws[i])
    decreases |s|
  {
    if s == [] then []
    else if IsWhitespace(s[0]) then Words(s[1..])
    else
      var k := RunLength(s, false);
      [s[..k]] + Words(s[k..])
  }

  /** `sep.join(ws)`. */
  function Join(ws: seq<string>, sep: string): string
    decreases |ws|
  {
    if ws == [] then [] else if |ws| == 1 then ws[0] else ws[0] + sep + Join(ws[1..], sep)
  }

  /** Every word of `s` is a substring of `s`. */
  lemma {:induction false} WordsContained(s: string)
    ensures forall i :: 0 <= i < |Words(s)| ==> Contains(s, Words(s)[i])
    decreases |s|
  {
    if s != [] {
      var k := if IsWhitespace(s[0]) then 1 else RunLength(s, false);
      WordsContained(s[k..]);
      forall i | 0 <= i < |Words(s)|
        ensures Contains(s, Words(s)[i])
      {
        var w := Words(s)[i];
        if !IsWhitespace(s[0]) && i == 0 {
          ContainsSlice(s, 0, k);
        } else {
          var j := if IsWhitespace(s[0]) then i else i - 1;
          assert w == Words(s[k..])[j];
          var p :| 0 <= p <= |s[k..]| && w <= s[k..][p..];
          assert s[k..][p..] == s[k + p..];
        }
      }
    }
  }

  lemma RunOfWord(w: string, t: string)
    requires w != [] && NoWhitespace(w)
    requires t == [] || IsWhitespace(t[0])
    ensures RunLength(w + t, false) == |w|
  {
    var k := RunLength(w + t, false);
    assert forall i :: 0 <= i < |w| ==> (w + t)[i] == w[i];
    assert |w| < |w + t| ==> (w + t)[|w|] == t[0];
  }

  /** Splitting what was joined with single spaces gives back the words. */
  lemma {:induction false} WordsOfJoin(ws: seq<string>)
    requires forall i :: 0 <= i < |ws| ==> ws[i] != [] && NoWhitespace(ws[i])
    ensures Words(Join(ws, " ")) == ws
    decreases |ws|
  {
    if |ws| == 1 {
      RunOfWord(ws[0], []);
      assert ws[0] + [] == ws[0];
      assert ws[0][..|ws[0]|] == ws[0];
      assert ws[0][|ws[0]|..] == [];
    } else if |ws| > 1 {
      var rest := Join(ws[1..], " ");
      var s := ws[0] + " " + rest;
      RunOfWord(ws[0], " " + rest);
      assert s == ws[0] + (" " + rest);
      assert s[..|ws[0]|] == ws[0];
      assert s[|ws[0]|..] == " " + rest;
      assert (" " + rest)[1..] == rest;
      WordsOfJoin(ws[1..]);
    }
  }

  /** `s.replace(/\s+/g, "_")`: each run of whitespace becomes one underscore. */
  function CollapseWhitespace(s: string): (r: string)
    ensures NoWhitespace(r)
    decreases |s|
  {
    if s == [] then []
    else if IsWhitespace(s[0]) then "_" + CollapseWhitespace(s[RunLength(s, true)..])
    else [s[0]] + CollapseWhitespace(s[1..])
  }

  lemma {:induction false} CollapseNoWhitespace(s: string)
    requires NoWhitespace(s)
    ensures CollapseWhitespace(s) == s
    decreases |s|
  {
    if s != [] {
      CollapseNoWhitespace(s[1..]);
    }
  }

  /** The leading whitespace run of `w + rest` is `w` when `rest` does not start with whitespace. */
  lemma {:induction false} RunLengthOfRun(w: string, rest: string)
    requires forall i :: 0 <= i < |w| ==> IsWhitespace(w[i])
    requires rest == [] || !IsWhitespace(rest[0])
    ensures RunLength(w + rest, true) == |w|
    decreases |w|
  {
    if w != [] {
      assert (w + rest)[1..] == w[1..] + rest;
      RunLengthOfRun(w[1..], rest);
    } else {
      assert w + rest == rest;
    }
  }

  /** A whole run of whitespace, however long, becomes a single underscore. */
  lemma CollapseRun(w: string, rest: string)
    requires w != [] && forall i :: 0 <= i < |w| ==> IsWhitespace(w[i])
    requires rest == [] || !IsWhitespace(rest[0])
    ensures CollapseWhitespace(w + rest) == "_" + CollapseWhitespace(rest)
  {
    RunLengthOfRun(w, rest);
    assert (w + rest)[|w|..] == rest;
  }

  /** `s.replace(/ /g, "_")`: each single space becomes an underscore. */
  function ReplaceSpaces(s: string): (r: string)
    ensures |r| == |s|
    ensures forall i :: 0 <= i < |s| ==> r[i] == if s[i] == ' ' then '_' else s[i]
  {
    seq(|s|, i requires 0 <= i < |s| => if s[i] == ' ' then '_' else s[i])
  }

  lemma ReplaceSpacesCons(s: string)
    requires s != []
    ensures ReplaceSpaces(s) == [if s[0] == ' ' then '_' else s[0]] + ReplaceSpaces(s[1..])
  {
    var r := ReplaceSpaces(s);
    assert r == [r[0]] + r[1..];
    assert r[1..] == ReplaceSpaces(s[1..]);
  }

  /** JavaScript's `s.split(c)` for a one-character separator: the pieces between separators. */
  function SplitOn(s: string, c: char): (parts: seq<string>)
    ensures |parts| >= 1
    ensures forall i :: 0 <= i < |parts| ==> c !in parts[i]
    decreases |s|
  {
    if s == [] then [""]
    else
      var rest := SplitOn(s[1..], c);
      if s[0] == c then [""] + rest else [[s[0]] + rest[0]] + rest[1..]
  }

  /** The first piece is everything before the first separator; the rest splits on its own. */
  lemma {:induction false} SplitOnCons(d: string, c: char, rest: string)
    requires c !in d
    ensures SplitOn(d + [c] + rest, c) == [d] + SplitOn(rest, c)
    decreases |d|
  {
    var s := d + [c] + rest;
    if d == [] {
      assert s[0] == c && s[1..] == rest;
    } else {
      assert s[1..] == d[1..] + [c] + rest;
      SplitOnCons(d[1..], c, rest);
      assert [d[0]] + d[1..] == d;
    }
  }

  /** A string without the separator is a single piece. */
  lemma {:induction false} SplitOnAbsent(s: string, c: char)
    requires c !in s
    ensures SplitOn(s, c) == [s]
    decreases |s|
  {
    if s != [] {
      SplitOnAbsent(s[1..], c);
      assert [s[0]] + s[1..] == s;
    }
  }

  /** Splitting what was joined with the separator gives back the pieces. */
  lemma {:induction false} SplitOnOfJoin(ps: seq<string>, c: char)
    requires ps != [] && forall i :: 0 <= i < |ps| ==> c !in ps[i]
    ensures SplitOn(Join(ps, [c]), c) == ps
    decreases |ps|
  {
    if |ps| == 1 {
      SplitOnAbsent(ps[0], c);
    } else {
      SplitOnOfJoin(ps[1..], c);
      SplitOnCons(ps[0], c, Join(ps[1..], [c]));
      assert [ps[0]] + ps[1..] == ps;
    }
  }

  lemma {:induction false} SplitOnJoin(s: string, c: char)
    ensures Join(SplitOn(s, c), [c]) == s
    decreases |s|
  {
    if s != [] {
      var rest := SplitOn(s[1..], c);
      SplitOnJoin(s[1..], c);
      if s[0] == c {
        assert SplitOn(s, c)[1..] == rest;
      } else {
        var parts := SplitOn(s, c);
        assert parts[1..] == rest[1..];
        if |rest| > 1 {
          assert rest == [rest[0]] + rest[1..];
          assert Join(rest, [c]) == rest[0] + [c] + Join(rest[1..], [c]);
        }
      }
    }
  }

  function DigitChar(d: nat): (c: char)
    requires d < 10
    ensures IsDigit(c)
  {
    ('0' as int + d) as char
  }

  /** Decimal notation of a natural number, as `String(n)` and `f"{n}"` print it. */
  function Decimal(n: nat): (s: string)
    ensures |s| >= 1 && forall i :: 0 <= i < |s| ==> IsDigit(s[i])
    decreases n
  {
    if n < 10 then [DigitChar(n)] else Decimal(n / 10) + [DigitChar(n % 10)]
  }

  /** Value of digit `c` in base 36 notation (letters of either case count 10 to 35). */
  function DigitValue(c: char): nat
  {
    if '0' <= c <= '9' then c as int - '0' as int
    else if 'a' <= c <= 'z' then c as int - 'a' as int + 10
    else if 'A' <= c <= 'Z' then c as int - 'A' as int + 10
    else 36
  }

  predicate IsRadixDigit(c: char, radix: nat) { DigitValue(c) < radix }

  /** Value of a string of digits in the given radix, most significant first. */
  function DigitsValue(s: string, radix: nat): nat
    decreases |s|
  {
    if s == [] then 0 else DigitsValue(s[..|s| - 1], radix) * radix + DigitValue(s[|s| - 1])
  }

  /** Length of the leading run of digits of the given radix. */
  function DigitRun(s: string, radix: nat): (k: nat)
    ensures k <= |s|
    ensures forall i :: 0 <= i < k ==> IsRadixDigit(s[i], radix)
    ensures k < |s| ==> !IsRadixDigit(s[k], radix)
    decreases |s|
  {
    if s == [] || !IsRadixDigit(s[0], radix) then 0 else 1 + DigitRun(s[1..], radix)
  }

  /** Reading back what `Decimal` wrote gives the number. */
  lemma {:induction false} DecimalValue(n: nat)
    ensures DigitsValue(Decimal(n), 10) == n
    decreases n
  {
    if n >= 10 {
      DecimalValue(n / 10);
      var s := Decimal(n);
      assert s[..|s| - 1] == Decimal(n / 10);
    }
  }

  lemma DecimalInjective(a: nat, b: nat)
    requires Decimal(a) == Decimal(b)
    ensures a == b
  {
    DecimalValue(a);
    DecimalValue(b);
  }

  /** The leading digits of `u` in the radix, or None when there are none (`NaN`). */
  function LeadingNumber(u: string, radix: nat): Option<nat>
  {
    var k := DigitRun(u, radix);
    if k == 0 then None else Some(DigitsValue(u[..k], radix))
  }

  /**
   * JavaScript's `parseInt(s)` without a radix: skip leading whitespace, read an optional sign,
   * then a `0x`/`0X` prefix switches to hexadecimal; the longest run of digits that follows is
   * the value, and no digit at all gives `NaN` (None).
   */
  function ParseInt(s: string): (r: Option<int>)
  {
    var t := TrimStart(s);
    var negative := t != [] && t[0] == '-';
    var u := if t != [] && (t[0] == '-' || t[0] == '+') then t[1..] else t;
    var magnitude :=
      if |u| >= 2 && u[0] == '0' && (u[1] == 'x' || u[1] == 'X') then LeadingNumber(u[2..], 16)
      else LeadingNumber(u, 10);
    match magnitude
    case None => None
    case Some(v) => Some(if negative then 0 - v as int else v as int)
  }

  lemma DecimalDigitRun(n: nat, rest: string)
    requires rest == [] || !IsDigit(rest[0])
    ensures DigitRun(Decimal(n) + rest, 10) == |Decimal(n)|
  {
    var d := Decimal(n);
    var k := DigitRun(d + rest, 10);
    assert forall i :: 0 <= i < |d| ==> (d + rest)[i] == d[i];
    assert |d| < |d + rest| ==> (d + rest)[|d|] == rest[0];
  }

  /** Only zero is written with a leading "0", and it is written as that one digit. */
  lemma {:induction false} DecimalLead(n: nat)
    ensures Decimal(n)[0] == '0' <==> n == 0
    ensures n == 0 ==> |Decimal(n)| == 1
    decreases n
  {
    if n >= 10 {
      DecimalLead(n / 10);
      assert Decimal(n)[0] == Decimal(n / 10)[0];
    }
  }

  /**
   * `parseInt` reads back a decimal number followed by anything that is not a digit, except
   * that "0" followed by x or X starts a hexadecimal literal.
   */
  lemma ParseIntDecimal(n: nat, rest: string)
    requires rest == [] || !IsDigit(rest[0])
    requires n == 0 && rest != [] ==> rest[0] != 'x' && rest[0] != 'X'
    ensures ParseInt(Decimal(n) + rest) == Some(n)
  {
    var d := Decimal(n);
    var s := d + rest;
    assert s[0] == d[0];
    assert TrimStart(s) == s;
    DecimalLead(n);
    DecimalDigitRun(n, rest);
    assert s[..|d|] == d;
    DecimalValue(n);
    assert LeadingNumber(s, 10) == Some(n);
    if |s| >= 2 && s[0] == '0' {
      assert s[1] == rest[0];
    }
  }

  /** A decimal followed by a non-digit starts with a digit, is not hexadecimal and reads back. */
  lemma DecimalMagnitude(n: nat, rest: string)
    requires rest == [] || !IsDigit(rest[0])
    requires n == 0 && rest != [] ==> rest[0] != 'x' && rest[0] != 'X'
    ensures var u := Decimal(n) + rest;
      && u != [] && IsDigit(u[0])
      && !(|u| >= 2 && u[0] == '0' && (u[1] == 'x' || u[1] == 'X'))
      && LeadingNumber(u, 10) == Some(n)
  {
    var d := Decimal(n);
    var u := d + rest;
    assert u[0] == d[0];
    DecimalLead(n);
    DecimalDigitRun(n, rest);
    assert u[..|d|] == d;
    DecimalValue(n);
    if |u| >= 2 && u[0] == '0' {
      assert u[1] == rest[0];
    }
  }

  /** `parseInt` reads a minus sign followed by a decimal back as the negated value. */
  lemma ParseIntNegative(n: nat, rest: string)
    requires rest == [] || !IsDigit(rest[0])
    requires n == 0 && rest != [] ==> rest[0] != 'x' && rest[0] != 'X'
    ensures ParseInt("-" + Decimal(n) + rest) == Some(0 - n)
  {
    DecimalMagnitude(n, rest);
    NegatedMagnitude(Decimal(n) + rest, n);
    assert "-" + Decimal(n) + rest == ['-'] + (Decimal(n) + rest);
  }

  /** After a minus sign, `parseInt` negates the decimal magnitude that follows. */
  lemma NegatedMagnitude(u: string, m: nat)
    requires u != [] && !(|u| >= 2 && u[0] == '0' && (u[1] == 'x' || u[1] == 'X'))
    requires LeadingNumber(u, 10) == Some(m)
    ensures ParseInt(['-'] + u) == Some(0 - m)
  {
    var s := ['-'] + u;
    assert TrimStart(s) == s;
    assert s[1..] == u;
  }

  /** `s.padStart(2, "0")`. */
  function PadTwo(s: string): (r: string)
    ensures |r| == if |s| < 2 then 2 else |s|
  {
    if |s| == 0 then "00" else if |s| == 1 then "0" + s else s
  }
}
