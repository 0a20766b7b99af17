/** Decimal numerals: Python's `str` and `int` on integers. */
module Decimal {
  import opened Prelude
  import opened Chunking

  predicate IsDigit(c: char) { '0' <= c <= '9' }

  function DigitOf(d: nat): char
    requires d < 10
    ensures IsDigit(DigitOf(d))
  {
    '0' + d as char
  }

  function ValueOf(c: char): nat
    requires IsDigit(c)
  {
    c as int - '0' as int
  }

  function Print(n: nat): (s: string)
    ensures |s| > 0 && forall i :: 0 <= i < |s| ==> IsDigit(s[i])
  {
    if n < 10 then [DigitOf(n)] else Print(n / 10) + [DigitOf(n % 10)]
  }

  function PrintInt(i: int): string {
    if i < 0 then "-" + Print(-i) else Print(i)
  }

  function Digits(s: string): nat
    requires forall i :: 0 <= i < |s| ==> IsDigit(s[i])
  {
    if |s| == 0 then 0 else 10 * Digits(s[..|s| - 1]) + ValueOf(s[|s| - 1])
  }

  /** The body of a numeral: digits, with single underscores allowed between digits. */
  function Body(s: string): (digits: Option<string>)
    ensures digits.Some? ==> |digits.value| > 0 && forall i :: 0 <= i < |digits.value| ==> IsDigit(digits.value[i])
  {
    if |s| == 0 || !IsDigit(s[|s| - 1]) then None
    else if |s| == 1 then Some(s)
    else
      var before := Body(if s[|s| - 2] == '_' then s[..|s| - 2] else s[..|s| - 1]);
      if before.Some? then Some(before.value + [s[|s| - 1]]) else None
  }

  function Signed(s: string): Option<int> {
    var negative := |s| > 0 && s[0] == '-';
    var body := Body(if negative || (|s| > 0 && s[0] == '+') then s[1..] else s);
    if body.None? then None
    else
      var n: int := Digits(body.value);
      Some(if negative then -n else n)
  }

  /** `int` of a text: white space around it, a sign, and a body; anything else is refused. */
  function ParseInt(text: string): Option<int> {
    Signed(Strip(text))
  }

  lemma {:induction false} DigitsOfPrint(n: nat)
    ensures Digits(Print(n)) == n
  {
    if n < 10 {
      assert Digits([DigitOf(n)]) == 10 * Digits([]) + n;
    } else {
      DigitsOfPrint(n / 10);
      var s := Print(n);
      assert s[..|s| - 1] == Print(n / 10);
    }
  }

  /** A printed integer has a sign only if it is negative, and starts with a zero only if it is zero. */
  lemma {:induction false} PrintedPlainly(n: nat)
    ensures PrintInt(n) == Print(n) && (n > 0 ==> PrintInt(0 - n) == "-" + Print(n))
    ensures Print(n)[0] == '0' <==> n == 0
  {
    if n >= 10 {
      PrintedPlainly(n / 10);
    }
  }

  lemma {:induction false} BodyOfDigits(s: string)
    requires |s| > 0 && forall i :: 0 <= i < |s| ==> IsDigit(s[i])
    ensures Body(s) == Some(s)
  {
    if |s| > 1 {
      BodyOfDigits(s[..|s| - 1]);
      assert IsDigit(s[|s| - 2]);
      assert s == s[..|s| - 1] + [s[|s| - 1]];
    }
  }

  /** Reading a printed integer gives the integer. */
  lemma ParsePrint(i: int)
    ensures ParseInt(PrintInt(i)) == Some(i)
  {
    hide Strip, Digits, Body;
    var n := if i < 0 then -i else i;
    var digits := Print(n);
    var s := PrintInt(i);
    assert !IsSpace(s[0]) && !IsSpace(s[|s| - 1]) by {
      hide Print;
      assert IsDigit(digits[0]) && IsDigit(digits[|digits| - 1]);
    }
    hide IsSpace, Print;
    StripClean(s);
    assert i < 0 ==> s[1..] == digits;
    assert IsDigit(digits[0]);
    DigitsOfPrint(n);
    BodyOfDigits(digits);
  }

  predicate NumeralAt(s: string, i: int)
    requires 0 < i < |s| - 1
  {
    IsDigit(s[i]) || (s[i] == '_' && IsDigit(s[i - 1]) && IsDigit(s[i + 1]))
  }

  /** Digits, and underscores that stand between two digits. */
  ghost predicate Numeral(s: string) {
    && |s| > 0 && IsDigit(s[0]) && IsDigit(s[|s| - 1])
    && forall i :: 0 < i < |s| - 1 ==> NumeralAt(s, i)
  }

  lemma {:induction false} BodyIff(s: string)
    ensures Body(s).Some? <==> Numeral(s)
    decreases |s|
  {
    hide Numeral;
    if |s| > 1 && IsDigit(s[|s| - 1]) {
      var n := |s| - 1;
      var before := if s[n - 1] == '_' then s[..n - 1] else s[..n];
      BodyIff(before);
      NumeralNext(s);
    } else {
      ShortNumeral(s);
    }
  }

  lemma ShortNumeral(s: string)
    requires |s| <= 1 || !IsDigit(s[|s| - 1])
    ensures Numeral(s) <==> |s| == 1 && IsDigit(s[0])
  {
  }

  lemma NumeralNext(s: string)
    requires |s| > 1 && IsDigit(s[|s| - 1])
    ensures Numeral(s) <==> Numeral(if s[|s| - 2] == '_' then s[..|s| - 2] else s[..|s| - 1])
  {
    var n := |s| - 1;
    var t := if s[n - 1] == '_' then s[..n - 1] else s[..n];
    assert forall i :: 0 <= i < |t| ==> t[i] == s[i];
    if Numeral(s) {
      assert n - 1 > 0 ==> NumeralAt(s, n - 1);
      assert |t| > 0 && IsDigit(t[|t| - 1]);
      forall i | 0 < i < |t| - 1 ensures NumeralAt(t, i) {
        assert NumeralAt(s, i);
      }
    }
    if Numeral(t) {
      assert IsDigit(s[|t| - 1]) && s[0] == t[0];
      forall i | 0 < i < n ensures NumeralAt(s, i) {
        if i < |t| - 1 {
          assert NumeralAt(t, i);
        } else {
          assert i == |t| - 1 || i == n - 1;
        }
      }
    }
  }

  /** Which texts are numbers: those that are a numeral, with or without a sign, between white space. */
  lemma NumberIff(text: string)
    ensures var s := Strip(text);
            ParseInt(text).Some? <==> Numeral(s) || (|s| > 0 && s[0] in {'+', '-'} && Numeral(s[1..]))
  {
    hide Strip, Numeral, Body;
    var s := Strip(text);
    BodyIff(s);
    if |s| > 0 {
      BodyIff(s[1..]);
      if s[0] in {'+', '-'} {
        SignIsNoDigit(s);
      }
    }
  }

  lemma SignIsNoDigit(s: string)
    requires |s| > 0 && s[0] in {'+', '-'}
    ensures !Numeral(s)
  {
  }

  /** A numeral without its last digit, and without the underscore before it. */
  function Front(s: string): string
    requires |s| > 1
  {
    if s[|s| - 2] == '_' then s[..|s| - 2] else s[..|s| - 1]
  }

  lemma BodyLast(s: string)
    requires |s| > 0 && IsDigit(s[|s| - 1])
    ensures |s| == 1 ==> Body(s) == Some(s)
    ensures |s| > 1 ==> Body(s) == var before := Body(Front(s)); if before.Some? then Some(before.value + [s[|s| - 1]]) else None
  {
  }

  lemma BodyEnds(s: string)
    requires Body(s).Some?
    ensures |s| > 0 && IsDigit(s[|s| - 1])
  {
  }

  lemma FrontBetween(a: string, b: string)
    requires |b| > 0
    ensures |b| == 1 ==> Front(a + "_" + b) == a
    ensures |b| > 1 ==> Front(a + "_" + b) == a + "_" + Front(b)
  {
    var s := a + "_" + b;
    if |b| == 1 {
      assert s[|s| - 2] == '_' && s[..|s| - 2] == a;
    } else {
      assert s[|s| - 2] == b[|b| - 2];
      assert s[..|s| - 1] == a + "_" + b[..|b| - 1] && s[..|s| - 2] == a + "_" + b[..|b| - 2];
    }
  }

  /** An underscore between two numerals does not count. */
  lemma {:induction false} UnderscoreBetween(a: string, b: string)
    requires Body(a).Some? && Body(b).Some?
    ensures Body(a + "_" + b) == Some(Body(a).value + Body(b).value)
    decreases |b|
  {
    hide Body, Front, IsDigit;
    var s := a + "_" + b;
    BodyEnds(b);
    assert s[|s| - 1] == b[|b| - 1];
    BodyLast(s);
    BodyLast(b);
    FrontBetween(a, b);
    if |b| == 1 {
      assert b == [s[|s| - 1]];
    } else {
      var last := [b[|b| - 1]];
      ShorterFront(b);
      UnderscoreBetween(a, Front(b));
      assert Body(a).value + Body(Front(b)).value + last == Body(a).value + (Body(Front(b)).value + last);
    }
  }

  lemma ShorterFront(s: string)
    requires |s| > 1
    ensures |Front(s)| < |s|
  {
  }

  /** White space around a number does not matter. */
  lemma SpaceAround(w: string, s: string, v: string)
    requires AllWhite(w) && AllWhite(v) && NoWhite(s)
    ensures ParseInt(w + s + v) == Signed(s)
  {
    hide Strip, Signed;
    StripsWhite(w, s, v);
  }

  /** A plus sign does not matter either. */
  lemma SignedPrint(n: nat)
    ensures Signed(Print(n)) == Some(n) && Signed("+" + Print(n)) == Some(n) && Signed("-" + Print(n)) == Some(0 - n)
    ensures NoWhite(Print(n)) && NoWhite("+" + Print(n)) && NoWhite("-" + Print(n))
  {
    hide Digits, Body, Print;
    var s := Print(n);
    DigitsOfPrint(n);
    BodyOfDigits(s);
    assert ("+" + s)[1..] == s && ("-" + s)[1..] == s;
    assert IsDigit(s[0]);
    NoWhiteDigits(s);
  }

  lemma NoWhiteDigits(s: string)
    requires forall i :: 0 <= i < |s| ==> IsDigit(s[i])
    ensures NoWhite(s) && NoWhite("+" + s) && NoWhite("-" + s)
  {
  }

  lemma PrintInjective(m: nat, n: nat)
    requires Print(m) == Print(n)
    ensures m == n
  {
    DigitsOfPrint(m);
    DigitsOfPrint(n);
  }
}
