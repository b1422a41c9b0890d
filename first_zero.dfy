/** `task` (job_task/task_1.py): the index of the first `'0'` character of a
    string, or -1 when there is none, rendered as `"OUT: <index>"`. */
module FirstZero {

  /** `s.find(c)` for a one-character needle: the first index holding `c`, or -1. */
  function Find(s: string, c: char): (i: int)
    ensures -1 <= i < |s|
    ensures i >= 0 ==> s[i] == c
    ensures forall j :: 0 <= j < |s| && (i < 0 || j < i) ==> s[j] != c
    decreases |s|
  {
    if s == [] then -1
    else if s[0] == c then 0
    else
      var rest := Find(s[1..], c);
      if rest < 0 then -1 else rest + 1
  }

  predicate IsDigit(ch: char) {
    '0' <= ch <= '9'
  }

  function DigitChar(d: int): (ch: char)
    requires 0 <= d < 10
    ensures IsDigit(ch)
  {
    (48 + d) as char
  }

  function DigitValue(ch: char): (d: int)
    requires IsDigit(ch)
    ensures 0 <= d < 10
  {
    ch as int - 48
  }

  /** Decimal text of a natural number as Python prints it: no leading zeros. */
  function NatText(n: nat): (s: string)
    ensures CanonicalNatText(s)
    ensures n > 0 ==> s[0] != '0'
  {
    if n < 10 then [DigitChar(n)] else NatText(n / 10) + [DigitChar(n % 10)]
  }

  /** `str(n)` of an integer: a minus sign before the digits of a negative number. */
  function IntText(n: int): (s: string)
    ensures CanonicalIntText(s)
  {
    if n < 0 then
      var digits := NatText(-n);
      assert ("-" + digits)[1..] == digits;
      "-" + digits
    else NatText(n)
  }

  /** Digits only, at least one. */
  predicate IsNatText(s: string) {
    |s| >= 1 && forall k :: 0 <= k < |s| ==> IsDigit(s[k])
  }

  /** Reads back what `IntText` writes. */
  predicate IsIntText(s: string) {
    IsNatText(s) || (|s| >= 2 && s[0] == '-' && IsNatText(s[1..]))
  }

  /** Digits without a leading zero, unless the number is a single digit. */
  predicate CanonicalNatText(s: string) {
    IsNatText(s) && (|s| > 1 ==> s[0] != '0')
  }

  /** The only text Python writes for an integer: canonical digits, after a
      minus sign only when the number is not zero. */
  predicate CanonicalIntText(s: string) {
    CanonicalNatText(s) || (|s| >= 2 && s[0] == '-' && CanonicalNatText(s[1..]) && s[1] != '0')
  }

  function ParseNat(s: string): nat
    requires forall k :: 0 <= k < |s| ==> IsDigit(s[k])
  {
    if s == [] then 0 else ParseNat(s[..|s| - 1]) * 10 + DigitValue(s[|s| - 1])
  }

  function ParseInt(s: string): int
    requires IsIntText(s)
  {
    if IsNatText(s) then ParseNat(s) as int else -(ParseNat(s[1..]) as int)
  }

  lemma {:induction false} NatTextRoundTrip(n: nat)
    ensures ParseNat(NatText(n)) == n
  {
    if n >= 10 {
      var s := NatText(n);
      NatTextRoundTrip(n / 10);
      assert s[..|s| - 1] == NatText(n / 10);
    }
  }

  /** Reading the text of an integer gives the integer back. */
  lemma IntTextRoundTrip(n: int)
    ensures IsIntText(IntText(n))
    ensures ParseInt(IntText(n)) == n
  {
    if n < 0 {
      var s := IntText(n);
      assert s[1..] == NatText(-n);
      assert !IsNatText(s) by { assert !IsDigit(s[0]); }
      NatTextRoundTrip(-n);
    } else {
      NatTextRoundTrip(n);
    }
  }

  lemma {:induction false} LeadingDigitPositive(s: string)
    requires IsNatText(s) && s[0] != '0'
    ensures ParseNat(s) > 0
    decreases |s|
  {
    if |s| > 1 {
      var init := s[..|s| - 1];
      assert init[0] == s[0];
      LeadingDigitPositive(init);
    }
  }

  lemma {:induction false} CanonicalNatTextUnique(s: string, t: string)
    requires CanonicalNatText(s) && CanonicalNatText(t)
    requires ParseNat(s) == ParseNat(t)
    ensures s == t
    decreases |s|
  {
    if |s| == 1 && |t| == 1 {
      assert s == [s[0]] && t == [t[0]];
    } else if |s| == 1 {
      LeadingDigitPositive(t[..|t| - 1]);
      assert false;
    } else if |t| == 1 {
      LeadingDigitPositive(s[..|s| - 1]);
      assert false;
    } else {
      var si, ti := s[..|s| - 1], t[..|t| - 1];
      assert si[0] == s[0] && ti[0] == t[0];
      var ds, dt := DigitValue(s[|s| - 1]), DigitValue(t[|t| - 1]);
      assert ParseNat(s) == ParseNat(si) * 10 + ds;
      assert ParseNat(t) == ParseNat(ti) * 10 + dt;
      assert ds == dt && ParseNat(si) == ParseNat(ti);
      CanonicalNatTextUnique(si, ti);
      assert s == si + [s[|s| - 1]] && t == ti + [t[|t| - 1]];
    }
  }

  /** An integer has exactly one canonical text: the one `IntText` writes. */
  lemma CanonicalIntTextUnique(s: string, t: string)
    requires CanonicalIntText(s) && CanonicalIntText(t)
    requires ParseInt(s) == ParseInt(t)
    ensures s == t
  {
    if CanonicalNatText(s) && CanonicalNatText(t) {
      CanonicalNatTextUnique(s, t);
    } else if CanonicalNatText(s) {
      assert !IsNatText(t) by { assert !IsDigit(t[0]); }
      assert t[1..][0] == t[1];
      LeadingDigitPositive(t[1..]);
      assert false;
    } else if CanonicalNatText(t) {
      assert !IsNatText(s) by { assert !IsDigit(s[0]); }
      assert s[1..][0] == s[1];
      LeadingDigitPositive(s[1..]);
      assert false;
    } else {
      assert !IsNatText(s) by { assert !IsDigit(s[0]); }
      assert !IsNatText(t) by { assert !IsDigit(t[0]); }
      CanonicalNatTextUnique(s[1..], t[1..]);
      assert s == [s[0]] + s[1..] && t == [t[0]] + t[1..];
    }
  }

  /** `task`: `"OUT: "` and the text of the index of the first `'0'`, -1 when
      there is none. The parameter `array` is called `text` here, `array`
      being a Dafny keyword. */
  function Task(text: string): (r: string)
    ensures |r| > 5 && r[..5] == "OUT: " && IsIntText(r[5..]) && CanonicalIntText(r[5..])
    ensures var i := ParseInt(r[5..]);
      -1 <= i < |text| &&
      (i >= 0 ==> text[i] == '0') &&
      (forall j :: 0 <= j < |text| && (i < 0 || j < i) ==> text[j] != '0')
  {
    var index := Find(text, '0');
    IntTextRoundTrip(index);
    var r := "OUT: " + IntText(index);
    assert r[5..] == IntText(index);
    r
  }
}
