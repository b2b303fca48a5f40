/** The thousands separator of the trie benchmark. */
module DigitGrouping {

  function Digit(d: nat): char
    requires d < 10
  {
    "0123456789"[d]
  }

  function DigitValue(c: char): nat
    requires '0' <= c <= '9'
  {
    (c - '0') as nat
  }

  ghost predicate AllDigits(s: string) {
    forall i :: 0 <= i < |s| ==> '0' <= s[i] <= '9'
  }

  /** `to_string` of an unsigned number. */
  function Decimal(v: nat): (s: string)
    ensures |s| > 0
  {
    if v < 10 then [Digit(v)] else Decimal(v / 10) + [Digit(v % 10)]
  }

  function Value(s: string): nat
    requires AllDigits(s)
  {
    if s == "" then 0 else 10 * Value(s[..|s| - 1]) + DigitValue(s[|s| - 1])
  }

  lemma DigitRoundTrip(d: nat)
    requires d < 10
    ensures '0' <= Digit(d) <= '9' && DigitValue(Digit(d)) == d
  {
    assert d == 0 || d == 1 || d == 2 || d == 3 || d == 4 || d == 5 || d == 6 || d == 7 || d == 8 || d == 9;
  }

  lemma {:induction false} DecimalRoundTrip(v: nat)
    ensures AllDigits(Decimal(v)) && Value(Decimal(v)) == v
    decreases v
  {
    if v < 10 {
      DigitRoundTrip(v);
      assert [Digit(v)][..0] == "";
    } else {
      DecimalRoundTrip(v / 10);
      DigitRoundTrip(v % 10);
      var s := Decimal(v);
      assert s[..|s| - 1] == Decimal(v / 10);
    }
  }

  /** Digits without a superfluous zero in front. */
  ghost predicate Canonical(s: string) {
    |s| > 0 && AllDigits(s) && (|s| > 1 ==> s[0] != '0')
  }

  lemma {:induction false} CanonicalIsPositive(s: string)
    requires Canonical(s) && s[0] != '0'
    ensures Value(s) > 0
    decreases |s|
  {
    if |s| == 1 {
      assert s[..0] == "";
    } else {
      CanonicalIsPositive(s[..|s| - 1]);
    }
  }

  lemma DigitOfValue(c: char)
    requires '0' <= c <= '9'
    ensures DigitValue(c) < 10 && Digit(DigitValue(c)) == c
  {
    assert c == '0' || c == '1' || c == '2' || c == '3' || c == '4' || c == '5' || c == '6' || c == '7' || c == '8'
        || c == '9';
  }

  /** The decimal text is the only one without leading zeros that has the number's value. */
  lemma {:induction false} DecimalIsCanonical(v: nat, s: string)
    ensures Canonical(Decimal(v)) && (v > 0 ==> Decimal(v)[0] != '0')
    ensures Canonical(s) && Value(s) == v ==> s == Decimal(v)
    decreases v
  {
    DecimalRoundTrip(v);
    if v < 10 {
      DigitRoundTrip(v);
      assert v > 0 ==> Digit(v) != '0';
    } else {
      DecimalIsCanonical(v / 10, if |s| > 1 then s[..|s| - 1] else "");
      assert Decimal(v)[0] == Decimal(v / 10)[0];
    }
    if Canonical(s) && Value(s) == v {
      LastDigit(s);
    }
  }

  /** A canonical text is the text of a tenth of its value and the last digit. */
  lemma LastDigit(s: string)
    requires Canonical(s)
    ensures |s| == 1 ==> Value(s) < 10 && s == [Digit(Value(s))]
    ensures |s| > 1 ==>
              var front := s[..|s| - 1];
              && Canonical(front) && Value(s) >= 10 && Value(front) == Value(s) / 10
              && s == front + [Digit(Value(s) % 10)]
  {
    var front, last := s[..|s| - 1], s[|s| - 1];
    DigitOfValue(last);
    assert s == front + [last];
    if |s| == 1 {
      assert front == "" && Value(front) == 0;
    } else {
      CanonicalIsPositive(front);
    }
  }

  /** The text built from the last `n` digits of `s`: each digit is put in front, after a
      comma when its index from the right is a positive multiple of three. */
  function Grouped(s: string, n: nat): string
    requires n <= |s|
  {
    if n == 0 then ""
    else
      var idx := n - 1;
      [s[|s| - n]] + (if idx != 0 && idx % 3 == 0 then "," else "") + Grouped(s, idx)
  }

  function PrettyText(v: nat): string { Grouped(Decimal(v), |Decimal(v)|) }

  /** `pretty_print`: reversed digits, inserted one by one at the front. */
  method PrettyPrint(v: nat) returns (text: string)
    ensures text == PrettyText(v)
  {
    text := "";
    var digits := Decimal(v);
    for idx := 0 to |digits|
      invariant text == Grouped(digits, idx)
    {
      var val := digits[|digits| - 1 - idx];
      if idx != 0 && idx % 3 == 0 {
        text := [','] + text;
      }
      text := [val] + text;
    }
  }

  function StripCommas(s: string): string {
    if s == "" then ""
    else (if s[0] == ',' then "" else [s[0]]) + StripCommas(s[1..])
  }

  lemma {:induction false} StripGrouped(s: string, n: nat)
    requires AllDigits(s) && n <= |s|
    ensures StripCommas(Grouped(s, n)) == s[|s| - n..]
    decreases n
  {
    if n == 0 {
    } else {
      StripGrouped(s, n - 1);
      var rest := Grouped(s, n - 1);
      var c := s[|s| - n];
      var g := Grouped(s, n);
      assert g[0] == c;
      if n - 1 != 0 && (n - 1) % 3 == 0 {
        assert g[1..] == [','] + rest;
        assert g[1..][1..] == rest;
      } else {
        assert g[1..] == rest;
      }
      assert s[|s| - n..] == [c] + s[|s| - (n - 1)..];
    }
  }

  /** Length with one comma per full group beyond the first. */
  function GroupedLength(n: nat): nat { if n == 0 then 0 else n + (n - 1) / 3 }

  /** Counted from the right, commas stand exactly at every fourth place. */
  lemma {:induction false} CommasAtEveryFourthPlace(s: string, n: nat, j: nat)
    requires AllDigits(s) && n <= |s|
    ensures |Grouped(s, n)| == GroupedLength(n)
    ensures j < GroupedLength(n) ==> (Grouped(s, n)[GroupedLength(n) - 1 - j] == ',' <==> j % 4 == 3)
    decreases n
  {
    if n == 0 {
    } else {
      CommasAtEveryFourthPlace(s, n - 1, j);
      var rest, g := Grouped(s, n - 1), Grouped(s, n);
      assert |g| == GroupedLength(n);
      assert g[0] == s[|s| - n];
      if j < |rest| {
        assert g[|g| - 1 - j] == rest[|rest| - 1 - j];
      }
    }
  }

  /** Removing the commas gives back the decimal digits, and those the number. */
  lemma PrettyTextRoundTrip(v: nat)
    ensures StripCommas(PrettyText(v)) == Decimal(v)
    ensures AllDigits(Decimal(v)) && Value(Decimal(v)) == v
  {
    var s := Decimal(v);
    DecimalRoundTrip(v);
    StripGrouped(s, |s|);
    assert s[|s| - |s|..] == s;
  }

  /** No comma leads, and counted from the right they stand at every fourth place. */
  lemma PrettyTextCommas(v: nat, j: nat)
    ensures |PrettyText(v)| > 0 && PrettyText(v)[0] != ','
    ensures j < |PrettyText(v)| ==> (PrettyText(v)[|PrettyText(v)| - 1 - j] == ',' <==> j % 4 == 3)
  {
    var s := Decimal(v);
    DecimalRoundTrip(v);
    CommasAtEveryFourthPlace(s, |s|, j);
    assert Grouped(s, |s|)[0] == s[0];
  }

  lemma PrettyTextIsInjective(v: nat, w: nat)
    requires PrettyText(v) == PrettyText(w)
    ensures v == w
  {
    PrettyTextRoundTrip(v);
    PrettyTextRoundTrip(w);
  }
}
