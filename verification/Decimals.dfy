/**
 Decimal numerals: printing, comma grouping, and reading back.
 */
module Decimals {
  import opened Regexes

  function Pow10(k: nat): (p: nat)
    ensures 1 <= p
  {
    if k == 0 then 1 else 10 * Pow10(k - 1)
  }

  predicate Digits(s: string) {
    forall i :: 0 <= i < |s| ==> In(Digit, s[i])
  }

  function DigitChar(d: nat): char
    requires d < 10
  {
    '0' + d as char
  }

  function Value(s: string): nat
    requires Digits(s)
  {
    if s == "" then 0 else 10 * Value(s[..|s| - 1]) + (s[|s| - 1] as int - '0' as int)
  }

  /** The decimal numeral of a natural number. */
  function Show(n: nat): (s: string)
    ensures s != "" && Digits(s)
  {
    if n < 10 then [DigitChar(n)] else Show(n / 10) + [DigitChar(n % 10)]
  }

  lemma {:induction false} ShowReadsBack(n: nat)
    ensures Value(Show(n)) == n
  {
    var s := Show(n);
    if n < 10 {
      assert s[..0] == "";
    } else {
      ShowReadsBack(n / 10);
      assert s[..|s| - 1] == Show(n / 10);
    }
  }

  lemma Tenfold(x: nat, p: nat)
    ensures x * (10 * p) == 10 * (x * p)
  {
  }

  lemma ValueSnoc(s: string, d: char)
    requires Digits(s) && In(Digit, d)
    ensures Digits(s + [d]) && Value(s + [d]) == 10 * Value(s) + (d as int - '0' as int)
  {
    assert (s + [d])[..|s|] == s;
  }

  lemma {:induction false} ValueConcat(a: string, b: string)
    requires Digits(a) && Digits(b)
    ensures Digits(a + b) && Value(a + b) == Value(a) * Pow10(|b|) + Value(b)
    decreases |b|
  {
    if b == "" {
      assert a + b == a;
    } else {
      var c, d := b[..|b| - 1], b[|b| - 1];
      assert b == c + [d] && a + b == (a + c) + [d];
      hide Value;
      ValueConcat(a, c);
      ValueSnoc(c, d);
      ValueSnoc(a + c, d);
      Tenfold(Value(a), Pow10(|c|));
    }
  }

  // ---- Grouping ----

  function Pad3(n: nat): (s: string)
    requires n < 1000
    ensures |s| == 3 && Digits(s)
  {
    [DigitChar(n / 100), DigitChar(n / 10 % 10), DigitChar(n % 10)]
  }

  lemma Pad3ReadsBack(n: nat)
    requires n < 1000
    ensures Value(Pad3(n)) == n
  {
    var s := Pad3(n);
    assert s[..2] == [s[0], s[1]];
    assert s[..2][..1] == [s[0]];
    assert s[..2][..1][..0] == "";
    assert Value([s[0]]) == n / 100;
    assert Value(s[..2]) == 10 * (n / 100) + n / 10 % 10;
    assert n / 100 == n / 10 / 10;
  }

  /** 1234567 as 1,234,567. */
  function Grouped(n: nat): (s: string)
    ensures s != "" && In(Digit, s[0]) && forall i :: 0 <= i < |s| ==> In(DigitOrComma, s[i])
  {
    if n < 1000 then Show(n) else Grouped(n / 1000) + "," + Pad3(n % 1000)
  }

  /** What is left when the commas are taken out. */
  function WithoutCommas(s: string): (t: string)
    ensures forall i :: 0 <= i < |t| ==> t[i] in s && t[i] != ','
  {
    if s == "" then "" else (if s[0] == ',' then "" else [s[0]]) + WithoutCommas(s[1..])
  }

  lemma {:induction false} WithoutCommasConcat(a: string, b: string)
    ensures WithoutCommas(a + b) == WithoutCommas(a) + WithoutCommas(b)
  {
    if a == "" {
      assert a + b == b;
    } else {
      assert (a + b)[0] == a[0] && (a + b)[1..] == a[1..] + b;
      WithoutCommasConcat(a[1..], b);
    }
  }

  lemma {:induction false} NoCommas(s: string)
    requires ',' !in s
    ensures WithoutCommas(s) == s
  {
    if s != "" { NoCommas(s[1..]); }
  }

  lemma {:induction false} DigitsLeft(s: string)
    requires forall i :: 0 <= i < |s| ==> In(DigitOrComma, s[i])
    ensures Digits(WithoutCommas(s))
  {
    if s != "" { DigitsLeft(s[1..]); }
  }

  /** Adding a group of three digits behind a comma. */
  lemma GroupAdds(high: string, upper: nat, low: nat)
    requires Digits(WithoutCommas(high)) && Value(WithoutCommas(high)) == upper && low < 1000
    ensures var t := WithoutCommas(high + "," + Pad3(low));
            Digits(t) && Value(t) == 1000 * upper + low
  {
    hide Value;
    var tail := Pad3(low);
    Pad3ReadsBack(low);
    NoCommas(tail);
    WithoutCommasConcat(high + ",", tail);
    WithoutCommasConcat(high, ",");
    assert WithoutCommas(",") == "";
    ValueConcat(WithoutCommas(high), tail);
    assert high + "," + tail == (high + ",") + tail;
    assert WithoutCommas(high) + "" == WithoutCommas(high);
    assert Pow10(3) == 1000 && |tail| == 3;
  }

  lemma {:induction false} GroupedReadsBack(n: nat)
    ensures Digits(WithoutCommas(Grouped(n))) && Value(WithoutCommas(Grouped(n))) == n
  {
    hide Value, WithoutCommas;
    if n < 1000 {
      NoCommas(Show(n));
      ShowReadsBack(n);
    } else {
      GroupedReadsBack(n / 1000);
      GroupAdds(Grouped(n / 1000), n / 1000, n % 1000);
    }
  }
}
