/**
 Reading an amount out of free text: the first number the pattern
 [-+]?\d[\d,]*(?:\.\d+)? finds, without its commas, rounded to a float64.
 */
module Amounts {
  import opened Wrappers
  import opened Regexes
  import opened Decimals
  import opened Cells

  /** \.\d+ */
  const FRACTION := Then(One(Dot), Plus(Digit))

  /** \d[\d,]*(?:\.\d+)? */
  const UNSIGNED := Then(One(Digit), Then(Many(DigitOrComma), Maybe(FRACTION)))

  const AMOUNT := Then(Maybe(One(Sign)), UNSIGNED)

  // ---- A scanner for the pattern ----

  predicate IsDigitAt(s: string, i: nat) {
    i < |s| && In(Digit, s[i])
  }

  predicate IsSignAt(s: string, i: nat) {
    i < |s| && In(Sign, s[i])
  }

  /** Whether an amount starts at i. */
  predicate Starts(s: string, i: nat) {
    IsDigitAt(s, i) || (IsSignAt(s, i) && IsDigitAt(s, i + 1))
  }

  /** Where the unsigned amount whose first digit is at i ends. */
  function Stop(s: string, i: nat): (j: nat)
    requires i < |s| && In(Digit, s[i])
    ensures i < j <= |s|
  {
    var j := Run(DigitOrComma, s, i + 1);
    if j < |s| && s[j] == '.' && IsDigitAt(s, j + 1) then Run(Digit, s, j + 1) else j
  }

  function Scan(s: string, i: nat): (r: Option<(nat, nat)>)
    ensures r.Some? ==> i <= r.value.0 < r.value.1 <= |s|
    decreases |s| - i
  {
    if i >= |s| then None
    else if IsDigitAt(s, i) then Some((i, Stop(s, i)))
    else if Starts(s, i) then Some((i, Stop(s, i + 1)))
    else Scan(s, i + 1)
  }

  lemma {:induction false} ThroughFirst(re: Re, s: string, starts: seq<nat>)
    requires starts != [] && Ends(re, s, starts[0]) != []
    ensures Through(re, s, starts) != [] && Through(re, s, starts)[0] == Ends(re, s, starts[0])[0]
  {
  }

  lemma FractionEnds(s: string, j: nat)
    requires j <= |s|
    ensures Ends(Maybe(FRACTION), s, j) != []
    ensures Ends(Maybe(FRACTION), s, j)[0]
         == if j < |s| && s[j] == '.' && IsDigitAt(s, j + 1) then Run(Digit, s, j + 1) else j
  {
    if j < |s| && s[j] == '.' {
      assert Ends(One(Dot), s, j) == [j + 1];
      assert Ends(FRACTION, s, j) == Through(Plus(Digit), s, [j + 1]) == Ends(Plus(Digit), s, j + 1) + [];
      PlusIsRun(Digit, s, j + 1);
    } else {
      assert Ends(FRACTION, s, j) == [];
    }
  }

  lemma UnsignedEnds(s: string, i: nat)
    ensures !IsDigitAt(s, i) ==> Ends(UNSIGNED, s, i) == []
    ensures IsDigitAt(s, i) ==> Ends(UNSIGNED, s, i) != [] && Ends(UNSIGNED, s, i)[0] == Stop(s, i)
  {
    if IsDigitAt(s, i) {
      var rest := Then(Many(DigitOrComma), Maybe(FRACTION));
      ManyIsRun(DigitOrComma, s, i + 1);
      var j := Run(DigitOrComma, s, i + 1);
      FractionEnds(s, j);
      ThroughFirst(Maybe(FRACTION), s, Ends(Many(DigitOrComma), s, i + 1));
      assert Ends(One(Digit), s, i) == [i + 1];
      assert Ends(UNSIGNED, s, i) == Through(rest, s, [i + 1]);
      ThroughFirst(rest, s, [i + 1]);
    } else {
      assert Ends(One(Digit), s, i) == [];
    }
  }

  lemma AmountEnds(s: string, i: nat)
    ensures Ends(AMOUNT, s, i) != [] <==> Starts(s, i)
    ensures Starts(s, i) ==> Ends(AMOUNT, s, i)[0] == if IsDigitAt(s, i) then Stop(s, i) else Stop(s, i + 1)
  {
    UnsignedEnds(s, i);
    UnsignedEnds(s, i + 1);
    hide Stop;
    if IsSignAt(s, i) {
      assert Ends(Maybe(One(Sign)), s, i) == [i + 1, i];
      assert Ends(AMOUNT, s, i) == Through(UNSIGNED, s, [i + 1, i]);
      assert [i + 1, i][1..] == [i];
      assert Through(UNSIGNED, s, [i + 1, i]) == Ends(UNSIGNED, s, i + 1) + Through(UNSIGNED, s, [i]);
      assert Through(UNSIGNED, s, [i]) == Ends(UNSIGNED, s, i);
    } else {
      assert Ends(Maybe(One(Sign)), s, i) == [i];
      assert Ends(AMOUNT, s, i) == Through(UNSIGNED, s, [i]) == Ends(UNSIGNED, s, i);
    }
  }

  /** The scanner finds what the pattern finds. */
  lemma {:induction false} ScanIsTheRegex(s: string, i: nat)
    requires i <= |s|
    ensures Find(AMOUNT, s, i) == Scan(s, i)
    decreases |s| - i
  {
    hide Ends, Stop;
    AmountEnds(s, i);
    if i < |s| && !Starts(s, i) { ScanIsTheRegex(s, i + 1); }
  }

  // ---- The number ----

  /** d+ or d+.d+ */
  predicate UnsignedDecimal(u: string) {
    var k := Run(Digit, u, 0);
    && 0 < k
    && (k < |u| ==> u[k] == '.' && k + 1 < |u| && Run(Digit, u, k + 1) == |u|)
  }

  function Unsigned(t: string): string {
    if t != "" && In(Sign, t[0]) then t[1..] else t
  }

  /** What ParseFloat is given: an unsigned decimal, possibly after a sign. */
  predicate Decimal(t: string) {
    UnsignedDecimal(Unsigned(t))
  }

  /** A whole number and the digits after its point. */
  function Magnitude(whole: string, fraction: string): real
    requires Digits(whole) && Digits(fraction)
  {
    Value(whole) as real + Value(fraction) as real / Pow10(|fraction|) as real
  }

  function Size(u: string): real
    requires UnsignedDecimal(u)
  {
    var k := Run(Digit, u, 0);
    Magnitude(u[..k], if k < |u| then u[k + 1..] else "")
  }

  /** The number a decimal numeral denotes. */
  function Denoted(t: string): real
    requires Decimal(t)
  {
    if t[0] == '-' then -Size(Unsigned(t)) else Size(Unsigned(t))
  }

  /** The point and digits of a fraction, if there is one. */
  function Pointed(fraction: string): string {
    if fraction == "" then "" else "." + fraction
  }

  /** parseAmount; round is what ParseFloat makes of a number, if it is in range. */
  function ParseAmount(s: string, round: real -> Option<real>): Cell {
    match Scan(s, 0)
    case None => Text("")
    case Some(found) =>
      var t := WithoutCommas(s[found.0..found.1]);
      ScannedIsDecimal(s, 0);
      AmountCell(round(Denoted(t)))
  }

  /** The cell for a number: blank if it is out of range. */
  function AmountCell(rounded: Option<real>): Cell {
    match rounded
    case Some(x) => Number(Finite(x))
    case None => Text("")
  }

  lemma WithoutCommasParts(a: string, b: string, c: string)
    requires ',' !in a && ',' !in c
    ensures WithoutCommas(a + b + c) == a + WithoutCommas(b) + c
  {
    WithoutCommasConcat(a + b, c);
    WithoutCommasConcat(a, b);
    NoCommas(a);
    NoCommas(c);
  }

  /** sign, digits and commas, fraction: what is left without the commas is a decimal with that value. */
  lemma PartsDenote(sign: string, body: string, fraction: string)
    requires sign == "" || sign == "+" || sign == "-"
    requires body != "" && In(Digit, body[0]) && forall i :: 0 <= i < |body| ==> In(DigitOrComma, body[i])
    requires Digits(fraction)
    ensures var t := WithoutCommas(sign + body + Pointed(fraction));
            && Digits(WithoutCommas(body)) && Decimal(t)
            && var size := Magnitude(WithoutCommas(body), fraction);
               Denoted(t) == if sign == "-" then -size else size
  {
    DigitsLeft(body);
    WithoutCommasParts(sign, body, Pointed(fraction));
    assert WithoutCommas(body)[0] == body[0];
    hide WithoutCommas;
    DecimalParts(sign, WithoutCommas(body), fraction);
  }

  lemma WholeParts(digits: string)
    requires digits != "" && Digits(digits)
    ensures UnsignedDecimal(digits) && Size(digits) == Magnitude(digits, "")
  {
    hide Magnitude;
    RunIs(Digit, digits, 0, |digits|);
    assert digits[..|digits|] == digits;
  }

  lemma FractionParts(digits: string, fraction: string)
    requires digits != "" && Digits(digits) && fraction != "" && Digits(fraction)
    ensures var u := digits + ("." + fraction);
            UnsignedDecimal(u) && Size(u) == Magnitude(digits, fraction)
  {
    hide Magnitude, Run;
    var u, k := digits + ("." + fraction), |digits|;
    assert u[..k] == digits && u[k] == '.' && u[k + 1..] == fraction;
    assert forall i :: 0 <= i < k ==> u[i] == digits[i];
    assert forall i :: k + 1 <= i < |u| ==> u[i] == fraction[i - k - 1];
    RunIs(Digit, u, 0, k);
    RunIs(Digit, u, k + 1, |u|);
  }

  lemma UnsignedParts(digits: string, fraction: string)
    requires digits != "" && Digits(digits) && Digits(fraction)
    ensures var u := digits + Pointed(fraction);
            UnsignedDecimal(u) && Size(u) == Magnitude(digits, fraction)
  {
    hide Magnitude, UnsignedDecimal, Size;
    if fraction == "" {
      assert digits + "" == digits;
      WholeParts(digits);
    } else {
      FractionParts(digits, fraction);
    }
  }

  lemma DecimalParts(sign: string, digits: string, fraction: string)
    requires sign == "" || sign == "+" || sign == "-"
    requires digits != "" && Digits(digits) && Digits(fraction)
    ensures var t := sign + digits + Pointed(fraction);
            && Decimal(t)
            && Denoted(t) == if sign == "-" then -Magnitude(digits, fraction) else Magnitude(digits, fraction)
  {
    hide Magnitude, UnsignedDecimal, Size, Pointed;
    var u := digits + Pointed(fraction);
    var t := sign + digits + Pointed(fraction);
    assert t == sign + u;
    assert t[0] == (if sign == "" then digits[0] else sign[0]);
    assert Unsigned(t) == u;
    UnsignedParts(digits, fraction);
  }

  /** Whatever the scanner finds is a decimal numeral once its commas are gone. */
  lemma {:induction false} ScannedIsDecimal(s: string, i: nat)
    ensures Scan(s, i).Some? ==> var (b, e) := Scan(s, i).value; Decimal(WithoutCommas(s[b..e]))
    decreases |s| - i
  {
    if i < |s| {
      if IsDigitAt(s, i) {
        StopIsDecimal(s, i, i);
      } else if Starts(s, i) {
        StopIsDecimal(s, i, i + 1);
      } else {
        ScannedIsDecimal(s, i + 1);
      }
    }
  }

  /** What the scanner takes after a sign: digits and commas, then perhaps a point and digits. */
  lemma StopCuts(s: string, i: nat) returns (body: string, fraction: string)
    requires i < |s| && In(Digit, s[i])
    ensures s[i..Stop(s, i)] == body + Pointed(fraction)
    ensures body != "" && In(Digit, body[0]) && (forall k :: 0 <= k < |body| ==> In(DigitOrComma, body[k]))
    ensures Digits(fraction)
  {
    var j, e := Run(DigitOrComma, s, i + 1), Stop(s, i);
    body := s[i..j];
    fraction := if j < e then s[j + 1..e] else "";
    assert forall k :: 0 <= k < |body| ==> body[k] == s[i + k];
    assert forall k :: 0 <= k < |fraction| ==> fraction[k] == s[j + 1 + k];
    if j < e {
      assert s[i..e] == s[i..j] + s[j..e] && s[j..e] == "." + s[j + 1..e];
    }
  }

  lemma StopIsDecimal(s: string, b: nat, i: nat)
    requires b <= i < |s| && In(Digit, s[i]) && (b < i ==> i == b + 1 && In(Sign, s[b]))
    ensures Decimal(WithoutCommas(s[b..Stop(s, i)]))
  {
    hide Stop, Decimal, WithoutCommas, Pointed, Magnitude, Denoted, Run;
    var e := Stop(s, i);
    var body, fraction := StopCuts(s, i);
    assert s[b..e] == s[b..i] + s[i..e];
    var sign := s[b..i];
    if b == i { assert sign == ""; } else { assert sign == [s[b]]; }
    assert s[b..e] == sign + body + Pointed(fraction);
    PartsDenote(sign, body, fraction);
  }

  // ---- Round trip ----

  predicate NoDigits(s: string) {
    forall i :: 0 <= i < |s| ==> !In(Digit, s[i])
  }

  predicate EndsInSign(s: string) {
    s != "" && In(Sign, s[|s| - 1])
  }

  /** Digits and commas, a digit first. */
  predicate WholePart(s: string) {
    s != "" && In(Digit, s[0]) && forall i :: 0 <= i < |s| ==> In(DigitOrComma, s[i])
  }

  /** What follows a number does not continue it. */
  predicate Closes(fraction: string, suffix: string) {
    if fraction != "" then !IsDigitAt(suffix, 0)
    else !(suffix != "" && In(DigitOrComma, suffix[0])) && !(suffix != "" && suffix[0] == '.' && IsDigitAt(suffix, 1))
  }

  /** A text cut at its first number: what is before, sign, whole part, fraction digits if any, what is behind. */
  datatype Cut = Cut(prefix: string, sign: string, body: string, fraction: string, suffix: string) {
    predicate Valid() {
      && NoDigits(prefix) && (sign == "" ==> !EndsInSign(prefix))
      && (sign == "" || sign == "+" || sign == "-")
      && WholePart(body) && Digits(fraction) && Closes(fraction, suffix)
    }

    function Head(): string { prefix + sign }

    function Text(): string {
      Head() + body + Pointed(fraction) + suffix
    }

    function Amount(): real
      requires Digits(WithoutCommas(body)) && Digits(fraction)
    {
      var size := Value(WithoutCommas(body)) as real + Value(fraction) as real / Pow10(|fraction|) as real;
      if sign == "-" then -size else size
    }
  }

  /** Nothing before the sign or first digit looks like an amount. */
  lemma {:induction false} ScanSkips(s: string, i: nat, b: nat)
    requires i <= b < |s| && Starts(s, b)
    requires forall k :: i <= k < b ==> !In(Digit, s[k])
    requires i < b && IsDigitAt(s, b) ==> !In(Sign, s[b - 1])
    ensures Scan(s, i) == Scan(s, b)
    decreases b - i
  {
    if i < b { ScanSkips(s, i + 1, b); }
  }

  lemma StopAtFraction(s: string, head: string, body: string, fraction: string, suffix: string)
    requires s == head + body + ("." + fraction) + suffix && WholePart(body)
    requires fraction != "" && Digits(fraction) && Closes(fraction, suffix)
    ensures |head| < |s| && In(Digit, s[|head|])
    ensures s[|head|..Stop(s, |head|)] == body + ("." + fraction)
  {
    var i, j := |head|, |head + body|;
    var e := j + 1 + |fraction|;
    assert forall k :: i <= k < j ==> s[k] == body[k - i];
    assert s[j] == '.';
    assert forall k :: j + 1 <= k < e ==> s[k] == fraction[k - j - 1];
    assert e < |s| ==> s[e] == suffix[0];
    RunIs(DigitOrComma, s, i + 1, j);
    RunIs(Digit, s, j + 1, e);
    assert Stop(s, i) == e;
  }

  lemma StopAtWhole(s: string, head: string, body: string, suffix: string)
    requires s == head + body + suffix && WholePart(body) && Closes("", suffix)
    ensures |head| < |s| && In(Digit, s[|head|])
    ensures s[|head|..Stop(s, |head|)] == body
  {
    var i, j := |head|, |head + body|;
    assert forall k :: i <= k < j ==> s[k] == body[k - i];
    assert forall k :: j <= k < |s| ==> s[k] == suffix[k - j];
    RunIs(DigitOrComma, s, i + 1, j);
    assert Stop(s, i) == j;
  }

  /** Where the number of a cut text ends. */
  lemma StopsAtCut(p: Cut)
    requires p.Valid()
    ensures var s, i := p.Text(), |p.Head()|;
            i < |s| && In(Digit, s[i]) && s[i..Stop(s, i)] == p.body + Pointed(p.fraction)
  {
    hide Stop, WholePart, Closes;
    if p.fraction == "" {
      assert p.Head() + p.body + "" + p.suffix == p.Head() + p.body + p.suffix;
      assert p.body + "" == p.body;
      StopAtWhole(p.Text(), p.Head(), p.body, p.suffix);
    } else {
      StopAtFraction(p.Text(), p.Head(), p.body, p.fraction, p.suffix);
    }
  }

  lemma CutScans(p: Cut)
    requires p.Valid()
    ensures var s, i := p.Text(), |p.Head()|;
            i < |s| && In(Digit, s[i]) && Scan(s, 0) == Some((|p.prefix|, Stop(s, i)))
  {
    var s, b, i := p.Text(), |p.prefix|, |p.Head()|;
    assert forall k :: 0 <= k < i ==> s[k] == p.Head()[k];
    assert s[i] == p.body[0];
    hide Stop;
    assert p.sign != "" ==> i == b + 1 && s[b] == p.sign[0];
    ScanSkips(s, 0, b);
  }

  /** The amount in a text is the number at which it is cut, rounded. */
  lemma CutIsRead(p: Cut, round: real -> Option<real>)
    requires p.Valid()
    ensures Digits(WithoutCommas(p.body))
    ensures ParseAmount(p.Text(), round)
         == match round(p.Amount()) { case Some(x) => Number(Finite(x)) case None => Cell.Text("") }
  {
    hide Stop, Scan, Decimal, Denoted, Value, Pow10, WithoutCommas;
    var s, i := p.Text(), |p.Head()|;
    StopsAtCut(p);
    CutScans(p);
    var e := Stop(s, i);
    HeadCut(s, p.prefix, p.sign, e);
    assert s[|p.prefix|..e] == p.sign + p.body + Pointed(p.fraction);
    PartsDenote(p.sign, p.body, p.fraction);
  }

  lemma HeadCut(s: string, prefix: string, sign: string, e: nat)
    requires prefix + sign <= s && |prefix + sign| <= e <= |s|
    ensures s[|prefix|..e] == sign + s[|prefix + sign|..e]
  {
    assert s[..|prefix + sign|] == prefix + sign;
    assert s[|prefix|..|prefix + sign|] == sign;
  }

  /** The number whose first digit is at i, cut out. */
  lemma CutAt(s: string, i: nat) returns (body: string, fraction: string, suffix: string)
    requires i < |s| && In(Digit, s[i])
    ensures WholePart(body) && Digits(fraction) && Closes(fraction, suffix)
    ensures s[i..] == body + Pointed(fraction) + suffix
  {
    var j := Run(DigitOrComma, s, i + 1);
    body := s[i..j];
    assert forall k :: 0 <= k < |body| ==> body[k] == s[i + k];
    if j < |s| && s[j] == '.' && IsDigitAt(s, j + 1) {
      fraction, suffix := FractionAt(s, j);
      assert s[i..] == s[i..j] + s[j..];
      assert body + ("." + fraction + suffix) == body + ("." + fraction) + suffix;
    } else {
      fraction, suffix := "", s[j..];
      assert body + "" == body && s[i..] == s[i..j] + s[j..];
    }
  }

  lemma FractionAt(s: string, j: nat) returns (fraction: string, suffix: string)
    requires j < |s| && s[j] == '.' && IsDigitAt(s, j + 1)
    ensures fraction != "" && Digits(fraction) && Closes(fraction, suffix) && s[j..] == "." + fraction + suffix
  {
    var e := Run(Digit, s, j + 1);
    fraction, suffix := s[j + 1..e], s[e..];
    assert forall k :: 0 <= k < |fraction| ==> fraction[k] == s[j + 1 + k];
    assert s[j..] == [s[j]] + s[j + 1..e] + s[e..];
  }

  lemma {:induction false} FirstDigit(s: string, i: nat) returns (k: nat)
    requires i <= |s|
    ensures i <= k <= |s| && (forall n :: i <= n < k ==> !In(Digit, s[n])) && (k < |s| ==> In(Digit, s[k]))
    decreases |s| - i
  {
    if i == |s| || In(Digit, s[i]) { k := i; } else { k := FirstDigit(s, i + 1); }
  }

  /** What is before the first digit, split off its sign. */
  lemma HeadAt(s: string) returns (prefix: string, sign: string)
    requires NoDigits(s)
    ensures s == prefix + sign && NoDigits(prefix)
    ensures (sign == "" || sign == "+" || sign == "-") && (sign == "" ==> !EndsInSign(prefix))
  {
    if EndsInSign(s) {
      prefix, sign := s[..|s| - 1], [s[|s| - 1]];
    } else {
      prefix, sign := s, "";
    }
  }

  /** Every text with a digit has such a cut, so CutIsRead and NoAmount say what every text is read as. */
  lemma EveryTextIsCut(s: string) returns (p: Cut)
    ensures NoDigits(s) || (p.Valid() && p.Text() == s)
  {
    hide WholePart, Closes, EndsInSign, Pointed, Digits;
    var i := FirstDigit(s, 0);
    p := Cut("", "", "", "", "");
    if i < |s| {
      var body, fraction, suffix := CutAt(s, i);
      var prefix, sign := HeadAt(s[..i]);
      p := Cut(prefix, sign, body, fraction, suffix);
      assert s == s[..i] + s[i..];
      assert p.Text() == p.Head() + (body + Pointed(fraction) + suffix);
    }
  }

  /** A number in prose: prefix, sign, whole part with or without commas, fraction digits if any, suffix. */
  datatype Prose = Prose(
    prefix: string,
    sign: string,
    whole: nat,
    commas: bool,
    fraction: string,
    suffix: string
  ) {
    predicate Valid() {
      && NoDigits(prefix) && (sign == "" ==> !EndsInSign(prefix))
      && (sign == "" || sign == "+" || sign == "-")
      && Digits(fraction) && Closes(fraction, Rest())
    }

    function Body(): (s: string)
      ensures WholePart(s)
    {
      if commas then Grouped(whole) else Show(whole)
    }

    /** The suffix, without the commas that would count as part of a whole number. */
    function Rest(): string {
      if fraction == "" then suffix[Commas(suffix)..] else suffix
    }

    function Text(): string {
      prefix + sign + Body() + Pointed(fraction) + suffix
    }

    function Amount(): real
      requires Digits(fraction)
    {
      var size := whole as real + Value(fraction) as real / Pow10(|fraction|) as real;
      if sign == "-" then -size else size
    }
  }

  /** How many commas a text starts with. */
  function Commas(s: string): (k: nat)
    ensures k <= |s| && OnlyCommas(s[..k]) && (k < |s| ==> s[k] != ',')
  {
    if s == "" || s[0] != ',' then 0 else
    var k := 1 + Commas(s[1..]);
    assert s[..k] == [s[0]] + s[1..][..k - 1];
    k
  }

  predicate OnlyCommas(s: string) {
    forall k :: 0 <= k < |s| ==> s[k] == ','
  }

  lemma TextRegroups(head: string, body: string, commas: string, rest: string)
    ensures head + body + "" + (commas + rest) == head + (body + commas) + "" + rest
  {
  }

  lemma BodyWithCommas(body: string, commas: string)
    requires WholePart(body) && OnlyCommas(commas)
    ensures WholePart(body + commas)
  {
  }

  /** A number in prose as a cut text: commas right behind a whole number count as part of it. */
  lemma ProseIsCut(p: Prose) returns (cut: Cut, commas: string)
    requires p.Valid()
    ensures cut.Valid() && cut.Text() == p.Text()
    ensures OnlyCommas(commas) && cut.body == p.Body() + commas && cut.fraction == p.fraction && cut.sign == p.sign
  {
    hide Prose.Body, WholePart, Closes, NoDigits;
    commas := if p.fraction == "" then p.suffix[..Commas(p.suffix)] else "";
    cut := Cut(p.prefix, p.sign, p.Body() + commas, p.fraction, p.Rest());
    BodyWithCommas(p.Body(), commas);
    assert p.suffix == commas + p.Rest();
    if p.fraction == "" {
      TextRegroups(p.prefix + p.sign, p.Body(), commas, p.Rest());
    } else {
      assert p.Body() + "" == p.Body();
    }
  }

  /** The amount in a text is exactly the number written there, rounded, whatever comes behind it. */
  lemma AmountRoundTrip(p: Prose, round: real -> Option<real>)
    requires p.Valid()
    ensures ParseAmount(p.Text(), round) == AmountCell(round(p.Amount()))
  {
    hide ParseAmount, Value, Pow10, WithoutCommas, Prose.Body, Prose.Text, Cut.Text;
    var cut, commas := ProseIsCut(p);
    CutIsRead(cut, round);
    BodyValue(p, commas);
  }

  /** Trailing commas do not change a whole number, grouped or not. */
  lemma BodyValue(p: Prose, commas: string)
    requires OnlyCommas(commas)
    ensures var t := WithoutCommas(p.Body() + commas); Digits(t) && Value(t) == p.whole
  {
    hide Value, Grouped, Show;
    if p.commas {
      GroupedReadsBack(p.whole);
    } else {
      NoCommas(Show(p.whole));
      ShowReadsBack(p.whole);
    }
    WithoutCommasConcat(p.Body(), commas);
    CommasVanish(commas);
    assert WithoutCommas(p.Body()) + "" == WithoutCommas(p.Body());
  }

  lemma {:induction false} CommasVanish(s: string)
    requires OnlyCommas(s)
    ensures WithoutCommas(s) == ""
  {
    if s != "" { CommasVanish(s[1..]); }
  }

  /** Text without a digit has no amount. */
  lemma {:induction false} NoAmount(s: string, round: real -> Option<real>)
    requires NoDigits(s)
    ensures ParseAmount(s, round) == Text("")
  {
    ScanNothing(s, 0);
  }

  lemma {:induction false} ScanNothing(s: string, i: nat)
    requires NoDigits(s)
    ensures Scan(s, i) == None
    decreases |s| - i
  {
    if i < |s| { ScanNothing(s, i + 1); }
  }
}
