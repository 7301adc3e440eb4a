/**
 A1 ranges: quoting a tab name, and recovering the row number from the range an
 append reports with the pattern [A-Z]+(\d+).
 */
module A1 {
  import opened Wrappers
  import opened Regexes
  import opened Decimals

  // ---- Quoting ----

  /** Every single quote written twice. */
  function Doubled(s: string): string {
    if s == "" then "" else (if s[0] == '\'' then "''" else [s[0]]) + Doubled(s[1..])
  }

  function A1Range(tab: string, cells: string): string {
    "'" + Doubled(tab) + "'!" + cells
  }

  /** Reads a quoted name after its opening quote: the name, and what follows the closing quote. */
  function Unquoted(s: string): Option<(string, string)> {
    if s == "" then None
    else if s[0] != '\'' then
      match Unquoted(s[1..])
      case Some(p) => Some(([s[0]] + p.0, p.1))
      case None => None
    else if |s| > 1 && s[1] == '\'' then
      match Unquoted(s[2..])
      case Some(p) => Some((['\''] + p.0, p.1))
      case None => None
    else Some(("", s[1..]))
  }

  /** A reader of A1 notation that knows about quotes. */
  function ReadRange(s: string): Option<(string, string)> {
    if s == "" || s[0] != '\'' then None else
    match Unquoted(s[1..])
    case Some(p) => if p.1 != "" && p.1[0] == '!' then Some((p.0, p.1[1..])) else None
    case None => None
  }

  lemma {:induction false} DoubledUnquotes(tab: string, rest: string)
    requires rest == "" || rest[0] != '\''
    ensures Unquoted(Doubled(tab) + ("'" + rest)) == Some((tab, rest))
  {
    var s := Doubled(tab) + ("'" + rest);
    if tab == "" {
      assert s == "'" + rest && s[1..] == rest;
    } else {
      DoubledUnquotes(tab[1..], rest);
      var t := Doubled(tab[1..]) + ("'" + rest);
      if tab[0] == '\'' {
        assert s == "''" + t && s[2..] == t;
      } else {
        assert s == [tab[0]] + t && s[1..] == t;
      }
      assert [tab[0]] + tab[1..] == tab;
    }
  }

  /** Every tab name and cell range can be read back from its quoted range. */
  lemma A1RoundTrip(tab: string, cells: string)
    ensures ReadRange(A1Range(tab, cells)) == Some((tab, cells))
  {
    var s := A1Range(tab, cells);
    DoubledUnquotes(tab, "!" + cells);
    assert s[1..] == Doubled(tab) + ("'" + ("!" + cells));
    assert ("!" + cells)[1..] == cells;
  }

  /** ... so two different tabs, or two different ranges, never share a range string. */
  lemma A1RangeInjective(tab: string, cells: string, tab': string, cells': string)
    requires A1Range(tab, cells) == A1Range(tab', cells')
    ensures tab == tab' && cells == cells'
  {
    A1RoundTrip(tab, cells);
    A1RoundTrip(tab', cells');
  }

  // ---- The row of an append ----

  const MAX_INT := 0x7fff_ffff_ffff_ffff

  /** The int a numeral reads as when errors are ignored: out of range it saturates. */
  function Atoi(s: string): nat
    requires Digits(s)
  {
    if Value(s) <= MAX_INT then Value(s) else MAX_INT
  }

  /** An upper-case letter directly followed by a digit, at k. */
  predicate PairAt(s: string, k: nat) {
    k + 1 < |s| && In(Upper, s[k]) && In(Digit, s[k + 1])
  }

  function FirstPair(s: string, i: nat): (r: Option<nat>)
    ensures r.Some? ==> i <= r.value && PairAt(s, r.value)
    decreases |s| - i
  {
    if i >= |s| then None else if PairAt(s, i) then Some(i) else FirstPair(s, i + 1)
  }

  lemma {:induction false} SplitConcat(b: Re, s: string, x: seq<nat>, y: seq<nat>)
    ensures Split(b, s, x + y) == if Split(b, s, x).Some? then Split(b, s, x) else Split(b, s, y)
  {
    if x == [] {
      assert x + y == y;
    } else {
      assert (x + y)[0] == x[0] && (x + y)[1..] == x[1..] + y;
      SplitConcat(b, s, x[1..], y);
    }
  }

  lemma SplitOne(s: string, i: nat)
    requires i <= |s|
    ensures Split(Plus(Digit), s, [i]) == if i < |s| && In(Digit, s[i]) then Some((i, Run(Digit, s, i))) else None
  {
    PlusIsRun(Digit, s, i);
    assert [i][1..] == [];
  }

  /** After letters only the end of their run can start the digits. */
  lemma {:induction false} SplitRun(s: string, i: nat)
    requires i <= |s|
    ensures var e := Run(Upper, s, i);
            Split(Plus(Digit), s, Ends(Many(Upper), s, i))
            == if e < |s| && In(Digit, s[e]) then Some((e, Run(Digit, s, e))) else None
    decreases |s| - i
  {
    SplitOne(s, i);
    if i < |s| && In(Upper, s[i]) {
      SplitRun(s, i + 1);
      SplitConcat(Plus(Digit), s, Ends(Many(Upper), s, i + 1), [i]);
    }
  }

  lemma PlusUpperEnds(s: string, i: nat)
    requires i < |s|
    ensures Ends(Plus(Upper), s, i) == if In(Upper, s[i]) then Ends(Many(Upper), s, i + 1) else []
  {
    if In(Upper, s[i]) {
      assert Ends(One(Upper), s, i) == [i + 1];
      assert Ends(Plus(Upper), s, i) == Through(Many(Upper), s, [i + 1]) == Ends(Many(Upper), s, i + 1) + [];
    }
  }

  /** Inside a run of letters the first pair is at the run's end. */
  lemma {:induction false} PairInRun(s: string, i: nat)
    requires i < |s| && In(Upper, s[i])
    ensures var e := Run(Upper, s, i + 1);
            && (e < |s| && In(Digit, s[e]) ==> FirstPair(s, i) == Some(e - 1))
            && (!(e < |s| && In(Digit, s[e])) ==> FirstPair(s, i) == FirstPair(s, i + 1))
    decreases |s| - i
  {
    if i + 1 < |s| && In(Upper, s[i + 1]) { PairInRun(s, i + 1); }
  }

  /** What the pattern captures: the digits after the first letter that a digit follows. */
  lemma {:induction false} GroupFollowsFirstPair(s: string, i: nat)
    requires i <= |s|
    ensures FindGroup(Plus(Upper), Plus(Digit), s, i)
         == match FirstPair(s, i) { case Some(k) => Some((k + 1, Run(Digit, s, k + 1))) case None => None }
    decreases |s| - i
  {
    if i < |s| {
      PlusUpperEnds(s, i);
      if In(Upper, s[i]) {
        SplitRun(s, i + 1);
        PairInRun(s, i);
      }
      GroupFollowsFirstPair(s, i + 1);
    } else {
      assert Ends(One(Upper), s, i) == [];
      assert Ends(Plus(Upper), s, i) == Through(Many(Upper), s, []) == [];
    }
  }

  lemma GroupIsDigits(s: string)
    ensures match FindGroup(Plus(Upper), Plus(Digit), s, 0)
            case Some(g) => g.0 < g.1 <= |s| && Digits(s[g.0..g.1])
            case None => true
  {
    GroupFollowsFirstPair(s, 0);
  }

  /** updatedRowNumber on the updatedRange of the response: 0 when nothing matches. */
  function RowNumber(s: string): nat {
    GroupIsDigits(s);
    match FindGroup(Plus(Upper), Plus(Digit), s, 0)
    case Some(g) => Atoi(s[g.0..g.1])
    case None => 0
  }

  /** A range in which no letter A-Z is directly followed by a digit gives no row. */
  lemma NoRowNumber(s: string)
    requires forall k :: 0 <= k < |s| - 1 ==> !('A' <= s[k] <= 'Z' && '0' <= s[k + 1] <= '9')
    ensures RowNumber(s) == 0
  {
    GroupFollowsFirstPair(s, 0);
    assert forall k: nat :: !PairAt(s, k);
  }

  /** Any other gives the number behind the first such letter, saturating. */
  lemma RowNumberAt(s: string, k: nat, e: nat)
    requires k + 1 < e <= |s| && 'A' <= s[k] <= 'Z'
    requires (forall i :: k < i < e ==> '0' <= s[i] <= '9') && (e < |s| ==> !('0' <= s[e] <= '9'))
    requires forall i :: 0 <= i < k ==> !('A' <= s[i] <= 'Z' && '0' <= s[i + 1] <= '9')
    ensures Digits(s[k + 1..e])
    ensures RowNumber(s) == if Value(s[k + 1..e]) <= MAX_INT then Value(s[k + 1..e]) else MAX_INT
  {
    hide Value;
    FirstPairIs(s, 0, k);
    RunIs(Digit, s, k + 1, e);
    GroupFollowsFirstPair(s, 0);
  }

  /** The cells an append of row n reports. */
  function RowCells(n: nat): string {
    "A" + Show(n) + ":D" + Show(n)
  }

  predicate HasPair(s: string) {
    FirstPair(s, 0).Some?
  }

  lemma {:induction false} FirstPairIs(s: string, i: nat, k: nat)
    requires i <= k && PairAt(s, k) && forall j :: i <= j < k ==> !PairAt(s, j)
    ensures FirstPair(s, i) == Some(k)
    decreases k - i
  {
    if i < k { FirstPairIs(s, i + 1, k); }
  }

  lemma {:induction false} NoPairBefore(s: string, i: nat, j: nat)
    requires i <= j && (FirstPair(s, i).Some? ==> j < FirstPair(s, i).value)
    ensures !PairAt(s, j)
    decreases j - i
  {
    if i < j && i < |s| { NoPairBefore(s, i + 1, j); }
  }

  /** A range whose sheet part, quoted or not, has no pair gives its row back, up to saturation. */
  lemma RowAfterPrefix(prefix: string, n: nat, rest: string)
    requires !HasPair(prefix) && (rest == "" || !In(Digit, rest[0]))
    ensures RowNumber(prefix + "A" + Show(n) + rest) == if n <= MAX_INT then n else MAX_INT
  {
    var s, k := prefix + "A" + Show(n) + rest, |prefix|;
    var digits := Show(n);
    assert s[k] == 'A';
    assert forall i :: k + 1 <= i < k + 1 + |digits| ==> s[i] == digits[i - k - 1];
    assert k + 1 + |digits| < |s| ==> s[k + 1 + |digits|] == rest[0];
    RunIs(Digit, s, k + 1, k + 1 + |digits|);
    forall j | 0 <= j < k ensures !PairAt(s, j) {
      NoPairBefore(prefix, 0, j);
      assert s[j] == prefix[j];
      assert j + 1 < k ==> s[j + 1] == prefix[j + 1];
    }
    FirstPairIs(s, 0, k);
    GroupFollowsFirstPair(s, 0);
    assert s[k + 1..k + 1 + |digits|] == digits;
    ShowReadsBack(n);
  }

  // ---- Exactly which tab names are safe ----

  /** A pair in a tab name stays one when its quotes are doubled, and no other appears. */
  lemma {:induction false} DoubledKeepsPairs(tab: string)
    ensures HasPair(Doubled(tab) + "'!") <==> HasPair(tab)
  {
    var d := Doubled(tab) + "'!";
    if tab == "" {
      assert d == "'!";
      FirstPairShift(d);
    } else {
      DoubledKeepsPairs(tab[1..]);
      FirstPairShift(tab);
      FirstPairShift(d);
      var rest := Doubled(tab[1..]) + "'!";
      if tab[0] == '\'' {
        assert d == "''" + rest && d[1..] == "'" + rest;
        FirstPairShift(d[1..]);
        assert d[1..][1..] == rest;
      } else {
        assert d == [tab[0]] + rest && d[1..] == rest;
        DoubledStarts(tab[1..]);
      }
    }
  }

  lemma DoubledStarts(s: string)
    ensures var d := Doubled(s) + "'!"; d[0] == if s == "" then '\'' else s[0]
  {
  }

  /** Having a pair, one character at a time. */
  lemma FirstPairShift(s: string)
    requires s != ""
    ensures HasPair(s) <==> PairAt(s, 0) || HasPair(s[1..])
  {
    PairsShift(s, 1);
  }

  lemma {:induction false} PairsShift(s: string, i: nat)
    requires 1 <= i <= |s|
    ensures FirstPair(s, i).Some? <==> FirstPair(s[1..], i - 1).Some?
    decreases |s| - i
  {
    if i < |s| { PairsShift(s, i + 1); }
  }

  /** The row number survives the trip for every row exactly if the tab name has no letter A-Z
      directly before a digit. */
  lemma RowNumberExactly(tab: string)
    ensures (forall n :: 0 < n <= MAX_INT ==> RowNumber(A1Range(tab, RowCells(n))) == n) <==> !HasPair(tab)
  {
    var prefix := "'" + Doubled(tab) + "'!";
    DoubledKeepsPairs(tab);
    assert prefix[1..] == Doubled(tab) + "'!";
    FirstPairShift(prefix);
    if !HasPair(tab) {
      forall n | 0 < n <= MAX_INT ensures RowNumber(A1Range(tab, RowCells(n))) == n {
        RowAfterPrefix(prefix, n, ":D" + Show(n));
        assert A1Range(tab, RowCells(n)) == prefix + "A" + Show(n) + (":D" + Show(n));
      }
    } else {
      PairDecides(prefix, RowCells(1), RowCells(2));
      assert A1Range(tab, RowCells(1)) == prefix + RowCells(1);
      assert A1Range(tab, RowCells(2)) == prefix + RowCells(2);
      assert RowNumber(A1Range(tab, RowCells(1))) == RowNumber(A1Range(tab, RowCells(2)));
    }
  }

  /** With a pair before the "!", what follows does not matter. */
  lemma PairDecides(prefix: string, x: string, y: string)
    requires HasPair(prefix) && prefix[|prefix| - 1] == '!'
    ensures RowNumber(prefix + x) == RowNumber(prefix + y)
  {
    PairFound(prefix, x);
    PairFound(prefix, y);
  }

  lemma PairFound(prefix: string, x: string)
    requires HasPair(prefix) && prefix[|prefix| - 1] == '!'
    ensures var k := FirstPair(prefix, 0).value + 1;
            k <= Run(Digit, prefix, k) <= |prefix| && RowNumber(prefix + x) == Atoi(prefix[k..Run(Digit, prefix, k)])
  {
    var s, k := prefix + x, FirstPair(prefix, 0).value;
    assert forall i :: 0 <= i < |prefix| ==> s[i] == prefix[i];
    forall j | 0 <= j < k ensures !PairAt(s, j) {
      NoPairBefore(prefix, 0, j);
    }
    FirstPairIs(s, 0, k);
    GroupFollowsFirstPair(s, 0);
    var e := Run(Digit, prefix, k + 1);
    RunIs(Digit, s, k + 1, e);
    assert s[k + 1..e] == prefix[k + 1..e];
  }
}
