/**
 The rows the gateway exports: date serial, type, amount, comments; and exactly
 when such a row is recognised on the next read.
 */
module BuiltRows {
  import opened Wrappers
  import opened Regexes
  import opened Decimals
  import opened Cells
  import opened SheetExport
  import opened SheetTheorems
  import Amounts
  import Dates

  /** BuildRow on a parsed date and an already capitalised category. */
  function BuildRow(lib: Strconv, date: Dates.Date, price: string, place: string, category: string): Row
    requires date.Valid()
  {
    [
      Number(Finite(Dates.DateSerial(date) as real)),
      Text(category),
      Amounts.ParseAmount(price, lib.round),
      Text(place)
    ]
  }

  predicate Whole(x: real) {
    x == x.Floor as real
  }

  /** Whole numbers as large as a serial can be are float64 values. */
  ghost predicate HoldsSerials(lib: Strconv) {
    forall x: real :: Whole(x) && -(Dates.LIMIT as real) <= x <= Dates.LIMIT as real ==> lib.float64(x)
  }

  lemma AmountIsJson(lib: Strconv, price: string)
    requires Lawful(lib)
    ensures var cell := Amounts.ParseAmount(price, lib.round);
            Json(lib, cell) && (cell.Text? ==> cell.s == "")
  {
  }

  /** Every built row is one the export theorems speak about. */
  lemma BuiltIsExportable(c: Config, date: Dates.Date, price: string, place: string, category: string)
    requires Lawful(c.lib) && HoldsSerials(c.lib) && date.Valid()
    ensures Exportable(c, BuildRow(c.lib, date, price, place, category))
  {
    hide Amounts.ParseAmount, Dates.DateSerial, Dates.DayNumber;
    SerialIsFloat(c.lib, date);
    AmountIsJson(c.lib, price);
  }

  lemma SerialIsFloat(lib: Strconv, date: Dates.Date)
    requires HoldsSerials(lib) && date.Valid()
    ensures lib.float64(Dates.DateSerial(date) as real)
  {
    hide Dates.DateSerial, Dates.DayNumber;
    Dates.SerialIsPinned(date);
    assert Whole(Dates.DateSerial(date) as real);
  }

  /** How many cells are left when empty ones at the end are dropped. */
  function Trimmed(r: Row): (k: nat)
    ensures k <= |r|
  {
    if r == [] then 0 else if r[|r| - 1] == Text("") then Trimmed(r[..|r| - 1]) else |r|
  }

  /** That many: the cells behind are empty, and the last one kept is not. */
  lemma {:induction false} TrimmedExactly(r: Row)
    ensures forall i :: Trimmed(r) <= i < |r| ==> r[i] == Text("")
    ensures 0 < Trimmed(r) ==> r[Trimmed(r) - 1] != Text("")
  {
    if r != [] && r[|r| - 1] == Text("") { TrimmedExactly(r[..|r| - 1]); }
  }

  predicate SpellsNaN(lib: Strconv, s: string) {
    lib.parse(s) == Some(NaN)
  }

  /** The text as sanitizing leaves it. */
  function Written(s: string): string {
    Disarmed(Text(s)).s
  }

  /** A built row is recognised exactly if it comes back whole and neither type nor comments spell NaN. */
  lemma BuiltIsRecognisedExactly(c: Config, date: Dates.Date, price: string, place: string, category: string)
    requires Lawful(c.lib) && date.Valid()
    ensures var row := BuildRow(c.lib, date, price, place, category);
            SelfMatch(c, row) <==>
              && c.kept(Sanitized(row)) >= WIDTH
              && !SpellsNaN(c.lib, Written(category)) && !SpellsNaN(c.lib, Written(place))
  {
    hide Dates.DateSerial;
    var row := BuildRow(c.lib, date, price, place, category);
    SelfMatchExactly(c, row);
    AmountIsJson(c.lib, price);
    var w := Sanitized(row);
    assert w[0] == row[0] && w[2] == row[2];
    assert w[1] == Text(Written(category)) && w[3] == Text(Written(place));
    assert ToFloat(c.lib, w[1]) == c.lib.parse(Written(category));
    assert ToFloat(c.lib, w[3]) == c.lib.parse(Written(place));
    assert ToFloat(c.lib, w[0]) != Some(NaN) && ToFloat(c.lib, w[2]) != Some(NaN);
  }

  /** Where reads drop empty cells at the end of a row, a row without comments is never recognised,
      and any other is unless it spells NaN. */
  lemma CommentsMatter(c: Config, date: Dates.Date, price: string, place: string, category: string)
    requires Lawful(c.lib) && date.Valid()
    requires forall r: Row :: c.kept(r) == Trimmed(r)
    ensures SelfMatch(c, BuildRow(c.lib, date, price, place, category))
            <==> place != "" && !SpellsNaN(c.lib, Written(category)) && !SpellsNaN(c.lib, Written(place))
  {
    hide Dates.DateSerial;
    BuiltIsRecognisedExactly(c, date, price, place, category);
    var w := Sanitized(BuildRow(c.lib, date, price, place, category));
    assert w[3] == Text(Written(place));
  }

  /** So with comments dropped on the way back, re-submitting such a row any number of times adds it each time. */
  lemma NoCommentsPilesUp(c: Config, date: Dates.Date, price: string, category: string)
    requires Lawful(c.lib) && HoldsSerials(c.lib) && date.Valid() && 1 <= c.workers < WINDOW
    requires forall r: Row :: c.kept(r) == Trimmed(r)
    ensures !CopiesBounded(c, BuildRow(c.lib, date, price, "", category))
  {
    hide BuildRow, CopiesBounded;
    CommentsMatter(c, date, price, "", category);
    BuiltIsExportable(c, date, price, "", category);
    CopiesBoundedExactly(c, BuildRow(c.lib, date, price, "", category));
  }

  // ---- What a built row says ----

  /** A purchase whose price is written as a number in prose. */
  datatype Purchase = Purchase(date: Dates.Date, price: Amounts.Prose, place: string, category: string) {
    ghost predicate Exact(lib: Strconv) {
      && date.Valid() && -Dates.LIMIT <= Dates.DayNumber(date) <= Dates.LIMIT
      && price.Valid() && lib.round(price.Amount()).Some?
    }

    /** The amount as it is written. */
    function Amount(lib: Strconv): real
      requires Digits(price.fraction) && lib.round(price.Amount()).Some?
    {
      lib.round(price.Amount()).value
    }

    function Built(lib: Strconv): Row
      requires date.Valid()
    {
      BuildRow(lib, date, price.Text(), place, category)
    }
  }

  lemma BuiltCells(lib: Strconv, p: Purchase)
    requires p.Exact(lib)
    ensures Sanitized(p.Built(lib)) == [Number(Finite(Dates.DayNumber(p.date) as real)), Disarmed(Text(p.category)),
                                        Number(Finite(p.Amount(lib))), Disarmed(Text(p.place))]
  {
    hide Amounts.ParseAmount, Amounts.Prose.Text, Amounts.Prose.Amount, Dates.DateSerial, Dates.DayNumber;
    Amounts.AmountRoundTrip(p.price, lib.round);
    Dates.DateSerialExactly(p.date);
  }

  lemma SameDay(a: Dates.Date, b: Dates.Date)
    requires a.Valid() && b.Valid()
    ensures Dates.DayNumber(a) == Dates.DayNumber(b) <==> a == b
  {
    hide Dates.DayNumber;
    Dates.DayNumbersOrdered(a, b);
    Dates.DayNumbersOrdered(b, a);
  }

  lemma MatchOfFour(lib: Strconv, a: Row, b: Row)
    requires |a| == |b| == WIDTH
    ensures Match(lib, a, b) <==> CellEqual(lib, a[0], b[0]) && CellEqual(lib, a[1], b[1])
                                  && CellEqual(lib, a[2], b[2]) && CellEqual(lib, a[3], b[3])
  {
  }

  /** Two built rows count as the same exactly if day and rounded amount are equal
      and type and comments are equal as cells. */
  lemma MatchIsSamePurchase(lib: Strconv, p: Purchase, q: Purchase)
    requires p.date.Valid() && q.date.Valid()
    ensures p.Exact(lib) && q.Exact(lib) ==>
      (Match(lib, Sanitized(p.Built(lib)), Sanitized(q.Built(lib)))
       <==> && p.date == q.date && p.Amount(lib) == q.Amount(lib)
            && CellEqual(lib, Disarmed(Text(p.category)), Disarmed(Text(q.category)))
            && CellEqual(lib, Disarmed(Text(p.place)), Disarmed(Text(q.place))))
  {
    hide Dates.DayNumber, Purchase.Built, Disarmed, Sanitized, Amounts.Prose.Amount;
    if p.Exact(lib) && q.Exact(lib) {
      BuiltCells(lib, p);
      BuiltCells(lib, q);
      SameDay(p.date, q.date);
      var a, b := Sanitized(p.Built(lib)), Sanitized(q.Built(lib));
      MatchOfFour(lib, a, b);
      assert CellEqual(lib, a[0], b[0]) <==> p.date == q.date;
      assert CellEqual(lib, a[2], b[2]) <==> p.Amount(lib) == q.Amount(lib);
    }
  }

  // ---- The assumptions on the library can be met ----

  function ShowFloat(f: Float): string {
    match f
    case Finite(x) => if x.Floor < 0 then "-" + Show(-x.Floor) else Show(x.Floor)
    case PosInf => "+Inf"
    case NegInf => "-Inf"
    case NaN => "NaN"
  }

  function ParseFloat(s: string): Option<Float> {
    if s == "NaN" then Some(NaN)
    else if s != "" && Digits(s) then Some(Finite(Value(s) as real))
    else if |s| > 1 && s[0] == '-' && Digits(s[1..]) then Some(Finite(-(Value(s[1..]) as real)))
    else None
  }

  lemma LawfulIsSatisfiable(lib: Strconv)
    requires lib == Strconv(x => Whole(x), (x: real) => Some(x.Floor as real), s => ParseFloat(s), f => ShowFloat(f))
    ensures Lawful(lib) && HoldsSerials(lib) && SpellsNaN(lib, "NaN")
  {
    hide Show, Value;
    forall x: real | Whole(x) ensures ParseFloat(ShowFloat(Finite(x))) == Some(Finite(x)) {
      var n := if x.Floor < 0 then -x.Floor else x.Floor;
      ShowReadsBack(n);
      var s := ShowFloat(Finite(x));
      if x.Floor < 0 { assert s[1..] == Show(n); }
      assert s[0] != 'N';
    }
    assert !In(Digit, "true"[0]) && !In(Digit, "false"[0]) && !In(Digit, NIL_TEXT[0]);
  }
}
