/**
 Spreadsheet cells and rows: how the gateway compares a stored cell with one it
 wants to write, and how it disarms formulas.  Parsing and printing of floats
 is the library's; what is assumed of it is `Lawful`.
 */
module Cells {
  import opened Wrappers

  datatype Float = Finite(value: real) | PosInf | NegInf | NaN

  /** A cell as JSON can hold it, or as the gateway builds it. */
  datatype Cell = Number(f: Float) | Text(s: string) | Boolean(b: bool) | Null

  type Row = seq<Cell>

  /** Which reals are float64 values, the one a numeral is rounded to unless it is out of range,
      strconv.ParseFloat, and fmt.Sprint on a float. */
  datatype Strconv = Strconv(
    float64: real -> bool,
    round: real -> Option<real>,
    parse: string -> Option<Float>,
    show: Float -> string
  )

  const NIL_TEXT := "<nil>"

  ghost predicate Lawful(lib: Strconv) {
    && (forall x: real :: lib.float64(x) ==> lib.parse(lib.show(Finite(x))) == Some(Finite(x)))
    && (forall x: real :: lib.float64(x) ==> lib.round(x) == Some(x))
    && (forall x: real :: lib.round(x).Some? ==> lib.float64(lib.round(x).value))
    && lib.parse("true") == lib.parse("false") == lib.parse(NIL_TEXT) == None
    && lib.parse("") == None
  }

  /** JSON has no spelling for an infinity or a NaN. */
  ghost predicate Json(lib: Strconv, c: Cell) {
    c.Number? ==> c.f.Finite? && lib.float64(c.f.value)
  }

  ghost predicate JsonRow(lib: Strconv, r: Row) {
    forall i :: 0 <= i < |r| ==> Json(lib, r[i])
  }

  function ToFloat(lib: Strconv, c: Cell): Option<Float> {
    match c
    case Number(f) => Some(f)
    case Text(s) => lib.parse(s)
    case _ => None
  }

  function Sprint(lib: Strconv, c: Cell): string {
    match c
    case Number(f) => lib.show(f)
    case Text(s) => s
    case Boolean(b) => if b then "true" else "false"
    case Null => NIL_TEXT
  }

  function CellEqual(lib: Strconv, stored: Cell, want: Cell): bool {
    var sf, wf := ToFloat(lib, stored), ToFloat(lib, want);
    if sf.Some? && wf.Some? then sf == wf && sf != Some(NaN)
    else Sprint(lib, stored) == Sprint(lib, want)
  }

  /** A numeric cell never prints like a non-numeric one. */
  lemma NumericPrintsApart(lib: Strconv, a: Cell, b: Cell)
    requires Lawful(lib) && Json(lib, a) && Json(lib, b)
    requires ToFloat(lib, a).Some? && ToFloat(lib, b).None?
    ensures Sprint(lib, a) != Sprint(lib, b)
  {
    assert lib.parse(Sprint(lib, a)).Some?;
    assert lib.parse(Sprint(lib, b)).None?;
  }

  /** Reflexive exactly on the cells that do not spell NaN. */
  lemma CellEqualReflexive(lib: Strconv, c: Cell)
    ensures CellEqual(lib, c, c) <==> ToFloat(lib, c) != Some(NaN)
  {
  }

  lemma CellEqualSymmetric(lib: Strconv, a: Cell, b: Cell)
    ensures CellEqual(lib, a, b) <==> CellEqual(lib, b, a)
  {
  }

  lemma CellEqualTransitive(lib: Strconv, a: Cell, b: Cell, c: Cell)
    requires Lawful(lib) && Json(lib, a) && Json(lib, b) && Json(lib, c)
    requires CellEqual(lib, a, b) && CellEqual(lib, b, c)
    ensures CellEqual(lib, a, c)
  {
    if ToFloat(lib, a).Some? && ToFloat(lib, b).None? { NumericPrintsApart(lib, a, b); }
    if ToFloat(lib, b).Some? && ToFloat(lib, a).None? { NumericPrintsApart(lib, b, a); }
    if ToFloat(lib, b).Some? && ToFloat(lib, c).None? { NumericPrintsApart(lib, b, c); }
    if ToFloat(lib, c).Some? && ToFloat(lib, b).None? { NumericPrintsApart(lib, c, b); }
  }

  /** On cells that do not spell NaN, cell equality is an equivalence. */
  lemma CellEqualIsEquivalence(lib: Strconv)
    requires Lawful(lib)
    ensures forall a :: CellEqual(lib, a, a) <==> ToFloat(lib, a) != Some(NaN)
    ensures forall a, b :: CellEqual(lib, a, b) ==> CellEqual(lib, b, a)
    ensures forall a, b, c ::
              Json(lib, a) && Json(lib, b) && Json(lib, c) && CellEqual(lib, a, b) && CellEqual(lib, b, c)
              ==> CellEqual(lib, a, c)
  {
    forall a ensures CellEqual(lib, a, a) <==> ToFloat(lib, a) != Some(NaN) {
      CellEqualReflexive(lib, a);
    }
    forall a, b ensures CellEqual(lib, a, b) <==> CellEqual(lib, b, a) {
      CellEqualSymmetric(lib, a, b);
    }
    forall a, b, c | Json(lib, a) && Json(lib, b) && Json(lib, c) && CellEqual(lib, a, b) && CellEqual(lib, b, c)
      ensures CellEqual(lib, a, c)
    {
      CellEqualTransitive(lib, a, b, c);
    }
  }

  // ---- What cell equality means ----

  /** The same number, and a number at all. */
  predicate SameNumber(x: Float, y: Float) {
    x == y && !x.NaN?
  }

  /** A text that spells the number x. */
  predicate Spells(lib: Strconv, s: string, x: Float) {
    lib.parse(s).Some? && SameNumber(lib.parse(s).value, x)
  }

  /** Which cells count as equal, kind by kind. */
  predicate Same(lib: Strconv, a: Cell, b: Cell) {
    match (a, b)
    case (Number(x), Number(y)) => SameNumber(x, y)
    case (Number(x), Text(s)) => Spells(lib, s, x)
    case (Text(s), Number(x)) => Spells(lib, s, x)
    case (Text(s), Text(t)) =>
      if lib.parse(s).Some? then Spells(lib, t, lib.parse(s).value) else s == t
    case (Boolean(p), Boolean(q)) => p == q
    case (Boolean(p), Text(s)) => s == if p then "true" else "false"
    case (Text(s), Boolean(p)) => s == if p then "true" else "false"
    case (Null, Null) => true
    case (Null, Text(s)) => s == "<nil>"
    case (Text(s), Null) => s == "<nil>"
    case _ => false
  }

  lemma KeywordsApart()
    ensures "true" != "false" && "true" != NIL_TEXT && "false" != NIL_TEXT && NIL_TEXT == "<nil>"
  {
    assert "true"[0] == 't' && "false"[0] == 'f' && NIL_TEXT[0] == '<';
  }

  /** Numbers and texts that spell numbers are compared as numbers, all else as it prints. */
  lemma CellEqualExactly(lib: Strconv, a: Cell, b: Cell)
    requires Lawful(lib) && Json(lib, a) && Json(lib, b)
    ensures CellEqual(lib, a, b) <==> Same(lib, a, b)
  {
    KeywordsApart();
    if ToFloat(lib, a).Some? && ToFloat(lib, b).None? { NumericPrintsApart(lib, a, b); }
    if ToFloat(lib, b).Some? && ToFloat(lib, a).None? { NumericPrintsApart(lib, b, a); }
  }

  // ---- Rows ----

  function Disarmed(c: Cell): Cell {
    if c.Text? && |c.s| > 0 && c.s[0] == '=' then Text("'" + c.s) else c
  }

  function Sanitized(row: Row): (r: Row)
    ensures |r| == |row|
  {
    seq(|row|, i requires 0 <= i < |row| => Disarmed(row[i]))
  }

  predicate Formula(c: Cell) {
    c.Text? && |c.s| > 0 && c.s[0] == '='
  }

  method SanitizeRow(row: Row) returns (out: array<Cell>)
    ensures fresh(out) && out[..] == Sanitized(row)
  {
    out := new Cell[|row|](_ => Null);
    var i := 0;
    while i < |row|
      invariant 0 <= i <= |row|
      invariant forall k :: 0 <= k < i ==> out[k] == Sanitized(row)[k]
    {
      match row[i] {
        case Text(s) =>
          if |s| > 0 && s[0] == '=' {
            out[i] := Text("'" + s);
            i := i + 1;
            continue;
          }
        case _ =>
      }
      out[i] := row[i];
      i := i + 1;
    }
  }

  /** What sanitizing promises: no formula is left, cells that were none are untouched, and once is enough. */
  lemma SanitizedIsSafe(lib: Strconv, row: Row)
    ensures forall i :: 0 <= i < |row| ==> !Formula(Sanitized(row)[i])
    ensures forall i :: 0 <= i < |row| ==>
              Sanitized(row)[i] == if Formula(row[i]) then Text(['\''] + row[i].s) else row[i]
    ensures Sanitized(Sanitized(row)) == Sanitized(row)
    ensures JsonRow(lib, row) ==> JsonRow(lib, Sanitized(row))
  {
  }

  /** Whether a stored row counts as the wanted one. */
  ghost predicate Match(lib: Strconv, existing: Row, want: Row) {
    |existing| >= |want| && forall i :: 0 <= i < |want| ==> CellEqual(lib, existing[i], want[i])
  }

  ghost predicate SomeMatch(lib: Strconv, values: seq<Row>, want: Row) {
    exists k :: 0 <= k < |values| && Match(lib, values[k], want)
  }

  method RowMatches(lib: Strconv, values: seq<Row>, row: Row) returns (found: bool)
    ensures found <==> SomeMatch(lib, values, Sanitized(row))
  {
    var w := SanitizeRow(row);
    var want := w[..];
    var k := 0;
    while k < |values|
      invariant 0 <= k <= |values|
      invariant forall n :: 0 <= n < k ==> !Match(lib, values[n], want)
    {
      var existing := values[k];
      if |existing| < |want| {
        k := k + 1;
        continue;
      }
      var same := true;
      var i := 0;
      while i < |want|
        invariant 0 <= i <= |want|
        invariant same
        invariant forall n :: 0 <= n < i ==> CellEqual(lib, existing[n], want[n])
      {
        if !CellEqual(lib, existing[i], want[i]) {
          same := false;
          break;
        }
        i := i + 1;
      }
      if same {
        assert Match(lib, values[k], want);
        return true;
      }
      k := k + 1;
    }
    return false;
  }

  /** Rows of one width match like the cells they are made of. */
  lemma MatchThrough(lib: Strconv, e: Row, a: Row, b: Row)
    requires Lawful(lib) && JsonRow(lib, e) && JsonRow(lib, a) && JsonRow(lib, b) && |a| == |b|
    requires Match(lib, e, b) && Match(lib, a, b)
    ensures Match(lib, e, a)
  {
    forall i | 0 <= i < |a| ensures CellEqual(lib, e[i], a[i]) {
      CellEqualSymmetric(lib, a[i], b[i]);
      CellEqualTransitive(lib, e[i], b[i], a[i]);
    }
  }

  ghost predicate NaNFree(lib: Strconv, r: Row) {
    forall i :: 0 <= i < |r| ==> ToFloat(lib, r[i]) != Some(NaN)
  }

  /** A row read back with its first k cells matches itself exactly if none was dropped and none spells NaN. */
  lemma ReadsBackExactly(lib: Strconv, r: Row, k: nat)
    requires k <= |r|
    ensures Match(lib, r[..k], r) <==> k == |r| && NaNFree(lib, r)
  {
    if Match(lib, r[..k], r) {
      assert r[..k] == r;
      forall i | 0 <= i < |r| ensures ToFloat(lib, r[i]) != Some(NaN) {
        assert CellEqual(lib, r[..k][i], r[i]);
      }
    } else if k == |r| {
      assert r[..k] == r;
    }
  }

  // ---- Rows that come back changed ----

  /** A cell that later reads return for a written one: itself, or the number its text spells. */
  predicate ComesBackAs(lib: Strconv, written: Cell, stored: Cell) {
    || stored == written
    || (written.Text? && stored.Number? && Spells(lib, written.s, stored.f))
  }

  /** A read row may be wider than the wanted one, never narrower, and is compared cell by cell. */
  lemma MatchExactly(lib: Strconv, existing: Row, want: Row)
    requires Lawful(lib) && JsonRow(lib, existing) && JsonRow(lib, want)
    ensures Match(lib, existing, want) <==>
            |want| <= |existing| && forall i :: 0 <= i < |want| ==> Same(lib, existing[i], want[i])
  {
    hide CellEqual, Same, Lawful, Json;
    forall i | 0 <= i < |want| && i < |existing|
      ensures CellEqual(lib, existing[i], want[i]) <==> Same(lib, existing[i], want[i])
    {
      CellEqualExactly(lib, existing[i], want[i]);
    }
  }

  /** A written row whose numerals come back as numbers, perhaps with more cells behind it, is still found,
      exactly if none of its cells spells NaN. */
  lemma NumeralsAreFound(lib: Strconv, values: seq<Row>, k: nat, want: Row)
    requires Lawful(lib) && k < |values| && |want| <= |values[k]|
    requires JsonRow(lib, values[k]) && JsonRow(lib, want)
    requires forall i :: 0 <= i < |want| ==> ComesBackAs(lib, want[i], values[k][i])
    ensures Match(lib, values[k], want) <==> NaNFree(lib, want)
    ensures NaNFree(lib, want) ==> SomeMatch(lib, values, want)
  {
    MatchExactly(lib, values[k], want);
    hide CellEqual;
    if !NaNFree(lib, want) {
      var i :| 0 <= i < |want| && ToFloat(lib, want[i]) == Some(NaN);
      assert !Same(lib, values[k][i], want[i]);
    }
  }
}
