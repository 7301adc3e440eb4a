/**
 Exporting rows to a remote tab by checking, then appending, then retrying.
 Any number of workers run AppendRowWithRetry against one tab, which people also
 append to.  A read can fail; an append can fail before or after it takes
 effect, but takes none after the call that made it has returned.
 */
module SheetExport {
  import opened Wrappers
  import opened Cells

  /** A row of the tab: its cells as later reads return them, and what the gateway wrote if it was the gateway. */
  datatype Entry = Entry(cells: Row, written: Option<Row>)

  /** kept says how many leading cells of a written row a later read returns. */
  datatype Config = Config(lib: Strconv, workers: nat, kept: Row -> nat)

  /** Every row BuildRow builds has four cells: date, type, amount, comments. */
  const WIDTH := 4

  /** A read covers A1:D1000. */
  const WINDOW := 1000

  function ReadBack(c: Config, w: Row): Row {
    w[..if c.kept(w) < |w| then c.kept(w) else |w|]
  }

  function Appended(c: Config, row: Row): Entry {
    var w := Sanitized(row);
    Entry(ReadBack(c, w), Some(w))
  }

  ghost predicate Exportable(c: Config, row: Row) {
    |row| == WIDTH && JsonRow(c.lib, row)
  }

  /** Whether a row, once written, is recognised when read again. */
  ghost predicate SelfMatch(c: Config, row: Row) {
    Match(c.lib, ReadBack(c, Sanitized(row)), Sanitized(row))
  }

  ghost predicate Seen(c: Config, tab: seq<Entry>, want: Row) {
    exists k :: 0 <= k < |tab| && k < WINDOW && Match(c.lib, tab[k].cells, want)
  }

  /** One call of AppendRowWithRetry, allowed `total` attempts (one more than maxRetries);
      added counts the rows it has put into the tab. */
  datatype Call = Call(row: Row, attempt: nat, total: int, added: nat)

  datatype Worker =
    | Fresh
    | Reading(call: Call)
    | Appending(call: Call)
    | Waiting(call: Call)
    | Returned(call: Call, ok: bool)

  datatype State = State(tab: seq<Entry>, workers: seq<Worker>)

  datatype Action =
    | Begin(w: nat, row: Row, total: int)
    | Read(w: nat)
    | ReadFails(w: nat)
    | Append(w: nat)
    | AppendFails(w: nat, took: bool)
    | TryAgain(w: nat)
    | Cancel(w: nat)
    | Foreign(cells: Row)

  ghost predicate Enabled(c: Config, s: State, a: Action) {
    if a.Foreign? then JsonRow(c.lib, a.cells) else
    && a.w < |s.workers|
    && match a
       case Begin(w, row, _) => (s.workers[w].Fresh? || s.workers[w].Returned?) && Exportable(c, row)
       case Read(w) => s.workers[w].Reading?
       case ReadFails(w) => s.workers[w].Reading?
       case Append(w) => s.workers[w].Appending?
       case AppendFails(w, _) => s.workers[w].Appending?
       case TryAgain(w) => s.workers[w].Waiting?
       case Cancel(w) => s.workers[w].Waiting?
  }

  function Failed(call: Call): Worker {
    if call.attempt < call.total then Waiting(call) else Returned(call, false)
  }

  ghost function Moved(c: Config, s: State, a: Action): Worker
    requires !a.Foreign? && Enabled(c, s, a)
  {
    match a
    case Begin(_, row, total) =>
      if 1 <= total then Reading(Call(row, 1, total, 0)) else Returned(Call(row, 0, total, 0), false)
    case Read(w) =>
      var call := s.workers[w].call;
      if Seen(c, s.tab, Sanitized(call.row)) then Returned(call, true) else Appending(call)
    case ReadFails(w) => Failed(s.workers[w].call)
    case Append(w) => Returned(s.workers[w].call.(added := s.workers[w].call.added + 1), true)
    case AppendFails(w, took) =>
      Failed(s.workers[w].call.(added := s.workers[w].call.added + (if took then 1 else 0)))
    case TryAgain(w) => Reading(s.workers[w].call.(attempt := s.workers[w].call.attempt + 1))
    case Cancel(w) => Returned(s.workers[w].call, false)
  }

  ghost function Gain(c: Config, s: State, a: Action): seq<Entry>
    requires Enabled(c, s, a)
  {
    if a.Foreign? then [Entry(a.cells, None)]
    else if a.Append? || (a.AppendFails? && a.took) then [Appended(c, s.workers[a.w].call.row)]
    else []
  }

  ghost function Apply(c: Config, s: State, a: Action): State
    requires Enabled(c, s, a)
  {
    State(s.tab + Gain(c, s, a), if a.Foreign? then s.workers else s.workers[a.w := Moved(c, s, a)])
  }

  ghost predicate Legal(c: Config, s: State, acts: seq<Action>)
    decreases |acts|
  {
    acts == [] || (Enabled(c, s, acts[0]) && Legal(c, Apply(c, s, acts[0]), acts[1..]))
  }

  ghost function After(c: Config, s: State, acts: seq<Action>): State
    requires Legal(c, s, acts)
    decreases |acts|
  {
    if acts == [] then s else After(c, Apply(c, s, acts[0]), acts[1..])
  }

  ghost predicate JsonTab(c: Config, tab: seq<Entry>) {
    forall k :: 0 <= k < |tab| ==> JsonRow(c.lib, tab[k].cells)
  }

  /** All workers fresh, the tab holding whatever it holds. */
  function Start(c: Config, tab: seq<Entry>): State {
    State(tab, seq(c.workers, i => Fresh))
  }

  lemma {:induction false} TabGrows(c: Config, s: State, acts: seq<Action>)
    requires Legal(c, s, acts)
    ensures s.tab <= After(c, s, acts).tab
    decreases |acts|
  {
    if acts != [] { TabGrows(c, Apply(c, s, acts[0]), acts[1..]); }
  }

  lemma AfterCons(c: Config, s: State, a: Action, rest: seq<Action>)
    requires Enabled(c, s, a) && Legal(c, Apply(c, s, a), rest)
    ensures Legal(c, s, [a] + rest) && After(c, s, [a] + rest) == After(c, Apply(c, s, a), rest)
  {
    assert ([a] + rest)[0] == a && ([a] + rest)[1..] == rest;
  }

  lemma AfterOne(c: Config, s: State, a: Action)
    requires Enabled(c, s, a)
    ensures Legal(c, s, [a]) && After(c, s, [a]) == Apply(c, s, a)
  {
    AfterCons(c, s, a, []);
    assert [a] + [] == [a];
  }

  lemma {:induction false} AfterConcat(c: Config, s: State, a: seq<Action>, b: seq<Action>)
    requires Legal(c, s, a) && Legal(c, After(c, s, a), b)
    ensures Legal(c, s, a + b) && After(c, s, a + b) == After(c, After(c, s, a), b)
    decreases |a|
  {
    if a == [] {
      assert a + b == b;
    } else {
      assert (a + b)[0] == a[0] && (a + b)[1..] == a[1..] + b;
      AfterConcat(c, Apply(c, s, a[0]), a[1..], b);
    }
  }

  // ---- Counting ----

  /** Rows the gateway wrote that a reader would take for want. */
  ghost function Matching(c: Config, tab: seq<Entry>, want: Row): nat {
    if tab == [] then 0
    else (if tab[0].written.Some? && Match(c.lib, tab[0].cells, want) then 1 else 0) + Matching(c, tab[1..], want)
  }

  /** Rows the gateway wrote as exactly w. */
  ghost function Copies(tab: seq<Entry>, w: Row): nat {
    if tab == [] then 0 else (if tab[0].written == Some(w) then 1 else 0) + Copies(tab[1..], w)
  }

  /** Workers that have looked, seen nothing, and are about to append a row matching want. */
  ghost function Pending(c: Config, ws: seq<Worker>, want: Row): nat {
    if ws == [] then 0 else (if AboutTo(c, ws[0], want) then 1 else 0) + Pending(c, ws[1..], want)
  }

  ghost predicate AboutTo(c: Config, w: Worker, want: Row) {
    w.Appending? && Match(c.lib, Sanitized(w.call.row), want)
  }

  lemma {:induction false} MatchingConcat(c: Config, a: seq<Entry>, b: seq<Entry>, want: Row)
    ensures Matching(c, a + b, want) == Matching(c, a, want) + Matching(c, b, want)
  {
    if a == [] {
      assert a + b == b;
    } else {
      assert (a + b)[0] == a[0] && (a + b)[1..] == a[1..] + b;
      MatchingConcat(c, a[1..], b, want);
    }
  }

  lemma {:induction false} CopiesConcat(a: seq<Entry>, b: seq<Entry>, w: Row)
    ensures Copies(a + b, w) == Copies(a, w) + Copies(b, w)
  {
    if a == [] {
      assert a + b == b;
    } else {
      assert (a + b)[0] == a[0] && (a + b)[1..] == a[1..] + b;
      CopiesConcat(a[1..], b, w);
    }
  }

  lemma {:induction false} PendingUpdate(c: Config, ws: seq<Worker>, i: nat, w: Worker, want: Row)
    requires i < |ws|
    ensures Pending(c, ws[i := w], want)
         == Pending(c, ws, want) - (if AboutTo(c, ws[i], want) then 1 else 0) + (if AboutTo(c, w, want) then 1 else 0)
  {
    if i > 0 {
      PendingUpdate(c, ws[1..], i - 1, w, want);
      assert ws[i := w][1..] == ws[1..][i - 1 := w];
    }
  }

  lemma {:induction false} PendingAtMostAll(c: Config, ws: seq<Worker>, want: Row)
    ensures Pending(c, ws, want) <= |ws|
  {
    if ws != [] { PendingAtMostAll(c, ws[1..], want); }
  }

  // ---- The bound ----

  ghost predicate WellFormed(c: Config, s: State) {
    && JsonTab(c, s.tab)
    && |s.workers| == c.workers
    && forall w :: 0 <= w < |s.workers| && !s.workers[w].Fresh? ==> Exportable(c, s.workers[w].call.row)
  }

  /** Before a match exists nothing has been gained; from then on gains and pending appends share the workers. */
  ghost predicate Bounded(c: Config, base: seq<Entry>, s: State, want: Row) {
    && base <= s.tab
    && var gained, pending := Matching(c, s.tab[|base|..], want), Pending(c, s.workers, want);
       if Seen(c, base, want) then gained == 0 && pending == 0
       else if Seen(c, s.tab, want) then gained + pending <= c.workers
       else gained == 0
  }

  lemma WellFormedStep(c: Config, s: State, a: Action)
    requires WellFormed(c, s) && Enabled(c, s, a)
    ensures WellFormed(c, Apply(c, s, a))
  {
    if !a.Foreign? && a.w < |s.workers| && !s.workers[a.w].Fresh? {
      SanitizedIsSafe(c.lib, s.workers[a.w].call.row);
    }
  }

  /** A written row that a reader takes for want is read back whole, so its writer was about to append a match. */
  lemma OnlyMatchesGain(c: Config, row: Row, want: Row)
    requires |row| == |want|
    requires Match(c.lib, Appended(c, row).cells, want)
    ensures Appended(c, row).cells == Sanitized(row) && Match(c.lib, Sanitized(row), want)
  {
  }

  lemma SeenThrough(c: Config, tab: seq<Entry>, a: Row, want: Row)
    requires Lawful(c.lib) && JsonTab(c, tab) && JsonRow(c.lib, a) && JsonRow(c.lib, want) && |a| == |want|
    requires Seen(c, tab, want) && Match(c.lib, a, want)
    ensures Seen(c, tab, a)
  {
    var k :| 0 <= k < |tab| && k < WINDOW && Match(c.lib, tab[k].cells, want);
    MatchThrough(c.lib, tab[k].cells, a, want);
  }

  lemma SeenGrows(c: Config, tab: seq<Entry>, more: seq<Entry>, want: Row)
    requires |tab + more| <= WINDOW
    ensures Seen(c, tab + more, want) <==> Seen(c, tab, want) || Seen(c, more, want)
  {
    if k :| 0 <= k < |tab| && Match(c.lib, tab[k].cells, want) {
      assert (tab + more)[k] == tab[k];
    }
    if k :| 0 <= k < |more| && Match(c.lib, more[k].cells, want) {
      assert (tab + more)[|tab| + k] == more[k];
    }
  }

  lemma ReadBounded(c: Config, base: seq<Entry>, s: State, w: nat, want: Row)
    requires Lawful(c.lib) && WellFormed(c, s) && |want| == WIDTH && JsonRow(c.lib, want)
    requires Bounded(c, base, s, want) && |s.tab| <= WINDOW && Enabled(c, s, Read(w))
    ensures Bounded(c, base, Apply(c, s, Read(w)), want)
  {
    var t, row := Apply(c, s, Read(w)), s.workers[w].call.row;
    assert t.tab == s.tab;
    PendingUpdate(c, s.workers, w, t.workers[w], want);
    PendingAtMostAll(c, t.workers, want);
    SanitizedIsSafe(c.lib, row);
    if Match(c.lib, Sanitized(row), want) && Seen(c, s.tab, want) {
      SeenThrough(c, s.tab, Sanitized(row), want);
    }
    if Seen(c, base, want) { SeenGrows(c, base, s.tab[|base|..], want); assert s.tab == base + s.tab[|base|..]; }
  }

  lemma OtherBounded(c: Config, base: seq<Entry>, s: State, a: Action, want: Row)
    requires Lawful(c.lib) && WellFormed(c, s) && |want| == WIDTH && JsonRow(c.lib, want)
    requires Bounded(c, base, s, want) && Enabled(c, s, a) && !a.Read? && |Apply(c, s, a).tab| <= WINDOW
    ensures Bounded(c, base, Apply(c, s, a), want)
  {
    var t, gain := Apply(c, s, a), Gain(c, s, a);
    if !a.Foreign? { PendingUpdate(c, s.workers, a.w, t.workers[a.w], want); }
    PendingAtMostAll(c, s.workers, want);
    assert t.tab[|base|..] == s.tab[|base|..] + gain;
    MatchingConcat(c, s.tab[|base|..], gain, want);
    SeenGrows(c, s.tab, gain, want);
    GainPaid(c, s, a, want);
  }

  /** A step gains at most one match, and pays for it with a pending append. */
  lemma GainPaid(c: Config, s: State, a: Action, want: Row)
    requires WellFormed(c, s) && |want| == WIDTH && Enabled(c, s, a) && !a.Read?
    ensures Matching(c, Gain(c, s, a), want) <= 1
    ensures Matching(c, Gain(c, s, a), want) == 1 ==>
              !a.Foreign? && AboutTo(c, s.workers[a.w], want) && Seen(c, Gain(c, s, a), want)
    ensures !a.Foreign? ==> !AboutTo(c, Moved(c, s, a), want)
  {
    var gain := Gain(c, s, a);
    if gain != [] {
      assert gain[1..] == [];
      if !a.Foreign? && Match(c.lib, gain[0].cells, want) {
        OnlyMatchesGain(c, s.workers[a.w].call.row, want);
      }
    }
  }

  lemma {:induction false} BoundedAfter(c: Config, base: seq<Entry>, s: State, acts: seq<Action>, want: Row)
    requires Lawful(c.lib) && WellFormed(c, s) && |want| == WIDTH && JsonRow(c.lib, want)
    requires Bounded(c, base, s, want) && Legal(c, s, acts) && |After(c, s, acts).tab| <= WINDOW
    ensures WellFormed(c, After(c, s, acts)) && Bounded(c, base, After(c, s, acts), want)
    decreases |acts|
  {
    hide WellFormed, Bounded, Enabled, Apply;
    if acts != [] {
      var a := acts[0];
      TabGrows(c, s, acts);
      TabGrows(c, Apply(c, s, a), acts[1..]);
      WellFormedStep(c, s, a);
      if a.Read? { ReadBounded(c, base, s, a.w, want); } else { OtherBounded(c, base, s, a, want); }
      BoundedAfter(c, base, Apply(c, s, a), acts[1..], want);
    }
  }

  lemma {:induction false} FreshIsNotPending(c: Config, ws: seq<Worker>, want: Row)
    requires forall w :: 0 <= w < |ws| ==> ws[w].Fresh?
    ensures Pending(c, ws, want) == 0
  {
    if ws != [] { FreshIsNotPending(c, ws[1..], want); }
  }

  lemma StartBounded(c: Config, tab: seq<Entry>, want: Row)
    requires JsonTab(c, tab)
    ensures WellFormed(c, Start(c, tab)) && Bounded(c, tab, Start(c, tab), want)
  {
    FreshIsNotPending(c, Start(c, tab).workers, want);
    assert tab[|tab|..] == [];
  }

  /** Whatever fails and whoever else writes, the gateway adds at most one match per worker,
      and none to a tab that has one. */
  lemma DuplicateBound(c: Config, tab: seq<Entry>, acts: seq<Action>, row: Row)
    requires Lawful(c.lib) && JsonTab(c, tab) && Exportable(c, row)
    requires Legal(c, Start(c, tab), acts) && |After(c, Start(c, tab), acts).tab| <= WINDOW
    ensures tab <= After(c, Start(c, tab), acts).tab
    ensures var gained := Matching(c, After(c, Start(c, tab), acts).tab[|tab|..], Sanitized(row));
            gained <= c.workers && (Seen(c, tab, Sanitized(row)) ==> gained == 0)
  {
    SanitizedIsSafe(c.lib, row);
    StartBounded(c, tab, Sanitized(row));
    BoundedAfter(c, tab, Start(c, tab), acts, Sanitized(row));
    hide Legal, After;
  }

  // ---- One call ----

  /** A call has added at most one row, and once it has, or has returned nil, a match is there to be read. */
  ghost predicate CallFits(c: Config, s: State, w: Worker) {
    !w.Fresh? && SelfMatch(c, w.call.row) ==>
      var present := Seen(c, s.tab, Sanitized(w.call.row));
      && w.call.added <= 1
      && (w.Appending? ==> w.call.added == 0)
      && (w.call.added == 1 ==> present)
      && (w.Returned? && w.ok ==> present)
  }

  ghost predicate CallsFit(c: Config, s: State) {
    forall w :: 0 <= w < |s.workers| ==> CallFits(c, s, s.workers[w])
  }

  lemma CallsFitStep(c: Config, s: State, a: Action)
    requires CallsFit(c, s) && Enabled(c, s, a) && |Apply(c, s, a).tab| <= WINDOW
    ensures CallsFit(c, Apply(c, s, a))
  {
    var t, gain := Apply(c, s, a), Gain(c, s, a);
    forall w | 0 <= w < |t.workers| ensures CallFits(c, t, t.workers[w]) {
      assert CallFits(c, s, s.workers[w]);
      if !t.workers[w].Fresh? {
        SeenGrows(c, s.tab, gain, Sanitized(t.workers[w].call.row));
        if !a.Foreign? && a.w == w && gain != [] {
          assert SelfMatch(c, t.workers[w].call.row) ==> Match(c.lib, gain[0].cells, Sanitized(t.workers[w].call.row));
        }
      }
    }
  }

  lemma {:induction false} CallsFitAfter(c: Config, s: State, acts: seq<Action>)
    requires CallsFit(c, s) && Legal(c, s, acts) && |After(c, s, acts).tab| <= WINDOW
    ensures CallsFit(c, After(c, s, acts))
    decreases |acts|
  {
    hide CallsFit, Enabled, Apply;
    if acts != [] {
      TabGrows(c, Apply(c, s, acts[0]), acts[1..]);
      CallsFitStep(c, s, acts[0]);
      CallsFitAfter(c, Apply(c, s, acts[0]), acts[1..]);
    }
  }

  /** Among any number of workers, each call adds at most one row, and a nil return means a matching row is there. */
  lemma EachCallOnce(c: Config, tab: seq<Entry>, acts: seq<Action>, w: nat)
    requires Legal(c, Start(c, tab), acts) && |After(c, Start(c, tab), acts).tab| <= WINDOW
    requires w < |After(c, Start(c, tab), acts).workers|
    ensures var s := After(c, Start(c, tab), acts);
            !s.workers[w].Fresh? && SelfMatch(c, s.workers[w].call.row) ==>
              && s.workers[w].call.added <= 1
              && (s.workers[w].Returned? && s.workers[w].ok ==> Seen(c, s.tab, Sanitized(s.workers[w].call.row)))
  {
    CallsFitAfter(c, Start(c, tab), acts);
    assert CallFits(c, After(c, Start(c, tab), acts), After(c, Start(c, tab), acts).workers[w]);
  }
}
