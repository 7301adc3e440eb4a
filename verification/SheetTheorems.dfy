/**
 When exactly exporting avoids duplicates: the per-worker bound holds for a row
 exactly if the row is recognised when read back, it is attained, and "never a
 duplicate" is a promise only a single worker keeps.
 */
module SheetTheorems {
  import opened Wrappers
  import opened Cells
  import opened SheetExport

  lemma {:induction false} CopiesAreMatches(c: Config, tab: seq<Entry>, w: Row)
    requires forall k :: 0 <= k < |tab| && tab[k].written == Some(w) ==> Match(c.lib, tab[k].cells, w)
    ensures Copies(tab, w) <= Matching(c, tab, w)
  {
    if tab != [] { CopiesAreMatches(c, tab[1..], w); }
  }

  /** Every row the gateway wrote is one that Appended builds. */
  ghost predicate Honest(c: Config, tab: seq<Entry>) {
    forall k :: 0 <= k < |tab| && tab[k].written.Some? ==> tab[k].cells == ReadBack(c, tab[k].written.value)
  }

  lemma {:induction false} HonestAfter(c: Config, base: seq<Entry>, s: State, acts: seq<Action>)
    requires base <= s.tab && Honest(c, s.tab[|base|..]) && Legal(c, s, acts)
    ensures base <= After(c, s, acts).tab && Honest(c, After(c, s, acts).tab[|base|..])
    decreases |acts|
  {
    if acts != [] {
      var t := Apply(c, s, acts[0]);
      assert t.tab[|base|..] == s.tab[|base|..] + Gain(c, s, acts[0]);
      HonestAfter(c, base, t, acts[1..]);
    }
  }

  // ---- The bound holds exactly for rows that are recognised ----

  /** No run within the window writes a row more than once per worker. */
  ghost predicate CopiesBounded(c: Config, row: Row) {
    forall tab, acts ::
      JsonTab(c, tab) && Legal(c, Start(c, tab), acts) && |After(c, Start(c, tab), acts).tab| <= WINDOW
      ==> CopiesWithin(c, tab, After(c, Start(c, tab), acts).tab, row)
  }

  ghost predicate CopiesWithin(c: Config, tab: seq<Entry>, later: seq<Entry>, row: Row) {
    tab <= later ==> Copies(later[|tab|..], Sanitized(row)) <= c.workers
  }

  lemma RecognisedIsBounded(c: Config, tab: seq<Entry>, acts: seq<Action>, row: Row)
    requires Lawful(c.lib) && JsonTab(c, tab) && Exportable(c, row) && SelfMatch(c, row)
    requires Legal(c, Start(c, tab), acts) && |After(c, Start(c, tab), acts).tab| <= WINDOW
    ensures CopiesWithin(c, tab, After(c, Start(c, tab), acts).tab, row)
  {
    var later := After(c, Start(c, tab), acts).tab;
    assert tab[|tab|..] == [];
    HonestAfter(c, tab, Start(c, tab), acts);
    DuplicateBound(c, tab, acts, row);
    CopiesAreMatches(c, later[|tab|..], Sanitized(row));
  }

  /** Reads of this tab will not show the row, however often it is appended. */
  ghost predicate Blind(c: Config, tab: seq<Entry>, row: Row) {
    !Seen(c, tab, Sanitized(row)) && (SelfMatch(c, row) ==> WINDOW <= |tab|)
  }

  /** k successful calls of one worker. */
  ghost function Calls(row: Row, k: nat): seq<Action> {
    if k == 0 then [] else [Begin(0, row, 1)] + ([Read(0)] + ([Append(0)] + Calls(row, k - 1)))
  }

  ghost function Repeated(e: Entry, k: nat): seq<Entry> {
    if k == 0 then [] else [e] + Repeated(e, k - 1)
  }

  lemma {:induction false} RepeatedIsCopies(c: Config, row: Row, k: nat)
    ensures Copies(Repeated(Appended(c, row), k), Sanitized(row)) == k == |Repeated(Appended(c, row), k)|
  {
    if k > 0 {
      RepeatedIsCopies(c, row, k - 1);
      assert Repeated(Appended(c, row), k)[1..] == Repeated(Appended(c, row), k - 1);
    }
  }

  lemma BlindAgain(c: Config, tab: seq<Entry>, row: Row)
    requires Blind(c, tab, row)
    ensures Blind(c, tab + [Appended(c, row)], row)
  {
    var more := tab + [Appended(c, row)];
    assert forall k :: 0 <= k < |tab| ==> more[k] == tab[k];
  }

  /** Where reads are blind every successful call adds another copy: no bound at all. */
  lemma {:induction false} BlindCallsPileUp(c: Config, s: State, row: Row, k: nat)
    requires s.workers != [] && (s.workers[0].Fresh? || s.workers[0].Returned?) && Exportable(c, row)
    requires Blind(c, s.tab, row)
    ensures Legal(c, s, Calls(row, k))
    ensures After(c, s, Calls(row, k)).tab == s.tab + Repeated(Appended(c, row), k)
    decreases k
  {
    if k > 0 {
      var s1 := Apply(c, s, Begin(0, row, 1));
      var s2 := Apply(c, s1, Read(0));
      var s3 := Apply(c, s2, Append(0));
      assert s3.tab == s.tab + [Appended(c, row)] && s3.workers[0].Returned?;
      BlindAgain(c, s.tab, row);
      BlindCallsPileUp(c, s3, row, k - 1);
      hide Apply, Enabled;
      AfterCons(c, s2, Append(0), Calls(row, k - 1));
      AfterCons(c, s1, Read(0), [Append(0)] + Calls(row, k - 1));
      AfterCons(c, s, Begin(0, row, 1), [Read(0)] + ([Append(0)] + Calls(row, k - 1)));
    }
  }

  /** The per-worker bound holds for a row exactly if the row matches itself on re-read. */
  lemma CopiesBoundedExactly(c: Config, row: Row)
    requires Lawful(c.lib) && Exportable(c, row) && 1 <= c.workers < WINDOW
    ensures CopiesBounded(c, row) <==> SelfMatch(c, row)
  {
    if SelfMatch(c, row) {
      forall tab, acts
        | JsonTab(c, tab) && Legal(c, Start(c, tab), acts) && |After(c, Start(c, tab), acts).tab| <= WINDOW
        ensures CopiesWithin(c, tab, After(c, Start(c, tab), acts).tab, row)
      {
        RecognisedIsBounded(c, tab, acts, row);
      }
    } else {
      var n := c.workers + 1;
      BlindCallsPileUp(c, Start(c, []), row, n);
      RepeatedIsCopies(c, row, n);
      var later := After(c, Start(c, []), Calls(row, n)).tab;
      assert later[0..] == later == Repeated(Appended(c, row), n);
      assert JsonTab(c, []) && !CopiesWithin(c, [], later, row);
    }
  }

  /** ... that is, exactly if all four cells come back and none of them spells NaN. */
  lemma SelfMatchExactly(c: Config, row: Row)
    ensures SelfMatch(c, row) <==> c.kept(Sanitized(row)) >= |row| && NaNFree(c.lib, Sanitized(row))
  {
    var w := Sanitized(row);
    ReadsBackExactly(c.lib, w, if c.kept(w) < |w| then c.kept(w) else |w|);
  }

  /** Past row 1000 even a recognised row piles up. */
  lemma BeyondTheWindow(c: Config, tab: seq<Entry>, row: Row, k: nat)
    requires 1 <= c.workers && Exportable(c, row) && WINDOW <= |tab| && !Seen(c, tab, Sanitized(row))
    ensures Legal(c, Start(c, tab), Calls(row, k))
    ensures var later := After(c, Start(c, tab), Calls(row, k)).tab;
            tab <= later && Copies(later[|tab|..], Sanitized(row)) == k
  {
    BlindCallsPileUp(c, Start(c, tab), row, k);
    RepeatedIsCopies(c, row, k);
    assert (tab + Repeated(Appended(c, row), k))[|tab|..] == Repeated(Appended(c, row), k);
  }

  // ---- The bound is attained ----

  function Looked(row: Row): Worker {
    Appending(Call(row, 1, 1, 0))
  }

  function Wrote(row: Row): Worker {
    Returned(Call(row, 1, 1, 1), true)
  }

  ghost function AllLook(row: Row, k: nat): seq<Action> {
    if k == 0 then [] else AllLook(row, k - 1) + ([Begin(k - 1, row, 1)] + ([Read(k - 1)] + []))
  }

  ghost function AllAppend(k: nat): seq<Action> {
    if k == 0 then [] else AllAppend(k - 1) + ([Append(k - 1)] + [])
  }

  lemma OneLooks(c: Config, s: State, row: Row, w: nat)
    requires Exportable(c, row) && s.tab == [] && w < |s.workers| && s.workers[w].Fresh?
    ensures var acts := [Begin(w, row, 1)] + ([Read(w)] + []);
            Legal(c, s, acts) && After(c, s, acts) == State([], s.workers[w := Looked(row)])
  {
    var s1 := Apply(c, s, Begin(w, row, 1));
    var s2 := Apply(c, s1, Read(w));
    assert s2.tab == [] && s2.workers == s.workers[w := Looked(row)];
    hide Apply, Enabled;
    AfterCons(c, s1, Read(w), []);
    AfterCons(c, s, Begin(w, row, 1), [Read(w)] + []);
  }

  /** The first k of n workers are in one state, the others in another. */
  ghost function Split(n: nat, k: nat, first: Worker, rest: Worker): seq<Worker> {
    seq(n, i => if i < k then first else rest)
  }

  lemma SplitMoves(n: nat, k: nat, first: Worker, rest: Worker)
    requires k < n
    ensures Split(n, k, first, rest)[k := first] == Split(n, k + 1, first, rest)
  {
  }

  lemma NobodyLooks(c: Config, row: Row)
    ensures Legal(c, Start(c, []), AllLook(row, 0))
    ensures After(c, Start(c, []), AllLook(row, 0)) == State([], Split(c.workers, 0, Looked(row), Fresh))
  {
    assert Start(c, []).workers == Split(c.workers, 0, Looked(row), Fresh);
  }

  lemma {:induction false} EveryoneLooks(c: Config, row: Row, k: nat)
    requires Exportable(c, row) && k <= c.workers
    ensures Legal(c, Start(c, []), AllLook(row, k))
    ensures After(c, Start(c, []), AllLook(row, k)) == State([], Split(c.workers, k, Looked(row), Fresh))
    decreases k
  {
    hide Legal, After, Apply, Enabled, Exportable;
    if k == 0 {
      NobodyLooks(c, row);
    } else {
      EveryoneLooks(c, row, k - 1);
      var s := After(c, Start(c, []), AllLook(row, k - 1));
      OneLooks(c, s, row, k - 1);
      AfterConcat(c, Start(c, []), AllLook(row, k - 1), [Begin(k - 1, row, 1)] + ([Read(k - 1)] + []));
      SplitMoves(c.workers, k - 1, Looked(row), Fresh);
    }
  }

  lemma OneAppends(c: Config, s: State, row: Row, w: nat)
    requires w < |s.workers| && s.workers[w] == Looked(row)
    ensures var acts := [Append(w)] + [];
            Legal(c, s, acts) && After(c, s, acts) == State(s.tab + [Appended(c, row)], s.workers[w := Wrote(row)])
  {
    AfterCons(c, s, Append(w), []);
  }

  lemma {:induction false} EveryoneAppends(c: Config, s: State, row: Row, k: nat)
    requires s == State([], Split(c.workers, 0, Wrote(row), Looked(row))) && k <= c.workers
    ensures Legal(c, s, AllAppend(k))
    ensures After(c, s, AllAppend(k))
         == State(Repeated(Appended(c, row), k), Split(c.workers, k, Wrote(row), Looked(row)))
    decreases k
  {
    hide Apply, Enabled, Appended;
    if k > 0 {
      EveryoneAppends(c, s, row, k - 1);
      var t := After(c, s, AllAppend(k - 1));
      OneAppends(c, t, row, k - 1);
      AfterConcat(c, s, AllAppend(k - 1), [Append(k - 1)] + []);
      RepeatedEnds(Appended(c, row), k - 1);
      SplitMoves(c.workers, k - 1, Wrote(row), Looked(row));
    }
  }

  lemma {:induction false} RepeatedEnds(e: Entry, k: nat)
    ensures Repeated(e, k + 1) == Repeated(e, k) + [e]
  {
    if k > 0 { RepeatedEnds(e, k - 1); }
  }

  ghost function Race(c: Config, row: Row): seq<Action> {
    AllLook(row, c.workers) + AllAppend(c.workers)
  }

  /** If every worker looks before any of them appends, every worker adds a copy. */
  lemma BoundIsAttained(c: Config, row: Row)
    requires Exportable(c, row)
    ensures Legal(c, Start(c, []), Race(c, row))
    ensures After(c, Start(c, []), Race(c, row)).tab == Repeated(Appended(c, row), c.workers)
    ensures Copies(After(c, Start(c, []), Race(c, row)).tab, Sanitized(row)) == c.workers
  {
    EveryoneLooks(c, row, c.workers);
    var s := After(c, Start(c, []), AllLook(row, c.workers));
    assert s.workers == Split(c.workers, 0, Wrote(row), Looked(row));
    EveryoneAppends(c, s, row, c.workers);
    AfterConcat(c, Start(c, []), AllLook(row, c.workers), AllAppend(c.workers));
    RepeatedIsCopies(c, row, c.workers);
  }

  // ---- Never a duplicate ----

  ghost predicate Duplicates(c: Config, a: Entry, b: Entry) {
    a.written.Some? && b.written.Some? && Match(c.lib, a.cells, b.written.value)
  }

  /** No two rows the gateway wrote match. */
  ghost predicate Unduplicated(c: Config, tab: seq<Entry>) {
    forall i, j :: 0 <= i < j < |tab| ==> !Duplicates(c, tab[i], tab[j])
  }

  /** Only rows that are recognised on re-read are ever submitted. */
  ghost predicate AllRecognised(c: Config, acts: seq<Action>) {
    forall k :: 0 <= k < |acts| && acts[k].Begin? ==> SelfMatch(c, acts[k].row)
  }

  ghost predicate KeepsUnduplicated(c: Config, tab: seq<Entry>, acts: seq<Action>) {
    Legal(c, Start(c, tab), acts) && |After(c, Start(c, tab), acts).tab| <= WINDOW
    ==> Unduplicated(c, After(c, Start(c, tab), acts).tab)
  }

  /** What the gateway's documentation promises: re-submitting never duplicates a row. */
  ghost predicate NeverDuplicates(c: Config) {
    forall tab, acts ::
      JsonTab(c, tab) && Unduplicated(c, tab) && AllRecognised(c, acts) ==> KeepsUnduplicated(c, tab, acts)
  }

  /** Rows the gateway has added, and those it is working on, are recognised on re-read. */
  ghost predicate Recognised(c: Config, base: seq<Entry>, s: State) {
    && base <= s.tab
    && (forall k :: |base| <= k < |s.tab| && s.tab[k].written.Some? ==> GoodEntry(c, s.tab[k]))
    && (forall w :: 0 <= w < |s.workers| && !s.workers[w].Fresh? ==>
          Exportable(c, s.workers[w].call.row) && SelfMatch(c, s.workers[w].call.row))
  }

  ghost predicate GoodEntry(c: Config, e: Entry) {
    e.written.Some? && Match(c.lib, e.cells, e.written.value)
    && |e.written.value| == WIDTH && JsonRow(c.lib, e.written.value) && e.cells == ReadBack(c, e.written.value)
  }

  lemma RecognisedStep(c: Config, base: seq<Entry>, s: State, a: Action)
    requires Recognised(c, base, s) && Enabled(c, s, a) && (a.Begin? ==> SelfMatch(c, a.row))
    ensures Recognised(c, base, Apply(c, s, a))
  {
    var t := Apply(c, s, a);
    if !a.Foreign? && s.workers[a.w].Appending? { SanitizedIsSafe(c.lib, s.workers[a.w].call.row); }
    forall k | |base| <= k < |t.tab| && t.tab[k].written.Some? ensures GoodEntry(c, t.tab[k]) {
      if k < |s.tab| { assert t.tab[k] == s.tab[k]; }
    }
  }

  lemma {:induction false} RecognisedAfter(c: Config, base: seq<Entry>, s: State, acts: seq<Action>)
    requires Recognised(c, base, s) && Legal(c, s, acts) && AllRecognised(c, acts)
    ensures Recognised(c, base, After(c, s, acts))
    decreases |acts|
  {
    if acts != [] {
      RecognisedStep(c, base, s, acts[0]);
      RecognisedAfter(c, base, Apply(c, s, acts[0]), acts[1..]);
    }
  }

  lemma {:induction false} TwoMatches(c: Config, tab: seq<Entry>, want: Row, i: nat, j: nat)
    requires i < j < |tab| && tab[i].written.Some? && tab[j].written.Some?
    requires Match(c.lib, tab[i].cells, want) && Match(c.lib, tab[j].cells, want)
    ensures 2 <= Matching(c, tab, want)
    decreases i
  {
    if i > 0 { TwoMatches(c, tab[1..], want, i - 1, j - 1); } else { OneMatch(c, tab[1..], want, j - 1); }
  }

  lemma {:induction false} OneMatch(c: Config, tab: seq<Entry>, want: Row, j: nat)
    requires j < |tab| && tab[j].written.Some? && Match(c.lib, tab[j].cells, want)
    ensures 1 <= Matching(c, tab, want)
    decreases j
  {
    if j > 0 { OneMatch(c, tab[1..], want, j - 1); }
  }

  /** With one worker "no two gateway rows match" survives every run, failures and re-submissions included. */
  lemma SingleWorkerKeepsUnduplicated(c: Config, tab: seq<Entry>, acts: seq<Action>)
    requires Lawful(c.lib) && c.workers <= 1 && JsonTab(c, tab) && Unduplicated(c, tab) && AllRecognised(c, acts)
    ensures KeepsUnduplicated(c, tab, acts)
  {
    if Legal(c, Start(c, tab), acts) && |After(c, Start(c, tab), acts).tab| <= WINDOW {
      var later := After(c, Start(c, tab), acts).tab;
      RecognisedAfter(c, tab, Start(c, tab), acts);
      forall i, j | 0 <= i < j < |later| ensures !Duplicates(c, later[i], later[j]) {
        if j < |tab| {
          assert later[i] == tab[i] && later[j] == tab[j];
        } else if Duplicates(c, later[i], later[j]) {
          assert GoodEntry(c, later[j]);
          SecondMatchImpossible(c, tab, acts, later, i, j);
        }
      }
    }
  }

  /** Two matches, of which the gateway has added at least the later. */
  lemma TwoCount(c: Config, tab: seq<Entry>, later: seq<Entry>, want: Row, i: nat, j: nat)
    requires tab <= later && i < j && |tab| <= j < |later| <= WINDOW
    requires later[i].written.Some? && later[j].written.Some?
    requires Match(c.lib, later[i].cells, want) && Match(c.lib, later[j].cells, want)
    ensures 1 <= Matching(c, later[|tab|..], want)
    ensures Seen(c, tab, want) || 2 <= Matching(c, later[|tab|..], want)
  {
    hide Match;
    var gained := later[|tab|..];
    assert gained[j - |tab|] == later[j];
    OneMatch(c, gained, want, j - |tab|);
    if i < |tab| {
      assert tab[i] == later[i];
    } else {
      assert gained[i - |tab|] == later[i];
      TwoMatches(c, gained, want, i - |tab|, j - |tab|);
    }
  }

  lemma SecondMatchImpossible(c: Config, tab: seq<Entry>, acts: seq<Action>, later: seq<Entry>, i: nat, j: nat)
    requires Lawful(c.lib) && c.workers <= 1 && JsonTab(c, tab)
    requires Legal(c, Start(c, tab), acts) && later == After(c, Start(c, tab), acts).tab && |later| <= WINDOW
    requires tab <= later && i < j && |tab| <= j < |later| && GoodEntry(c, later[j])
    ensures !Duplicates(c, later[i], later[j])
  {
    hide Legal, After, Enabled, Apply, Match, Lawful, WellFormed, Seen;
    var want := later[j].written.value;
    StartBounded(c, tab, want);
    BoundedAfter(c, tab, Start(c, tab), acts, want);
    if Duplicates(c, later[i], later[j]) { TwoCount(c, tab, later, want, i, j); }
  }

  lemma {:induction false} RaceRecognised(c: Config, row: Row, k: nat)
    requires SelfMatch(c, row)
    ensures AllRecognised(c, AllLook(row, k)) && AllRecognised(c, AllAppend(k))
  {
    if k > 0 { RaceRecognised(c, row, k - 1); }
  }

  /** The documentation's promise holds exactly with at most one worker (given some row that can be exported at all). */
  lemma NeverDuplicatesExactly(c: Config, row: Row)
    requires Lawful(c.lib) && Exportable(c, row) && SelfMatch(c, row) && c.workers <= WINDOW
    ensures NeverDuplicates(c) <==> c.workers <= 1
  {
    if c.workers <= 1 {
      forall tab, acts | JsonTab(c, tab) && Unduplicated(c, tab) && AllRecognised(c, acts)
        ensures KeepsUnduplicated(c, tab, acts)
      {
        SingleWorkerKeepsUnduplicated(c, tab, acts);
      }
    } else {
      BoundIsAttained(c, row);
      RaceRecognised(c, row, c.workers);
      RepeatedIsCopies(c, row, c.workers);
      var e, later := Appended(c, row), After(c, Start(c, []), Race(c, row)).tab;
      assert later[0] == e && later[1] == Repeated(e, c.workers - 1)[0] == e;
      assert Duplicates(c, later[0], later[1]);
      assert JsonTab(c, []) && Unduplicated(c, []) && AllRecognised(c, Race(c, row));
      assert !KeepsUnduplicated(c, [], Race(c, row));
    }
  }

  // ---- Other people ----

  /** Anybody may append any row at any time; a row within the window that matches is then seen by every read. */
  lemma PeopleMayAppend(c: Config, s: State, cells: Row)
    requires JsonRow(c.lib, cells)
    ensures Enabled(c, s, Foreign(cells))
    ensures Apply(c, s, Foreign(cells)) == State(s.tab + [Entry(cells, None)], s.workers)
    ensures forall want :: |s.tab| < 1000 && Match(c.lib, cells, want) ==> Seen(c, s.tab + [Entry(cells, None)], want)
  {
    hide Match;
    forall want | |s.tab| < 1000 && Match(c.lib, cells, want) ensures Seen(c, s.tab + [Entry(cells, None)], want) {
      assert (s.tab + [Entry(cells, None)])[|s.tab|].cells == cells;
    }
  }

  /** Rows from the thousand-and-first on are seen by no read. */
  lemma SeenExactly(c: Config, tab: seq<Entry>, want: Row)
    ensures Seen(c, tab, want) <==> exists k :: 0 <= k < |tab| && k <= 999 && Match(c.lib, tab[k].cells, want)
  {
  }
}
