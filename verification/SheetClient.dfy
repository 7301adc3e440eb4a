/**
 AppendRowWithRetry as the gateway writes it: a loop that reads the tab, compares
 rows, appends and backs off.  It is the retry loop of Backoff around one
 check-then-append, and one undisturbed run of a worker of SheetExport.
 */
module SheetClient {
  import opened Wrappers
  import opened Cells
  import opened SheetExport
  import opened Backoff

  /** What the outside world does to one attempt. */
  datatype Fate = Fate(readFails: bool, appendFails: bool, took: bool, spent: nat, timerFirst: bool)

  class RemoteTab {
    var rows: seq<Entry>

    constructor (rows: seq<Entry>)
      ensures this.rows == rows
    {
      this.rows := rows;
    }

    /** values.get of A1:D1000. */
    method ReadValues() returns (values: seq<Row>)
      ensures |values| == if |rows| < 1000 then |rows| else 1000
      ensures forall i :: 0 <= i < |values| ==> values[i] == rows[i].cells
      ensures values == Visible(rows)
    {
      values := [];
      var k := 0;
      while k < |rows| && k < WINDOW
        invariant 0 <= k <= |rows| && k <= WINDOW
        invariant |values| == k && forall i :: 0 <= i < k ==> values[i] == rows[i].cells
      {
        values := values + [rows[k].cells];
        k := k + 1;
      }
    }

    method AppendRow(c: Config, row: Row, fate: Fate) returns (ok: bool)
      modifies this
      ensures ok <==> !fate.appendFails
      ensures rows == if ok || fate.took then old(rows) + [Appended(c, row)] else old(rows)
    {
      if fate.appendFails && !fate.took {
        return false;
      }
      rows := rows + [Appended(c, row)];
      return !fate.appendFails;
    }
  }

  function Visible(tab: seq<Entry>): seq<Row> {
    var n := if |tab| < WINDOW then |tab| else WINDOW;
    seq(n, i requires 0 <= i < n => tab[i].cells)
  }

  lemma VisibleIsSeen(c: Config, tab: seq<Entry>, want: Row)
    ensures SomeMatch(c.lib, Visible(tab), want) <==> Seen(c, tab, want)
  {
    var values := Visible(tab);
    if k :| 0 <= k < |values| && Match(c.lib, values[k], want) { assert Match(c.lib, tab[k].cells, want); }
    if k :| 0 <= k < |tab| && k < WINDOW && Match(c.lib, tab[k].cells, want) { assert Match(c.lib, values[k], want); }
  }

  /** What one attempt leaves in the tab, and whether it ends the loop. */
  ghost function Attempted(c: Config, tab: seq<Entry>, row: Row, f: Fate): (seq<Entry>, bool) {
    if f.readFails then (tab, false)
    else if Seen(c, tab, Sanitized(row)) then (tab, true)
    else (if !f.appendFails || f.took then tab + [Appended(c, row)] else tab, !f.appendFails)
  }

  /** The tab on reaching the k-th attempt. */
  ghost function TabBefore(c: Config, tab: seq<Entry>, row: Row, fates: nat -> Fate, k: nat): seq<Entry> {
    if k <= 1 then tab else Attempted(c, TabBefore(c, tab, row, fates, k - 1), row, fates(k - 1)).0
  }

  ghost function Attempts(c: Config, tab: seq<Entry>, row: Row, fates: nat -> Fate): nat -> Try<bool> {
    (k: nat) => Try(fates(k).spent,
                    if Attempted(c, TabBefore(c, tab, row, fates, k), row, fates(k)).1 then Some(true) else None,
                    fates(k).timerFirst)
  }

  lemma AttemptAt(c: Config, tab: seq<Entry>, row: Row, fates: nat -> Fate, k: nat)
    ensures var after := Attempted(c, TabBefore(c, tab, row, fates, k), row, fates(k));
            && Attempts(c, tab, row, fates)(k)
               == Try(fates(k).spent, if after.1 then Some(true) else None, fates(k).timerFirst)
            && (1 <= k ==> TabBefore(c, tab, row, fates, k + 1) == after.0)
  {
  }

  method AppendRowWithRetry(c: Config, tab: RemoteTab, row: Row, start: int, deadline: int, maxRetries: int,
                            fates: nat -> Fate)
      returns (ok: bool, attempts: nat, ghost waited: int, at: int)
    modifies tab
    ensures Report(if ok then Some(true) else None, attempts, waited, at)
         == Retry(start, deadline, 1, Wrap(maxRetries + 1), 0, Attempts(c, old(tab.rows), row, fates))
    ensures tab.rows == TabBefore(c, old(tab.rows), row, fates, attempts + 1)
  {
    hide Wrap, Delay, TimerWins, Seen, Match, Appended, Sanitized, Attempts;
    var total := Wrap(maxRetries + 1);
    ghost var world := Attempts(c, tab.rows, row, fates);
    var attempt: nat := 1;
    attempts, waited, at := 0, 0, start;
    while attempt <= total
      invariant 1 <= attempt && attempts == attempt - 1
      invariant tab.rows == TabBefore(c, old(tab.rows), row, fates, attempt)
      invariant Retry(at, deadline, attempt, total, waited, world) == Retry(start, deadline, 1, total, 0, world)
      decreases total - attempt
    {
      attempts := attempt;
      AttemptAt(c, old(tab.rows), row, fates, attempt);
      at := at + fates(attempt).spent;
      if !fates(attempt).readFails {
        var values := tab.ReadValues();
        VisibleIsSeen(c, tab.rows, Sanitized(row));
        var matches := RowMatches(c.lib, values, row);
        if matches {
          return true, attempts, waited, at;
        }
        var appended := tab.AppendRow(c, row, fates(attempt));
        if appended {
          return true, attempts, waited, at;
        }
      }
      if attempt < total {
        var delay := Delay(attempt);
        if TimerWins(at, delay, deadline, fates(attempt).timerFirst) {
          at := Later(at, at + delay);
          waited := waited + Later(0, delay);
        } else {
          at := Later(at, deadline);
          return false, attempts, waited, at;
        }
      } else {
        return false, attempts, waited, at;
      }
      attempt := attempt + 1;
    }
    return false, attempts, waited, at;
  }

  /** However its attempts fail, a call adds nothing or one row; if it succeeds a match is there to be read. */
  lemma {:induction false} CallAddsAtMostOne(c: Config, tab: seq<Entry>, row: Row, fates: nat -> Fate, k: nat)
    requires SelfMatch(c, row) && |tab| < WINDOW && 1 <= k
    ensures TabBefore(c, tab, row, fates, k) == tab || TabBefore(c, tab, row, fates, k) == tab + [Appended(c, row)]
    ensures Attempts(c, tab, row, fates)(k).value.Some? ==>
              Seen(c, TabBefore(c, tab, row, fates, k + 1), Sanitized(row))
    decreases k
  {
    hide Attempted, Attempts, Seen, SelfMatch, Appended, Sanitized;
    AttemptAt(c, tab, row, fates, k);
    if k > 1 {
      CallAddsAtMostOne(c, tab, row, fates, k - 1);
      AttemptAt(c, tab, row, fates, k - 1);
      AttemptAddsIfAbsent(c, tab, TabBefore(c, tab, row, fates, k - 1), row, fates(k - 1));
    }
    AttemptAddsIfAbsent(c, tab, TabBefore(c, tab, row, fates, k), row, fates(k));
  }

  /** An attempt adds the row only if its call has not yet, and leaves a match if it succeeds. */
  lemma AttemptAddsIfAbsent(c: Config, tab: seq<Entry>, now: seq<Entry>, row: Row, f: Fate)
    requires SelfMatch(c, row) && |tab| < WINDOW && (now == tab || now == tab + [Appended(c, row)])
    ensures var (later, ok) := Attempted(c, now, row, f);
            && (later == tab || later == tab + [Appended(c, row)])
            && (ok ==> Seen(c, later, Sanitized(row)))
  {
    AppendedIsSeen(c, tab, row);
    hide Seen, SelfMatch, Appended, Sanitized;
  }

  lemma AppendedIsSeen(c: Config, tab: seq<Entry>, row: Row)
    requires SelfMatch(c, row) && |tab| < WINDOW
    ensures Seen(c, tab + [Appended(c, row)], Sanitized(row))
  {
    assert (tab + [Appended(c, row)])[|tab|] == Appended(c, row);
  }

  // ---- What a call achieves ----

  /** An attempt that fails and leaves nothing: the read fails, or the append does before taking effect. */
  predicate Futile(f: Fate) {
    f.readFails || (f.appendFails && !f.took)
  }

  /** Attempts from j on fail and leave the tab as attempt j finds it. */
  lemma {:induction false} FutileThrough(c: Config, tab: seq<Entry>, row: Row, fates: nat -> Fate, j: nat, k: nat)
    requires 1 <= j <= k
    requires forall i :: j <= i < k ==>
               fates(i).readFails
               || (Futile(fates(i)) && !Seen(c, TabBefore(c, tab, row, fates, j), Sanitized(row)))
    ensures TabBefore(c, tab, row, fates, k) == TabBefore(c, tab, row, fates, j)
    ensures forall i :: j <= i < k ==> Attempts(c, tab, row, fates)(i).value.None?
    decreases k
  {
    hide Seen, Attempts, Sanitized, Appended;
    if j < k {
      FutileThrough(c, tab, row, fates, j, k - 1);
      AttemptAt(c, tab, row, fates, k - 1);
      assert fates(k - 1).readFails || Futile(fates(k - 1));
    }
  }

  /** The waits before attempt k all end before the deadline. */
  ghost predicate InTime(c: Config, tab: seq<Entry>, row: Row, fates: nat -> Fate, start: int, deadline: int, k: nat) {
    var world := Attempts(c, tab, row, fates);
    forall i :: 2 <= i <= k ==> Begins(start, world, i) < deadline
  }

  /** How a call ends whose first k - 1 attempts fail in time: as its k-th attempt does, if that succeeds. */
  lemma EndsWith(c: Config, tab: seq<Entry>, row: Row, fates: nat -> Fate,
                 start: int, deadline: int, total: int, k: nat)
    requires 0 <= start && deadline < INT64 && 1 <= k <= total && InTime(c, tab, row, fates, start, deadline, k)
    requires forall i :: 1 <= i < k ==> Attempts(c, tab, row, fates)(i).value.None?
    requires Attempted(c, TabBefore(c, tab, row, fates, k), row, fates(k)).1
    ensures var r := Retry(start, deadline, 1, total, 0, Attempts(c, tab, row, fates));
            && r.value == Some(true) && r.attempts == k
            && TabBefore(c, tab, row, fates, r.attempts + 1)
               == Attempted(c, TabBefore(c, tab, row, fates, k), row, fates(k)).0
  {
    hide Attempted, Attempts, Retry;
    AttemptAt(c, tab, row, fates, k);
    SucceedsInTime(start, deadline, total, Attempts(c, tab, row, fates), k);
  }

  /** A row that is not there is appended, once, by the first attempt that gets through. */
  lemma AppendsWhatIsMissing(c: Config, tab: seq<Entry>, row: Row, fates: nat -> Fate,
                             start: int, deadline: int, total: int, k: nat)
    requires 0 <= start && deadline < INT64 && 1 <= k <= total && InTime(c, tab, row, fates, start, deadline, k)
    requires !Seen(c, tab, Sanitized(row))
    requires (forall i :: 1 <= i < k ==> Futile(fates(i))) && !fates(k).readFails && !fates(k).appendFails
    ensures var r := Retry(start, deadline, 1, total, 0, Attempts(c, tab, row, fates));
            && r.value == Some(true) && r.attempts == k
            && TabBefore(c, tab, row, fates, r.attempts + 1) == tab + [Appended(c, row)]
  {
    FutileThrough(c, tab, row, fates, 1, k);
    EndsWith(c, tab, row, fates, start, deadline, total, k);
  }

  /** A row that is there is left alone, and found by the first read that gets through. */
  lemma SkipsWhatIsThere(c: Config, tab: seq<Entry>, row: Row, fates: nat -> Fate,
                         start: int, deadline: int, total: int, k: nat)
    requires 0 <= start && deadline < INT64 && 1 <= k <= total && InTime(c, tab, row, fates, start, deadline, k)
    requires Seen(c, tab, Sanitized(row))
    requires (forall i :: 1 <= i < k ==> fates(i).readFails) && !fates(k).readFails
    ensures var r := Retry(start, deadline, 1, total, 0, Attempts(c, tab, row, fates));
            r.value == Some(true) && r.attempts == k && TabBefore(c, tab, row, fates, r.attempts + 1) == tab
  {
    FutileThrough(c, tab, row, fates, 1, k);
    EndsWith(c, tab, row, fates, start, deadline, total, k);
  }

  /** After an append whose acknowledgement was lost, the first read that gets through finds the row:
      the call succeeds and the row is there once. */
  lemma FindsWhatWasLost(c: Config, tab: seq<Entry>, row: Row, fates: nat -> Fate,
                         start: int, deadline: int, total: int, j: nat, k: nat)
    requires 0 <= start && deadline < INT64 && 1 <= j < k <= total && InTime(c, tab, row, fates, start, deadline, k)
    requires SelfMatch(c, row) && |tab| < WINDOW && !Seen(c, tab, Sanitized(row))
    requires forall i :: 1 <= i < j ==> Futile(fates(i))
    requires !fates(j).readFails && fates(j).appendFails && fates(j).took
    requires (forall i :: j < i < k ==> fates(i).readFails) && !fates(k).readFails
    ensures var r := Retry(start, deadline, 1, total, 0, Attempts(c, tab, row, fates));
            && r.value == Some(true) && r.attempts == k
            && TabBefore(c, tab, row, fates, r.attempts + 1) == tab + [Appended(c, row)]
  {
    hide Seen, SelfMatch, Appended, Sanitized, Attempted, Attempts, Retry, Begins, InTime;
    FutileThrough(c, tab, row, fates, 1, j);
    AttemptAt(c, tab, row, fates, j);
    Lost(c, tab, row, fates(j));
    FutileThrough(c, tab, row, fates, j + 1, k);
    AppendedIsSeen(c, tab, row);
    Found(c, tab + [Appended(c, row)], row, fates(k));
    EndsWith(c, tab, row, fates, start, deadline, total, k);
  }

  lemma Lost(c: Config, tab: seq<Entry>, row: Row, f: Fate)
    requires !f.readFails && f.appendFails && f.took && !Seen(c, tab, Sanitized(row))
    ensures Attempted(c, tab, row, f) == (tab + [Appended(c, row)], false)
  {
  }

  lemma Found(c: Config, tab: seq<Entry>, row: Row, f: Fate)
    requires !f.readFails && Seen(c, tab, Sanitized(row))
    ensures Attempted(c, tab, row, f) == (tab, true)
  {
  }

  /** Where a call has got to once its worker has returned with report r. */
  ghost predicate Delivered(c: Config, tab: seq<Entry>, row: Row, fates: nat -> Fate, r: Report<bool>,
                            s: State, w: nat) {
    && w < |s.workers| && s.workers[w].Returned? && s.workers[w].call.row == row
    && s.workers[w].ok == r.value.Some?
    && s.tab == TabBefore(c, tab, row, fates, r.attempts + 1)
  }

  /** The loop's next round, or its end. */
  lemma RetryUnfolds(t: int, deadline: int, k: nat, total: int, waited: int, world: nat -> Try<bool>)
    requires 1 <= k <= total
    ensures var r, u, delay := Retry(t, deadline, k, total, waited, world), t + world(k).took, Delay(k);
            if world(k).value.None? && k < total && TimerWins(u, delay, deadline, world(k).timerFirst)
            then r == Retry(Later(u, u + delay), deadline, k + 1, total, waited + Later(0, delay), world)
            else r.attempts == k && r.value == world(k).value
  {
  }

  /** The report of a call that has reached its k-th attempt at time t. */
  ghost function ReportFrom(c: Config, tab: seq<Entry>, row: Row, fates: nat -> Fate, deadline: int,
                            k: nat, total: int, t: int, waited: int): Report<bool>
    requires 1 <= k
  {
    Retry(t, deadline, k, total, waited, Attempts(c, tab, row, fates))
  }

  /** A worker about to make the k-th attempt of a call that started at tab. */
  ghost predicate Attempting(c: Config, tab: seq<Entry>, row: Row, fates: nat -> Fate, k: nat, total: int,
                             s: State, w: nat) {
    && 1 <= k <= total && w < |s.workers| && s.workers[w].Reading? && s.workers[w].call.row == row
    && s.workers[w].call.attempt == k && s.workers[w].call.total == total
    && s.tab == TabBefore(c, tab, row, fates, k)
  }

  /** One round of the loop: either the call returns or its next attempt begins. */
  lemma OneRound(c: Config, tab: seq<Entry>, row: Row, fates: nat -> Fate, deadline: int,
                 k: nat, total: int, t: int, waited: int, s: State, w: nat)
      returns (acts: seq<Action>, again: bool, t': int, waited': int)
    requires Attempting(c, tab, row, fates, k, total, s, w)
    ensures Legal(c, s, acts)
    ensures var r := ReportFrom(c, tab, row, fates, deadline, k, total, t, waited);
            if again then
              && k < total && Attempting(c, tab, row, fates, k + 1, total, After(c, s, acts), w)
              && r == ReportFrom(c, tab, row, fates, deadline, k + 1, total, t', waited')
            else Delivered(c, tab, row, fates, r, After(c, s, acts), w)
  {
    hide Attempted, Attempts, Enabled, Apply, Legal, After, Delay, TimerWins, TabBefore, Retry;
    AttemptAt(c, tab, row, fates, k);
    RetryUnfolds(t, deadline, k, total, waited, Attempts(c, tab, row, fates));
    var f := fates(k);
    var tried, s1 := TryOnce(c, s, w, f);
    var x, delay := t + f.spent, Delay(k);
    acts, again, t', waited' := tried, false, Later(x, x + delay), waited + Later(0, delay);
    if s1.workers[w].Waiting? {
      again := TimerWins(x, delay, deadline, f.timerFirst);
      var next := if again then TryAgain(w) else Cancel(w);
      WaitingSteps(c, s1, w);
      AfterOne(c, s1, next);
      AfterConcat(c, s, tried, [next]);
      acts := tried + [next];
    }
  }

  /** The method is one worker's call with nobody else about: from its first read to its return it is a run. */
  lemma {:induction false} CallIsARun(c: Config, tab: seq<Entry>, row: Row, fates: nat -> Fate, deadline: int,
                                      k: nat, total: int, t: int, waited: int, s: State, w: nat)
      returns (acts: seq<Action>)
    requires Attempting(c, tab, row, fates, k, total, s, w)
    ensures Legal(c, s, acts)
    ensures var r := ReportFrom(c, tab, row, fates, deadline, k, total, t, waited);
            Delivered(c, tab, row, fates, r, After(c, s, acts), w)
    decreases total - k
  {
    hide *;
    var again, t', waited';
    acts, again, t', waited' := OneRound(c, tab, row, fates, deadline, k, total, t, waited, s, w);
    if again {
      var rest := CallIsARun(c, tab, row, fates, deadline, k + 1, total, t', waited', After(c, s, acts), w);
      AfterConcat(c, s, acts, rest);
      acts := acts + rest;
    }
  }

  /** And so it is from its call on, whatever number of attempts it is allowed. */
  lemma WholeCallIsARun(c: Config, s: State, w: nat, row: Row, fates: nat -> Fate,
                        start: int, deadline: int, total: int)
      returns (acts: seq<Action>)
    requires w < |s.workers| && (s.workers[w].Fresh? || s.workers[w].Returned?) && Exportable(c, row)
    ensures Legal(c, s, [Begin(w, row, total)] + acts)
    ensures var r := Retry(start, deadline, 1, total, 0, Attempts(c, s.tab, row, fates));
            Delivered(c, s.tab, row, fates, r, After(c, s, [Begin(w, row, total)] + acts), w)
  {
    var t := Apply(c, s, Begin(w, row, total));
    if 1 <= total {
      assert Attempting(c, s.tab, row, fates, 1, total, t, w);
      hide Apply, Enabled, Retry, Attempts, TabBefore;
      acts := CallIsARun(c, s.tab, row, fates, deadline, 1, total, start, 0, t, w);
    } else {
      acts := [];
      assert After(c, t, []) == t;
    }
    AfterCons(c, s, Begin(w, row, total), acts);
  }

  lemma WaitingSteps(c: Config, s: State, w: nat)
    requires w < |s.workers| && s.workers[w].Waiting?
    ensures Enabled(c, s, TryAgain(w)) && Enabled(c, s, Cancel(w))
    ensures var call := s.workers[w].call;
            && Apply(c, s, TryAgain(w)) == State(s.tab, s.workers[w := Reading(call.(attempt := call.attempt + 1))])
            && Apply(c, s, Cancel(w)) == State(s.tab, s.workers[w := Returned(call, false)])
  {
  }

  /** One attempt as steps of the export protocol. */
  lemma TryOnce(c: Config, s: State, w: nat, f: Fate) returns (acts: seq<Action>, t: State)
    requires w < |s.workers| && s.workers[w].Reading?
    ensures Legal(c, s, acts) && t == After(c, s, acts) && |t.workers| == |s.workers|
    ensures var call := s.workers[w].call;
            var (tab, ok) := Attempted(c, s.tab, call.row, f);
            && t.tab == tab && !t.workers[w].Fresh? && t.workers[w].call.row == call.row
            && t.workers[w].call.attempt == call.attempt && t.workers[w].call.total == call.total
            && (if ok then t.workers[w].Returned? && t.workers[w].ok
                else if call.attempt < call.total then t.workers[w].Waiting?
                else t.workers[w].Returned? && !t.workers[w].ok)
  {
    if f.readFails {
      AfterCons(c, s, ReadFails(w), []);
      acts := [ReadFails(w)] + [];
    } else {
      var s1 := Apply(c, s, Read(w));
      if s1.workers[w].Returned? {
        AfterCons(c, s, Read(w), []);
        acts := [Read(w)] + [];
      } else {
        var last := if f.appendFails then AppendFails(w, f.took) else Append(w);
        AfterCons(c, s1, last, []);
        AfterCons(c, s, Read(w), [last] + []);
        acts := [Read(w)] + ([last] + []);
      }
    }
    t := After(c, s, acts);
  }
}
