/**
 From a submitted job to its row: each job is exported by at most one call, the
 rows the gateway adds are those of its jobs, and a recognised row is added once.
 */
module ExportTheorems {
  import opened Wrappers
  import opened Cells
  import opened Exports
  import J = JobProtocol
  import I = JobInvariant
  import T = JobTheorems
  import S = SheetExport
  import BuiltRows
  import Dates

  // ---- Whose rows the tab holds ----

  /** The rows the gateway wrote, in order. */
  ghost function Written(tab: seq<S.Entry>): seq<Row> {
    if tab == [] then []
    else (if tab[0].written.Some? then [tab[0].written.value] else []) + Written(tab[1..])
  }

  lemma {:induction false} WrittenConcat(a: seq<S.Entry>, b: seq<S.Entry>)
    ensures Written(a + b) == Written(a) + Written(b)
  {
    if a == [] {
      assert a + b == b;
    } else {
      assert (a + b)[0] == a[0] && (a + b)[1..] == a[1..] + b;
      WrittenConcat(a[1..], b);
    }
  }

  ghost predicate AuthorsCalled(s: State) {
    forall i :: 0 <= i < |s.authors| ==> s.authors[i] in s.rows
  }

  ghost function Signed(s: State): seq<Row>
    requires AuthorsCalled(s)
  {
    seq(|s.authors|, i requires 0 <= i < |s.authors| => Sanitized(s.rows[s.authors[i]]))
  }

  /** Since the tab was as in base the gateway has added its authors' rows and no others. */
  ghost predicate Accounted(base: seq<S.Entry>, s: State) {
    && AuthorsCalled(s)
    && base <= s.sheet.tab
    && Written(s.sheet.tab[|base|..]) == Signed(s)
  }

  /** What a step of the export protocol adds to the tab, and who signs it. */
  lemma GainIsSigned(c: Config, s: State, a: S.Action)
    requires Linked(c, s) && Enabled(c, s, OfSheet(a))
    ensures var t := Apply(c, s, OfSheet(a));
            && t.sheet.tab == s.sheet.tab + S.Gain(c.sheet, s.sheet, a)
            && if a.Append? || (a.AppendFails? && a.took) then
                 && Awaiting(s, a.w) && JobAt(s, a.w) in s.rows && t.rows == s.rows
                 && t.authors == s.authors + [JobAt(s, a.w)]
                 && Written(S.Gain(c.sheet, s.sheet, a)) == [Sanitized(s.rows[JobAt(s, a.w)])]
               else
                 t.authors == s.authors && Written(S.Gain(c.sheet, s.sheet, a)) == []
  {
    var gain := S.Gain(c.sheet, s.sheet, a);
    if !a.Foreign? && a.w in s.calling { assert InCall(c, s, a.w); }
    assert gain != [] ==> gain[1..] == [];
  }

  lemma SheetStepAccounted(c: Config, base: seq<S.Entry>, s: State, a: S.Action)
    requires Linked(c, s) && Accounted(base, s) && Enabled(c, s, OfSheet(a))
    ensures Accounted(base, Apply(c, s, OfSheet(a)))
  {
    hide Linked, Apply, Enabled, S.Gain, S.Enabled, Exported, InCall, S.Exportable;
    var t := Apply(c, s, OfSheet(a));
    StepProjects(c, s, OfSheet(a));
    var gain := S.Gain(c.sheet, s.sheet, a);
    GainIsSigned(c, s, a);
    RowsKept(c, s, a);
    TabExtends(base, s.sheet.tab, gain);
    assert AuthorsCalled(t);
    assert Signed(t) == Signed(s) + Written(gain);
  }

  lemma TabExtends(base: seq<S.Entry>, tab: seq<S.Entry>, gain: seq<S.Entry>)
    requires base <= tab
    ensures base <= tab + gain && Written((tab + gain)[|base|..]) == Written(tab[|base|..]) + Written(gain)
  {
    assert (tab + gain)[|base|..] == tab[|base|..] + gain;
    WrittenConcat(tab[|base|..], gain);
  }

  lemma RowsKept(c: Config, s: State, a: S.Action)
    requires Linked(c, s) && Enabled(c, s, OfSheet(a))
    ensures var t := Apply(c, s, OfSheet(a)); forall j :: j in s.rows ==> j in t.rows && t.rows[j] == s.rows[j]
  {
    if a.Begin? { BeginIs(c, s, a); } else { CallIs(c, s, a); }
    hide Linked, Apply, Enabled;
  }

  lemma StepAccounted(c: Config, base: seq<S.Entry>, s: State, a: Action)
    requires Linked(c, s) && Accounted(base, s) && Enabled(c, s, a)
    ensures Accounted(base, Apply(c, s, a))
  {
    if a.OfSheet? {
      SheetStepAccounted(c, base, s, a.call);
    } else {
      JobStepIs(c, s, a.job);
      hide Linked, Apply, Enabled;
      assert Signed(Apply(c, s, a)) == Signed(s);
    }
  }

  // ---- How often a job signs ----

  /** A call has added what its job has signed. */
  ghost predicate CallsCounted(s: State) {
    forall w :: w in s.calling && Awaiting(s, w) && w < |s.sheet.workers| && !s.sheet.workers[w].Fresh? ==>
      multiset(s.authors)[JobAt(s, w)] == s.sheet.workers[w].call.added
  }

  /** A job with a recognised row signs at most once. */
  ghost predicate SignedOnce(c: Config, s: State) {
    forall j :: j in s.rows && S.SelfMatch(c.sheet, s.rows[j]) ==> multiset(s.authors)[j] <= 1
  }

  /** What was delivered is there. */
  ghost predicate DeliveredThere(c: Config, s: State) {
    forall j :: j in s.delivered ==> j in s.rows && Present(c, s, s.rows[j])
  }

  ghost predicate Counted(c: Config, s: State) {
    S.CallsFit(c.sheet, s.sheet) && AuthorsCalled(s) && CallsCounted(s) && SignedOnce(c, s) && DeliveredThere(c, s)
  }

  /** A recognised row is in the tab for reads to find. */
  ghost predicate Present(c: Config, s: State, row: Row) {
    S.SelfMatch(c.sheet, row) ==> S.Seen(c.sheet, s.sheet.tab, Sanitized(row))
  }

  lemma PresentStays(c: Config, s: State, a: Action, row: Row)
    requires Enabled(c, s, a) && Present(c, s, row) && |Apply(c, s, a).sheet.tab| <= S.WINDOW
    ensures Present(c, Apply(c, s, a), row)
  {
    StepProjects(c, s, a);
    if a.OfSheet? { S.SeenGrows(c.sheet, s.sheet.tab, S.Gain(c.sheet, s.sheet, a.call), Sanitized(row)); }
  }

  lemma DeliveredStays(c: Config, s: State, a: S.Action)
    requires Linked(c, s) && DeliveredThere(c, s) && Enabled(c, s, OfSheet(a))
    requires |Apply(c, s, OfSheet(a)).sheet.tab| <= S.WINDOW
    ensures DeliveredThere(c, Apply(c, s, OfSheet(a)))
  {
    var t := Apply(c, s, OfSheet(a));
    if a.Begin? { BeginIs(c, s, a); } else { CallIs(c, s, a); }
    hide Linked, Enabled, Present;
    forall j | j in t.delivered ensures j in t.rows && Present(c, t, t.rows[j]) {
      assert j in s.delivered && t.rows[j] == s.rows[j];
      PresentStays(c, s, OfSheet(a), s.rows[j]);
    }
  }

  lemma CallersStay(c: Config, s: State, a: J.Action, w: nat)
    requires Linked(c, s) && Enabled(c, s, OfJobs(a))
    ensures var t := Apply(c, s, OfJobs(a));
            w in t.calling ==>
              && w in s.calling && Awaiting(s, w)
              && w < |t.jobs.workers| && t.jobs.workers[w] == s.jobs.workers[w]
  {
    JobStepIs(c, s, a);
    if w in Apply(c, s, OfJobs(a)).calling {
      assert InCall(c, s, w);
      HoldersMove(c, s, a, w);
    }
  }

  /** The job just exported, if its call returned without an error. */
  lemma NewlyDelivered(c: Config, s: State, a: J.Action)
    requires Linked(c, s) && S.CallsFit(c.sheet, s.sheet) && Enabled(c, s, OfJobs(a))
    ensures var t := Apply(c, s, OfJobs(a));
            forall j :: j in t.delivered && j !in s.delivered ==> j in s.rows && Present(c, s, s.rows[j])
  {
    if Finishes(s, OfJobs(a)) {
      assert InCall(c, s, a.w);
      assert S.CallFits(c.sheet, s.sheet, s.sheet.workers[a.w]);
    }
  }

  lemma JobCounted(c: Config, s: State, a: J.Action)
    requires Linked(c, s) && Counted(c, s) && Enabled(c, s, OfJobs(a))
    ensures Counted(c, Apply(c, s, OfJobs(a)))
  {
    hide Linked, Apply, Enabled, S.CallsFit, S.SelfMatch, S.Seen;
    var t := Apply(c, s, OfJobs(a));
    JobStepIs(c, s, a);
    NewlyDelivered(c, s, a);
    forall w | w in t.calling ensures w in s.calling && Awaiting(s, w) && t.jobs.workers[w] == s.jobs.workers[w] {
      CallersStay(c, s, a, w);
    }
  }

  lemma OthersCalls(c: Config, s: State, w: nat, j: J.JobId, v: nat)
    requires Linked(c, s) && w in s.calling && Awaiting(s, v) && JobAt(s, v) == j && v != w
    ensures Awaiting(s, w) && JobAt(s, w) != j
  {
    assert InCall(c, s, w);
    assert I.Holds(s.jobs, w, JobAt(s, w)) && I.Holds(s.jobs, v, j);
  }

  lemma BeginCounted(c: Config, s: State, a: S.Action)
    requires Linked(c, s) && Enabled(c, s, OfSheet(a)) && a.Begin?
    ensures var t := Apply(c, s, OfSheet(a));
            Counted(c, s) && |t.sheet.tab| <= S.WINDOW ==> Counted(c, t)
  {
    hide Linked, Apply, Enabled, S.CallsFit, S.SelfMatch, S.Seen, S.Exportable, Exported, InCall;
    var t := Apply(c, s, OfSheet(a));
    if Counted(c, s) && |t.sheet.tab| <= S.WINDOW {
      StepProjects(c, s, OfSheet(a));
      S.CallsFitStep(c.sheet, s.sheet, a);
      BeginIs(c, s, a);
      DeliveredStays(c, s, a);
      var j := JobAt(s, a.w);
      assert j !in s.authors;
      forall w | w in s.calling ensures Awaiting(s, w) && JobAt(s, w) != j {
        OthersCalls(c, s, w, j, a.w);
      }
    }
  }

  lemma SheetCallAdds(c: S.Config, s: S.State, a: S.Action)
    requires S.Enabled(c, s, a) && !a.Begin? && !a.Foreign? && !s.workers[a.w].Fresh?
    ensures var t := S.Apply(c, s, a);
            && a.w < |t.workers| && !t.workers[a.w].Fresh?
            && t.workers[a.w].call.added
               == s.workers[a.w].call.added + if a.Append? || (a.AppendFails? && a.took) then 1 else 0
  {
  }

  /** A step of a call in progress: its job signs what it adds. */
  lemma CallCounts(c: Config, s: State, a: S.Action)
    requires Linked(c, s) && Enabled(c, s, OfSheet(a)) && !a.Begin? && !a.Foreign?
    ensures var t := Apply(c, s, OfSheet(a));
            && InCall(c, s, a.w) && InCall(c, t, a.w) && Awaiting(s, a.w)
            && var gain := t.sheet.workers[a.w].call.added - s.sheet.workers[a.w].call.added;
               && 0 <= gain
               && multiset(t.authors) == multiset(s.authors)[JobAt(s, a.w) := multiset(s.authors)[JobAt(s, a.w)] + gain]
  {
    hide Apply, Enabled, I.Inv, S.Apply, S.Enabled, S.Gain, Exported, BeforeCall, S.Exportable;
    CallMovesOne(c, s, a);
    assert InCall(c, s, a.w);
    StepProjects(c, s, OfSheet(a));
    SheetCallAdds(c.sheet, s.sheet, a);
    GainIsSigned(c, s, a);
    CallLinked(c, s, a);
    CallIs(c, s, a);
    assert InCall(c, Apply(c, s, OfSheet(a)), a.w);
  }

  lemma CallKeepsCounts(c: Config, s: State, a: S.Action)
    requires Linked(c, s) && Enabled(c, s, OfSheet(a)) && !a.Begin? && !a.Foreign?
    ensures AuthorsCalled(s) && CallsCounted(s) ==> CallsCounted(Apply(c, s, OfSheet(a)))
  {
    hide Linked, Apply, Enabled, InCall;
    CallIs(c, s, a);
    CallCounts(c, s, a);
    CallMovesOne(c, s, a);
    forall w | w in s.calling && w != a.w ensures Awaiting(s, w) && JobAt(s, w) != JobAt(s, a.w) {
      OthersCalls(c, s, w, JobAt(s, a.w), a.w);
    }
  }

  lemma CallCounted(c: Config, s: State, a: S.Action)
    requires Linked(c, s) && Enabled(c, s, OfSheet(a)) && !a.Begin?
    ensures var t := Apply(c, s, OfSheet(a));
            Counted(c, s) && |t.sheet.tab| <= S.WINDOW ==> Counted(c, t)
  {
    hide Linked, Apply, Enabled, S.CallsFit, S.SelfMatch, S.Seen;
    var t := Apply(c, s, OfSheet(a));
    if Counted(c, s) && |t.sheet.tab| <= S.WINDOW {
      StepProjects(c, s, OfSheet(a));
      S.CallsFitStep(c.sheet, s.sheet, a);
      CallIs(c, s, a);
      DeliveredStays(c, s, a);
      GainIsSigned(c, s, a);
      if a.Foreign? {
        ForeignMovesNone(c, s, a);
      } else {
        CallKeepsCounts(c, s, a);
        CallCounts(c, s, a);
        AddedOnce(c, t, a.w);
      }
    }
  }

  /** A call of a recognised row has added at most one row. */
  lemma AddedOnce(c: Config, s: State, w: nat)
    requires S.CallsFit(c.sheet, s.sheet) && InCall(c, s, w)
    ensures S.SelfMatch(c.sheet, s.rows[JobAt(s, w)]) ==> s.sheet.workers[w].call.added <= 1
  {
    assert S.CallFits(c.sheet, s.sheet, s.sheet.workers[w]);
  }

  lemma CallMovesOne(c: Config, s: State, a: S.Action)
    requires Enabled(c, s, OfSheet(a)) && !a.Begin? && !a.Foreign?
    ensures var t := Apply(c, s, OfSheet(a));
            |t.sheet.workers| == |s.sheet.workers| && a.w in s.calling
            && forall w :: 0 <= w < |s.sheet.workers| && w != a.w ==> t.sheet.workers[w] == s.sheet.workers[w]
  {
  }

  lemma ForeignMovesNone(c: Config, s: State, a: S.Action)
    requires Enabled(c, s, OfSheet(a)) && a.Foreign?
    ensures Apply(c, s, OfSheet(a)).sheet.workers == s.sheet.workers
  {
  }

  lemma StepCounted(c: Config, s: State, a: Action)
    requires Linked(c, s) && Counted(c, s) && Enabled(c, s, a) && |Apply(c, s, a).sheet.tab| <= S.WINDOW
    ensures Counted(c, Apply(c, s, a))
  {
    hide Linked, Counted, Apply, Enabled;
    match a
    case OfJobs(job) => JobCounted(c, s, job);
    case OfSheet(call) => if call.Begin? { BeginCounted(c, s, call); } else { CallCounted(c, s, call); }
  }

  // ---- Every finished job was exported ----

  /** With an LLM and a spreadsheet no job gets past its export without a call. */
  ghost predicate Tried(c: Config, s: State) {
    c.jobs.llm && c.jobs.sheets ==>
      && (forall j :: 0 <= j < |s.jobs.jobs| && s.jobs.jobs[j].status.Done? ==> j in s.rows)
      && (forall w, j: J.JobId :: I.Holds(s.jobs, w, j) && s.jobs.workers[w].pc.MarkDone? ==> j in s.rows)
  }

  lemma ReachesDone(c: J.Config, pc: J.Pc, r: J.Record, now: real, i: J.Input)
    requires I.AtWorker(c, pc, r) && c.llm && c.sheets
    ensures var (next, q) := J.Instruction(c, pc, r, now, i);
            && (next.MarkDone? ==> pc.AwaitExport?)
            && (q.status.Done? ==> r.status.Done? || pc.MarkDone?)
  {
  }

  lemma WorkTried(c: Config, s: State, a: J.Action)
    requires Linked(c, s) && Tried(c, s) && Enabled(c, s, OfJobs(a)) && a.Work? && c.jobs.llm && c.jobs.sheets
    ensures var t, j := Apply(c, s, OfJobs(a)), s.jobs.workers[a.w].job;
            && a.w < |t.jobs.workers| && j < |t.jobs.jobs|
            && (t.jobs.jobs[j].status.Done? || (t.jobs.workers[a.w].Busy? && t.jobs.workers[a.w].pc.MarkDone?) ==>
                  j in s.rows)
  {
    var s', j := s.jobs, s.jobs.workers[a.w].job;
    assert I.Holds(s', a.w, j);
    ReachesDone(c.jobs, s'.workers[a.w].pc, s'.jobs[j], s'.now, a.input);
    I.WorkMoves(c.jobs, s', a.w, a.input);
    if Awaiting(s, a.w) { assert InCall(c, s, a.w); }
  }

  lemma JobTried(c: Config, s: State, a: J.Action)
    requires Linked(c, s) && Tried(c, s) && Enabled(c, s, OfJobs(a))
    ensures Tried(c, Apply(c, s, OfJobs(a)))
  {
    var t := Apply(c, s, OfJobs(a));
    JobStepIs(c, s, a);
    if c.jobs.llm && c.jobs.sheets {
      forall j | 0 <= j < |t.jobs.jobs| && t.jobs.jobs[j].status.Done? ensures j in t.rows {
        DoneComesFromWork(c, s, a, j);
        if a.Work? && s.jobs.workers[a.w].job == j { WorkTried(c, s, a); }
      }
      forall w, j: J.JobId | I.Holds(t.jobs, w, j) && t.jobs.workers[w].pc.MarkDone? ensures j in t.rows {
        OwnersStay(c, s, a);
        WorkersMove(c.jobs, s.jobs, a, w);
        if a.Work? && a.w == w { WorkTried(c, s, a); } else { assert I.Holds(s.jobs, w, j); }
      }
    }
  }

  lemma NewJobsAreQueued(c: J.Config, s: J.State, a: J.Action, j: J.JobId)
    requires J.Enabled(c, s, a) && |s.jobs| <= j < |J.Apply(c, s, a).jobs|
    ensures J.Apply(c, s, a).jobs[j].status.Queued?
  {
  }

  lemma HandlersMakeNothingDone(c: J.Config, s: J.State, j: J.JobId)
    requires I.Records(c, s) && I.Clocked(s) && J.Enabled(c, s, J.Handle(j))
    ensures j < |J.Apply(c, s, J.Handle(j)).jobs| && !J.Apply(c, s, J.Handle(j)).jobs[j].status.Done?
  {
    assert I.AtHandler(s.handlers[j], s.jobs[j]);
  }

  /** Only a job's own worker makes it done. */
  lemma DoneComesFromWork(c: Config, s: State, a: J.Action, j: J.JobId)
    requires Linked(c, s) && J.Enabled(c.jobs, s.jobs, a)
    requires j < |J.Apply(c.jobs, s.jobs, a).jobs| && J.Apply(c.jobs, s.jobs, a).jobs[j].status.Done?
    ensures j < |s.jobs.jobs|
    ensures s.jobs.jobs[j].status.Done? || (a.Work? && s.jobs.workers[a.w].job == j)
  {
    hide J.Apply, I.Records, I.Ownership, I.Retained, I.Polled, I.Clocked;
    if j >= |s.jobs.jobs| {
      NewJobsAreQueued(c.jobs, s.jobs, a, j);
    } else if a.Handle? && a.id == j {
      HandlersMakeNothingDone(c.jobs, s.jobs, j);
    } else if !(a.Work? && s.jobs.workers[a.w].job == j) {
      I.OthersLeaveJob(c.jobs, s.jobs, a, j);
    }
  }

  lemma StepTried(c: Config, s: State, a: Action)
    requires Linked(c, s) && Tried(c, s) && Enabled(c, s, a)
    ensures Tried(c, Apply(c, s, a))
  {
    match a
    case OfJobs(job) => JobTried(c, s, job);
    case OfSheet(call) =>
      if call.Begin? { BeginIs(c, s, call); } else { CallIs(c, s, call); }
      hide Linked, Apply, Enabled;
      assert forall w, j: J.JobId :: I.Holds(Apply(c, s, a).jobs, w, j) <==> I.Holds(s.jobs, w, j);
  }

  // ---- Over whole runs ----

  ghost predicate Good(c: Config, base: seq<S.Entry>, s: State) {
    Linked(c, s) && Accounted(base, s) && Tried(c, s) && (|s.sheet.tab| <= S.WINDOW ==> Counted(c, s))
  }

  lemma TabOnlyGrows(c: Config, s: State, a: Action)
    requires Enabled(c, s, a)
    ensures |s.sheet.tab| <= |Apply(c, s, a).sheet.tab|
  {
    StepProjects(c, s, a);
  }

  lemma {:induction false} GoodAfter(c: Config, base: seq<S.Entry>, s: State, acts: seq<Action>)
    requires Good(c, base, s) && Legal(c, s, acts)
    ensures Good(c, base, After(c, s, acts))
    decreases |acts|
  {
    hide Linked, Accounted, Counted, Tried, Enabled, Apply;
    if acts != [] {
      var a := acts[0];
      TabOnlyGrows(c, s, a);
      StepLinked(c, s, a);
      StepAccounted(c, base, s, a);
      StepTried(c, s, a);
      if |Apply(c, s, a).sheet.tab| <= S.WINDOW { StepCounted(c, s, a); }
      GoodAfter(c, base, Apply(c, s, a), acts[1..]);
    }
  }

  lemma StartLinked(c: Config, tab: seq<S.Entry>)
    requires Matched(c)
    ensures Linked(c, Start(c, tab))
  {
    I.InitInv(c.jobs);
    hide I.Inv;
  }

  lemma StartAccounted(c: Config, tab: seq<S.Entry>)
    ensures Accounted(tab, Start(c, tab))
  {
    assert tab[|tab|..] == [];
    assert Signed(Start(c, tab)) == [];
  }

  lemma GoodStart(c: Config, tab: seq<S.Entry>)
    requires Matched(c)
    ensures Good(c, tab, Start(c, tab))
  {
    hide Linked, Accounted;
    StartLinked(c, tab);
    StartAccounted(c, tab);
    assert forall w, j: J.JobId :: !I.Holds(Start(c, tab).jobs, w, j);
  }

  /** A state some joint run leads to, from a tab that holds whatever it holds. */
  ghost predicate Reached(c: Config, tab: seq<S.Entry>, acts: seq<Action>, s: State) {
    Legal(c, Start(c, tab), acts) && s == After(c, Start(c, tab), acts)
  }

  lemma ReachedGood(c: Config, tab: seq<S.Entry>, acts: seq<Action>, s: State)
    requires Matched(c) && Reached(c, tab, acts, s)
    ensures Good(c, tab, s)
  {
    GoodStart(c, tab);
    GoodAfter(c, tab, Start(c, tab), acts);
  }

  /** The gateway's own rows are such as this file asks for, however it reads dates and capitalises. */
  lemma BuiltRowsMatch(c: Config, date: string -> Dates.Date, capital: string -> string)
    requires c.jobs.workers == c.sheet.workers && Lawful(c.sheet.lib) && BuiltRows.HoldsSerials(c.sheet.lib)
    requires forall d :: date(d).Valid()
    requires forall e: J.Extraction ::
               c.rowOf(e) == BuiltRows.BuildRow(c.sheet.lib, date(e.date), e.price, e.place, capital(e.category))
    ensures Matched(c)
  {
    hide BuiltRows.BuildRow, S.Exportable;
    forall e: J.Extraction ensures S.Exportable(c.sheet, c.rowOf(e)) {
      BuiltRows.BuiltIsExportable(c.sheet, date(e.date), e.price, e.place, capital(e.category));
    }
  }

  /** The record's extraction is the one the row was built from. */
  ghost predicate ShowsRow(c: Config, r: J.Record, row: Row) {
    r.result.Some? && r.result.value.extraction.Some? && row == c.rowOf(r.result.value.extraction.value)
  }

  /** A job is exported by at most one call, with the row of the extraction its record shows. */
  lemma OneCallPerJob(c: Config, tab: seq<S.Entry>, acts: seq<Action>, s: State)
    requires Matched(c) && Reached(c, tab, acts, s)
    ensures I.NoDup(s.begun) && forall j :: j in s.begun <==> j in s.rows
    ensures forall j :: j in s.begun ==> j < |s.jobs.jobs| && ShowsRow(c, s.jobs.jobs[j], s.rows[j])
  {
    ReachedGood(c, tab, acts, s);
    forall j | j in s.begun ensures j < |s.jobs.jobs| && ShowsRow(c, s.jobs.jobs[j], s.rows[j]) {
      assert Exported(c, s, j);
    }
  }

  /** The rows the gateway has added are those of exported jobs, and a job whose row is recognised has at most one:
      however many acknowledgements are lost, and however many workers there are. */
  lemma OneRowPerJob(c: Config, tab: seq<S.Entry>, acts: seq<Action>, s: State)
    requires Matched(c) && Reached(c, tab, acts, s)
    ensures tab <= s.sheet.tab && AuthorsCalled(s) && Written(s.sheet.tab[|tab|..]) == Signed(s)
    ensures |s.sheet.tab| <= S.WINDOW ==>
              forall j :: j in s.rows && S.SelfMatch(c.sheet, s.rows[j]) ==> multiset(s.authors)[j] <= 1
  {
    ReachedGood(c, tab, acts, s);
  }

  /** With an LLM and a spreadsheet every done job was exported, by exactly one call, as its final result says;
      and if that call returned no error a recognised row is there. */
  lemma DoneIsExported(c: Config, tab: seq<S.Entry>, acts: seq<Action>, s: State, j: J.JobId)
    requires Matched(c) && Reached(c, tab, acts, s) && j < |s.jobs.jobs|
    ensures c.jobs.llm && c.jobs.sheets && s.jobs.jobs[j].status.Done? ==>
              multiset(s.begun)[j] == 1 && j in s.rows && ShowsRow(c, s.jobs.jobs[j], s.rows[j])
    ensures |s.sheet.tab| <= S.WINDOW && j in s.delivered ==>
              && j in s.rows && ShowsRow(c, s.jobs.jobs[j], s.rows[j])
              && (S.SelfMatch(c.sheet, s.rows[j]) ==> S.Seen(c.sheet, s.sheet.tab, Sanitized(s.rows[j])))
  {
    ReachedGood(c, tab, acts, s);
    if j in s.rows {
      assert Exported(c, s, j);
      OnceInNoDup(s.begun, j);
    }
  }

  lemma {:induction false} OnceInNoDup(s: seq<J.JobId>, j: J.JobId)
    requires I.NoDup(s) && j in s
    ensures multiset(s)[j] == 1
  {
    var k :| 0 <= k < |s| && s[k] == j;
    assert s == s[..k] + [j] + s[k + 1..];
    assert j !in s[..k] && j !in s[k + 1..];
  }

  /** A worker at its export can always go on: begin the call, take its next step, or leave it. */
  lemma ExportNeverStuck(c: Config, tab: seq<S.Entry>, acts: seq<Action>, s: State, w: nat)
    requires Matched(c) && Reached(c, tab, acts, s) && Awaiting(s, w)
    ensures exists a :: Enabled(c, s, a) && (Finishes(s, a) || (a.OfSheet? && !a.call.Foreign? && a.call.w == w))
  {
    ReachedGood(c, tab, acts, s);
    if w in s.calling { CallGoesOn(c, s, w); } else { CallBegins(c, s, w); }
  }

  lemma CallBegins(c: Config, s: State, w: nat)
    requires Matched(c) && Linked(c, s) && Awaiting(s, w) && w !in s.calling
    ensures exists a :: Enabled(c, s, a) && a.OfSheet? && !a.call.Foreign? && a.call.w == w
  {
    var j := JobAt(s, w);
    assert I.Holds(s.jobs, w, j) && I.AtWorker(c.jobs, J.AwaitExport, s.jobs.jobs[j]);
    assert BeforeCall(s, w);
    hide I.Inv;
    assert Enabled(c, s, OfSheet(S.Begin(w, RowOf(c, s.jobs.jobs[j]).value, c.attempts)));
  }

  lemma CallGoesOn(c: Config, s: State, w: nat)
    requires Linked(c, s) && w in s.calling
    ensures exists a :: Enabled(c, s, a) && (Finishes(s, a) || (a.OfSheet? && !a.call.Foreign? && a.call.w == w))
  {
    hide I.Inv, J.Enabled, S.Enabled, Exported, BeforeCall, S.Exportable;
    assert InCall(c, s, w);
    if s.sheet.workers[w].Returned? {
      assert I.Holds(s.jobs, w, JobAt(s, w));
      OnlyHolder(c, s, w, JobAt(s, w));
      WorkEnabled(c.jobs, s.jobs, w);
      var work := J.Work(w, T.SOMETHING);
      assert Enabled(c, s, OfJobs(work)) && Finishes(s, OfJobs(work));
    } else {
      var a := CallStep(c.sheet, s.sheet, w);
      assert Enabled(c, s, OfSheet(a));
    }
  }

  lemma WorkEnabled(c: J.Config, s: J.State, w: nat)
    requires w < |s.workers| && s.workers[w].Busy? && s.workers[w].pc.AwaitExport? && s.workers[w].job < |s.jobs|
    ensures J.Enabled(c, s, J.Work(w, T.SOMETHING))
  {
  }

  lemma CallStep(c: S.Config, s: S.State, w: nat) returns (a: S.Action)
    requires w < |s.workers| && !s.workers[w].Fresh? && !s.workers[w].Returned?
    ensures S.Enabled(c, s, a) && !a.Begin? && !a.Foreign? && a.w == w
  {
    match s.workers[w]
    case Reading(_) => a := S.Read(w);
    case Appending(_) => a := S.Append(w);
    case Waiting(_) => a := S.TryAgain(w);
  }

  /** Nothing else waits for an export: other steps of the jobs and other people's rows happen when they would alone. */
  lemma OthersRunFree(c: Config, s: State, a: J.Action, cells: Row)
    ensures J.Enabled(c.jobs, s.jobs, a) && !(a.Work? && Awaiting(s, a.w)) ==> Enabled(c, s, OfJobs(a))
    ensures JsonRow(c.sheet.lib, cells) ==> Enabled(c, s, OfSheet(S.Foreign(cells)))
  {
    hide J.Enabled;
  }

  /** A job counts as delivered exactly from the step that leaves a call which returned without an error. */
  lemma DeliveredExactly(c: Config, s: State, a: Action, j: J.JobId)
    requires Enabled(c, s, a)
    ensures j in Apply(c, s, a).delivered <==>
            || j in s.delivered
            || (a.OfJobs? && a.job.Work? && Awaiting(s, a.job.w) && JobAt(s, a.job.w) == j
                && a.job.w < |s.sheet.workers| && s.sheet.workers[a.job.w].Returned? && s.sheet.workers[a.job.w].ok)
  {
    hide J.Enabled, J.Apply, S.Enabled, S.Apply;
  }
}
