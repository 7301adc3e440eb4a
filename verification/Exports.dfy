/**
 Jobs and their exports together: a worker of the job protocol whose job awaits
 its export makes one call of the export protocol, and goes on when the call has
 returned.  Both protocols otherwise run as they are.
 */
module Exports {
  import opened Wrappers
  import opened Cells
  import J = JobProtocol
  import I = JobInvariant
  import T = JobTheorems
  import S = SheetExport

  /** rowOf builds the row of an extraction; attempts is one more than the configured retries. */
  datatype Config = Config(jobs: J.Config, sheet: S.Config, rowOf: J.Extraction -> Row, attempts: int)

  ghost predicate Matched(c: Config) {
    c.jobs.workers == c.sheet.workers && forall e :: S.Exportable(c.sheet, c.rowOf(e))
  }

  datatype State = State(
    jobs: J.State,
    sheet: S.State,
    calling: set<nat>,           // workers in the middle of a call
    rows: map<J.JobId, Row>,     // history: the row of each job whose call began
    begun: seq<J.JobId>,         // history: those jobs, in order
    authors: seq<J.JobId>,       // history: the job each row of the gateway is from, in order
    delivered: set<J.JobId>      // history: jobs whose call returned without an error
  )

  datatype Action = OfJobs(job: J.Action) | OfSheet(call: S.Action)

  ghost function Start(c: Config, tab: seq<S.Entry>): State {
    State(J.Init(c.jobs), S.Start(c.sheet, tab), {}, map[], [], [], {})
  }

  predicate Awaiting(s: State, w: nat) {
    w < |s.jobs.workers| && s.jobs.workers[w].Busy? && s.jobs.workers[w].pc.AwaitExport?
  }

  function RowOf(c: Config, r: J.Record): Option<Row> {
    if r.result.Some? && r.result.value.extraction.Some? then Some(c.rowOf(r.result.value.extraction.value)) else None
  }

  predicate Finishes(s: State, a: Action) {
    a.OfJobs? && a.job.Work? && Awaiting(s, a.job.w)
  }

  /** How the two constrain each other: a call is made for an awaited export, once, and awaited to its end. */
  predicate InTurn(c: Config, s: State, a: Action) {
    match a
    case OfJobs(job) =>
      Finishes(s, a) ==> job.w in s.calling && job.w < |s.sheet.workers| && s.sheet.workers[job.w].Returned?
    case OfSheet(call) =>
      !call.Foreign? ==>
        && Awaiting(s, call.w)
        && if !call.Begin? then call.w in s.calling
           else && call.w !in s.calling && s.jobs.workers[call.w].job < |s.jobs.jobs|
                && RowOf(c, s.jobs.jobs[s.jobs.workers[call.w].job]) == Some(call.row)
                && call.total == c.attempts
  }

  ghost predicate Enabled(c: Config, s: State, a: Action) {
    && InTurn(c, s, a)
    && match a
       case OfJobs(job) => J.Enabled(c.jobs, s.jobs, job)
       case OfSheet(call) => S.Enabled(c.sheet, s.sheet, call)
  }

  function JobAt(s: State, w: nat): J.JobId
    requires Awaiting(s, w)
  {
    s.jobs.workers[w].job
  }

  ghost function Apply(c: Config, s: State, a: Action): State
    requires Enabled(c, s, a)
  {
    match a
    case OfJobs(job) =>
      var t := s.(jobs := J.Apply(c.jobs, s.jobs, job));
      if !Finishes(s, a) then t
      else t.(calling := s.calling - {job.w},
              delivered := if s.sheet.workers[job.w].ok then s.delivered + {JobAt(s, job.w)} else s.delivered)
    case OfSheet(call) =>
      var t := s.(sheet := S.Apply(c.sheet, s.sheet, call));
      if call.Begin? then
        var j := JobAt(s, call.w);
        t.(calling := s.calling + {call.w}, rows := s.rows[j := call.row], begun := s.begun + [j])
      else if call.Append? || (call.AppendFails? && call.took) then
        t.(authors := s.authors + [JobAt(s, call.w)])
      else t
  }

  ghost predicate Legal(c: Config, s: State, acts: seq<Action>)
    decreases |acts|
  {
    acts == [] || (Enabled(c, s, acts[0]) && Legal(c, Apply(c, s, acts[0]), acts[1..]))
  }

  ghost function After(c: Config, s: State, acts: seq<Action>): State
    requires Legal(c, s, acts)
    decreases |acts|
  {
    if acts == [] then s else After(c, Apply(c, s, acts[0]), acts[1..])
  }

  // ---- Each protocol's own theorems apply ----

  function JobActions(acts: seq<Action>): seq<J.Action> {
    if acts == [] then []
    else (if acts[0].OfJobs? then [acts[0].job] else []) + JobActions(acts[1..])
  }

  function SheetActions(acts: seq<Action>): seq<S.Action> {
    if acts == [] then []
    else (if acts[0].OfSheet? then [acts[0].call] else []) + SheetActions(acts[1..])
  }

  lemma StepProjects(c: Config, s: State, a: Action)
    requires Enabled(c, s, a)
    ensures a.OfJobs? ==> J.Enabled(c.jobs, s.jobs, a.job)
    ensures a.OfSheet? ==> S.Enabled(c.sheet, s.sheet, a.call)
    ensures Apply(c, s, a).jobs == if a.OfJobs? then J.Apply(c.jobs, s.jobs, a.job) else s.jobs
    ensures Apply(c, s, a).sheet == if a.OfSheet? then S.Apply(c.sheet, s.sheet, a.call) else s.sheet
  {
    hide J.Enabled, J.Apply, S.Enabled, S.Apply, InTurn;
  }

  /** Seen from the job protocol a joint run is one of its runs, so all that is proved of those holds here ... */
  lemma {:induction false} ProjectsToJobs(c: Config, s: State, acts: seq<Action>)
    requires Legal(c, s, acts)
    ensures J.Legal(c.jobs, s.jobs, JobActions(acts))
    ensures J.After(c.jobs, s.jobs, JobActions(acts)) == After(c, s, acts).jobs
    decreases |acts|
  {
    hide J.Enabled, J.Apply, Enabled, Apply;
    if acts != [] {
      var a, rest := acts[0], acts[1..];
      StepProjects(c, s, a);
      ProjectsToJobs(c, Apply(c, s, a), rest);
      if a.OfJobs? {
        J.AfterCons(c.jobs, s.jobs, a.job, JobActions(rest));
      } else {
        assert JobActions(acts) == JobActions(rest);
      }
    }
  }

  /** ... and so it is for the export protocol. */
  lemma {:induction false} ProjectsToSheet(c: Config, s: State, acts: seq<Action>)
    requires Legal(c, s, acts)
    ensures S.Legal(c.sheet, s.sheet, SheetActions(acts))
    ensures S.After(c.sheet, s.sheet, SheetActions(acts)) == After(c, s, acts).sheet
    decreases |acts|
  {
    hide S.Enabled, S.Apply, Enabled, Apply;
    if acts != [] {
      var a, rest := acts[0], acts[1..];
      StepProjects(c, s, a);
      ProjectsToSheet(c, Apply(c, s, a), rest);
      if a.OfSheet? {
        S.AfterCons(c.sheet, s.sheet, a.call, SheetActions(rest));
      } else {
        assert SheetActions(acts) == SheetActions(rest);
      }
    }
  }

  // ---- What a step of the job protocol leaves alone ----

  /** From awaiting the export on. */
  predicate Late(pc: J.Pc) {
    pc.AwaitExport? || pc.MarkDone? || pc.ClockDone? || pc.StampDone? || pc.FinalSave?
  }

  lemma LateStaysLate(c: J.Config, pc: J.Pc, r: J.Record, now: real, i: J.Input)
    requires Late(pc)
    ensures var (next, q) := J.Instruction(c, pc, r, now, i);
            q.result == r.result && !next.AwaitExport? && (next.Returned? || Late(next))
  {
  }

  /** Workers change hands and programs only by their own steps. */
  lemma WorkersMove(c: J.Config, s: J.State, a: J.Action, w: nat)
    requires I.Ownership(c, s) && J.Enabled(c, s, a) && w < |s.workers|
    ensures var t := J.Apply(c, s, a);
            && |t.workers| == |s.workers|
            && (t.workers[w] == s.workers[w]
                || (a.Work? && a.w == w)
                || (s.workers[w].Idle? && (t.workers[w].Exited?
                    || (t.workers[w].Busy? && t.workers[w].pc.MarkProcessing? && t.workers[w].job !in s.received))))
            && forall j :: j in s.received ==> j in t.received
  {
    I.NoDupParts(s.received, s.queue);
    if a.Receive? { assert s.queue[0] in s.queue; }
    if a.Handoff? { I.HandlerOwns(c, s, a.id); }
  }

  /** A job whose call began was received and is over or late, and its row is still its result's. */
  ghost predicate Exported(c: Config, s: State, j: J.JobId) {
    && j in s.rows && j in s.jobs.received && j < |s.jobs.jobs|
    && RowOf(c, s.jobs.jobs[j]) == Some(s.rows[j])
    && forall w :: I.Holds(s.jobs, w, j) ==> Late(s.jobs.workers[w].pc)
  }

  ghost predicate InCall(c: Config, s: State, w: nat) {
    && Awaiting(s, w) && w < |s.sheet.workers| && !s.sheet.workers[w].Fresh?
    && JobAt(s, w) in s.rows && s.sheet.workers[w].call.row == s.rows[JobAt(s, w)]
  }

  ghost predicate BeforeCall(s: State, w: nat) {
    && w < |s.sheet.workers| && (s.sheet.workers[w].Fresh? || s.sheet.workers[w].Returned?)
    && (Awaiting(s, w) ==> JobAt(s, w) !in s.rows)
  }

  /** Calls and jobs fit together. */
  ghost predicate Linked(c: Config, s: State) {
    && I.Inv(c.jobs, s.jobs)
    && |s.sheet.workers| == |s.jobs.workers|
    && (forall w :: w in s.calling ==> InCall(c, s, w))
    && (forall w :: 0 <= w < |s.jobs.workers| && w !in s.calling ==> BeforeCall(s, w))
    && (forall j :: j in s.rows ==> Exported(c, s, j))
    && (forall j :: j in s.rows <==> j in s.begun)
    && I.NoDup(s.begun)
    && (forall w :: 0 <= w < |s.sheet.workers| && !s.sheet.workers[w].Fresh? ==>
          S.Exportable(c.sheet, s.sheet.workers[w].call.row))
  }

  lemma ResultKept(c: Config, s: State, a: J.Action, j: J.JobId)
    requires I.Inv(c.jobs, s.jobs) && J.Enabled(c.jobs, s.jobs, a) && Exported(c, s, j)
    ensures var t := J.Apply(c.jobs, s.jobs, a);
            j < |t.jobs| && t.jobs[j].result == s.jobs.jobs[j].result
  {
    var s' := s.jobs;
    if a.Work? && s'.workers[a.w].job == j {
      assert I.Holds(s', a.w, j);
      I.WorkMoves(c.jobs, s', a.w, a.input);
      LateStaysLate(c.jobs, s'.workers[a.w].pc, s'.jobs[j], s'.now, a.input);
    } else if a.Handle? && a.id == j {
      I.HandlerOwns(c.jobs, s', j);
      assert false;
    } else {
      I.OthersLeaveJob(c.jobs, s', a, j);
    }
  }

  /** A late worker goes on, and only a late worker's job has been exported. */
  lemma HoldersMove(c: Config, s: State, a: J.Action, w: nat)
    requires Linked(c, s) && J.Enabled(c.jobs, s.jobs, a) && w < |s.jobs.workers|
    ensures var t := J.Apply(c.jobs, s.jobs, a);
            && |t.workers| == |s.jobs.workers|
            && (t.workers[w].Busy? && t.workers[w].job in s.rows ==> Late(t.workers[w].pc))
            && (t.workers[w].Busy? && t.workers[w].pc.AwaitExport? ==>
                  t.workers[w] == s.jobs.workers[w] || t.workers[w].job !in s.rows)
            && (s.jobs.workers[w].Busy? && s.jobs.workers[w].pc.AwaitExport? && !(a.Work? && a.w == w) ==>
                  t.workers[w] == s.jobs.workers[w])
            && forall j :: j in s.jobs.received ==> j in t.received
  {
    WorkersMove(c.jobs, s.jobs, a, w);
    if a.Work? && a.w == w {
      var s', j := s.jobs, s.jobs.workers[w].job;
      assert I.Holds(s', w, j);
      I.WorkMoves(c.jobs, s', w, a.input);
      if j in s.rows {
        assert Exported(c, s, j);
        LateStaysLate(c.jobs, s'.workers[w].pc, s'.jobs[j], s'.now, a.input);
      }
    } else if s.jobs.workers[w].Busy? && s.jobs.workers[w].job in s.rows {
      assert Exported(c, s, s.jobs.workers[w].job);
      assert I.Holds(s.jobs, w, s.jobs.workers[w].job);
    }
  }

  lemma OwnersStay(c: Config, s: State, a: J.Action)
    requires J.Enabled(c.jobs, s.jobs, a)
    ensures var t := J.Apply(c.jobs, s.jobs, a);
            |t.workers| == |s.jobs.workers| && forall j :: j in s.jobs.received ==> j in t.received
  {
  }

  lemma ExportedKept(c: Config, s: State, a: J.Action, j: J.JobId)
    requires Linked(c, s) && Enabled(c, s, OfJobs(a)) && j in s.rows
    ensures Exported(c, Apply(c, s, OfJobs(a)), j)
  {
    var t := Apply(c, s, OfJobs(a));
    assert t.jobs == J.Apply(c.jobs, s.jobs, a) && t.rows == s.rows;
    assert Exported(c, s, j);
    ResultKept(c, s, a, j);
    OwnersStay(c, s, a);
    hide Linked, J.Apply, J.Enabled, Late;
    forall w | I.Holds(t.jobs, w, j) ensures Late(t.jobs.workers[w].pc) {
      HoldersMove(c, s, a, w);
    }
  }

  lemma InCallKept(c: Config, s: State, a: J.Action, w: nat)
    requires Linked(c, s) && Enabled(c, s, OfJobs(a)) && w in s.calling && !(a.Work? && a.w == w)
    ensures InCall(c, Apply(c, s, OfJobs(a)), w)
  {
    assert InCall(c, s, w);
    HoldersMove(c, s, a, w);
    hide Linked, J.Apply, J.Enabled;
  }

  /** The step that follows the call's return. */
  lemma CallEnds(c: Config, s: State, a: J.Action, w: nat)
    requires Linked(c, s) && Enabled(c, s, OfJobs(a)) && w in s.calling && a.Work? && a.w == w
    ensures var t := Apply(c, s, OfJobs(a)); w !in t.calling && BeforeCall(t, w)
  {
    assert InCall(c, s, w);
    var s', j := s.jobs, s.jobs.workers[w].job;
    I.WorkMoves(c.jobs, s', w, a.input);
    LateStaysLate(c.jobs, s'.workers[w].pc, s'.jobs[j], s'.now, a.input);
  }

  lemma BeforeCallKept(c: Config, s: State, a: J.Action, w: nat)
    requires Linked(c, s) && Enabled(c, s, OfJobs(a)) && w < |s.jobs.workers| && w !in s.calling
    ensures BeforeCall(Apply(c, s, OfJobs(a)), w)
  {
    assert BeforeCall(s, w);
    HoldersMove(c, s, a, w);
    hide Linked, J.Apply, J.Enabled;
  }

  lemma JobStepIs(c: Config, s: State, a: J.Action)
    requires Enabled(c, s, OfJobs(a))
    ensures J.Enabled(c.jobs, s.jobs, a)
    ensures var t := Apply(c, s, OfJobs(a));
            && t.jobs == J.Apply(c.jobs, s.jobs, a) && t.sheet == s.sheet
            && t.rows == s.rows && t.begun == s.begun && t.authors == s.authors
            && t.calling <= s.calling && forall w :: w in s.calling && !(a.Work? && a.w == w) ==> w in t.calling
  {
    hide J.Apply, J.Enabled;
  }

  lemma JobStepLinked(c: Config, s: State, a: J.Action)
    requires Linked(c, s) && Enabled(c, s, OfJobs(a))
    ensures Linked(c, Apply(c, s, OfJobs(a)))
  {
    hide I.Inv, J.Apply, J.Enabled, Exported, InCall, BeforeCall, Apply, Enabled;
    var t := Apply(c, s, OfJobs(a));
    JobStepIs(c, s, a);
    I.InvStep(c.jobs, s.jobs, a);
    OwnersStay(c, s, a);
    forall j | j in t.rows ensures Exported(c, t, j) {
      ExportedKept(c, s, a, j);
    }
    forall w | w in t.calling ensures InCall(c, t, w) {
      if a.Work? && a.w == w { CallEnds(c, s, a, w); } else { InCallKept(c, s, a, w); }
    }
    forall w | 0 <= w < |t.jobs.workers| && w !in t.calling ensures BeforeCall(t, w) {
      if w in s.calling { CallEnds(c, s, a, w); } else { BeforeCallKept(c, s, a, w); }
    }
  }

  // ---- What a step of the export protocol leaves alone ----

  ghost predicate NotNewly(s: State, t: State, w: nat) {
    Awaiting(s, w) ==> JobAt(s, w) in s.rows || JobAt(s, w) !in t.rows
  }

  /** Where a worker's call is concerned only its own part of the export protocol matters. */
  lemma SameCalls(c: Config, s: State, t: State, w: nat)
    requires t.jobs == s.jobs && |t.sheet.workers| == |s.sheet.workers| && w < |s.sheet.workers|
    requires forall j :: j in s.rows ==> j in t.rows && t.rows[j] == s.rows[j]
    requires t.sheet.workers[w] == s.sheet.workers[w]
             || (!t.sheet.workers[w].Fresh? && !s.sheet.workers[w].Fresh?
                 && t.sheet.workers[w].call.row == s.sheet.workers[w].call.row)
    ensures InCall(c, s, w) ==> InCall(c, t, w)
    ensures BeforeCall(s, w) && t.sheet.workers[w] == s.sheet.workers[w] && NotNewly(s, t, w) ==> BeforeCall(t, w)
  {
  }

  lemma SameExported(c: Config, s: State, t: State, j: J.JobId)
    requires t.jobs == s.jobs && Exported(c, s, j) && j in t.rows && t.rows[j] == s.rows[j]
    ensures Exported(c, t, j)
  {
  }

  /** A call begins for a job that has not had one. */
  lemma BeginIs(c: Config, s: State, a: S.Action)
    requires Linked(c, s) && Enabled(c, s, OfSheet(a)) && a.Begin?
    ensures var t := Apply(c, s, OfSheet(a));
            && Awaiting(s, a.w) && JobAt(s, a.w) !in s.rows && JobAt(s, a.w) !in s.begun
            && t.jobs == s.jobs && t.calling == s.calling + {a.w} && a.w !in s.calling
            && t.rows == s.rows[JobAt(s, a.w) := a.row] && t.begun == s.begun + [JobAt(s, a.w)]
            && t.authors == s.authors && t.sheet.tab == s.sheet.tab && t.delivered == s.delivered
            && a.w < |s.sheet.workers| && t.sheet.workers == s.sheet.workers[a.w := t.sheet.workers[a.w]]
            && !t.sheet.workers[a.w].Fresh? && t.sheet.workers[a.w].call.row == a.row
            && t.sheet.workers[a.w].call.added == 0 && S.Exportable(c.sheet, a.row)
    ensures InCall(c, Apply(c, s, OfSheet(a)), a.w) && Exported(c, Apply(c, s, OfSheet(a)), JobAt(s, a.w))
  {
    assert BeforeCall(s, a.w);
    assert I.Holds(s.jobs, a.w, JobAt(s, a.w));
    OnlyHolder(c, s, a.w, JobAt(s, a.w));
    hide I.Inv;
  }

  lemma BeginLinked(c: Config, s: State, a: S.Action)
    requires Linked(c, s) && Enabled(c, s, OfSheet(a)) && a.Begin?
    ensures Linked(c, Apply(c, s, OfSheet(a)))
  {
    hide I.Inv, InCall, BeforeCall, Exported, S.Exportable, Apply, Enabled;
    var t := Apply(c, s, OfSheet(a));
    BeginIs(c, s, a);
    var j := JobAt(s, a.w);
    OnlyHolder(c, s, a.w, j) by { assert I.Holds(s.jobs, a.w, j); }
    forall k | k in t.rows ensures Exported(c, t, k) {
      if k != j { SameExported(c, s, t, k); }
    }
    forall w | w in t.calling ensures InCall(c, t, w) {
      if w != a.w { CallerIsWorker(c, s, w); SameCalls(c, s, t, w); }
    }
    forall w | 0 <= w < |t.jobs.workers| && w !in t.calling ensures BeforeCall(t, w) {
      assert Awaiting(s, w) ==> I.Holds(s.jobs, w, JobAt(s, w));
      SameCalls(c, s, t, w);
    }
  }

  lemma CallerIsWorker(c: Config, s: State, w: nat)
    requires Linked(c, s) && w in s.calling
    ensures w < |s.sheet.workers|
  {
    assert InCall(c, s, w);
  }

  lemma OnlyHolder(c: Config, s: State, w: nat, j: J.JobId)
    requires I.Inv(c.jobs, s.jobs) && I.Holds(s.jobs, w, j)
    ensures j in s.jobs.received && j < |s.jobs.jobs| && forall v :: I.Holds(s.jobs, v, j) ==> v == w
  {
  }

  /** A call in progress moves only its own worker, which stays with its row. */
  lemma CallIs(c: Config, s: State, a: S.Action)
    requires Enabled(c, s, OfSheet(a)) && !a.Begin?
    ensures var t := Apply(c, s, OfSheet(a));
            && t.jobs == s.jobs && t.rows == s.rows && t.begun == s.begun && t.calling == s.calling
            && t.delivered == s.delivered
            && |t.sheet.workers| == |s.sheet.workers|
            && forall w :: 0 <= w < |s.sheet.workers| ==>
                 || t.sheet.workers[w] == s.sheet.workers[w]
                 || (w in s.calling && !s.sheet.workers[w].Fresh? && !t.sheet.workers[w].Fresh?
                     && t.sheet.workers[w].call.row == s.sheet.workers[w].call.row)
  {
  }

  lemma CallLinked(c: Config, s: State, a: S.Action)
    requires Linked(c, s) && Enabled(c, s, OfSheet(a)) && !a.Begin?
    ensures Linked(c, Apply(c, s, OfSheet(a)))
  {
    hide I.Inv, InCall, BeforeCall, Exported, S.Exportable, Apply, Enabled;
    var t := Apply(c, s, OfSheet(a));
    CallIs(c, s, a);
    forall k | k in t.rows ensures Exported(c, t, k) {
      SameExported(c, s, t, k);
    }
    forall w | w in t.calling ensures InCall(c, t, w) {
      CallerIsWorker(c, s, w);
      SameCalls(c, s, t, w);
    }
    forall w | 0 <= w < |t.jobs.workers| && w !in t.calling ensures BeforeCall(t, w) {
      SameCalls(c, s, t, w);
    }
  }

  lemma StepLinked(c: Config, s: State, a: Action)
    requires Linked(c, s) && Enabled(c, s, a)
    ensures Linked(c, Apply(c, s, a))
  {
    hide Linked, Apply;
    match a
    case OfJobs(job) => JobStepLinked(c, s, job);
    case OfSheet(call) => if call.Begin? { BeginLinked(c, s, call); } else { CallLinked(c, s, call); }
  }
}
