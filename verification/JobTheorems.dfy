/**
 What the invariant buys, for every interleaving of any number of submissions,
 workers, sweeps and polls.
 */
module JobTheorems {
  import opened Wrappers
  import opened JobProtocol
  import opened JobInvariant

  /** A state some run leads to. */
  ghost predicate Reached(c: Config, acts: seq<Action>, s: State) {
    Legal(c, Init(c), acts) && s == After(c, Init(c), acts)
  }

  lemma ReachedInv(c: Config, acts: seq<Action>, s: State)
    requires Reached(c, acts, s)
    ensures Inv(c, s)
  {
    InitInv(c);
    InvAfter(c, Init(c), acts);
  }

  // ---- Ownership ----

  datatype Owner = ItsHandler | TheChannel | TheWorker(w: nat) | Nobody

  /** Nobody owns a job that a worker has finished or its handler has refused. */
  ghost predicate Owns(s: State, o: Owner, j: JobId) {
    match o
    case ItsHandler => j < |s.handlers| && !s.handlers[j].Over()
    case TheChannel => j in s.queue
    case TheWorker(w) => Holds(s, w, j)
    case Nobody => Over(s, j)
  }

  /** Every submitted job has exactly one owner. */
  lemma ExactlyOneOwner(c: Config, acts: seq<Action>, s: State, j: JobId)
    requires Reached(c, acts, s) && j < |s.jobs|
    ensures exists o :: Owns(s, o, j) && forall p :: Owns(s, p, j) ==> p == o
  {
    ReachedInv(c, acts, s);
    OneOwner(c, s, j);
  }

  lemma OneOwner(c: Config, s: State, j: JobId)
    requires Ownership(c, s) && j < |s.jobs|
    ensures exists o :: Owns(s, o, j) && forall p :: Owns(s, p, j) ==> p == o
  {
    NoDupParts(s.received, s.queue);
    assert forall k :: k in s.received + s.queue <==> k in s.accepted;
    if !s.handlers[j].Accepted? {
      assert Owns(s, if s.handlers[j].Refused? then Nobody else ItsHandler, j);
    } else if j in s.queue {
      assert Owns(s, TheChannel, j);
    } else if j in s.finished {
      assert Owns(s, Nobody, j);
    } else {
      var w :| Holds(s, w, j);
      assert Owns(s, TheWorker(w), j);
    }
  }

  /** Receives followed by the channel are the successful enqueues in order, each job once. */
  lemma FirstInFirstOut(c: Config, acts: seq<Action>, s: State)
    requires Reached(c, acts, s)
    ensures s.received + s.queue == s.accepted
    ensures NoDup(s.accepted) && NoDup(s.received) && NoDup(s.finished)
    ensures forall j :: j in s.accepted <==> 0 <= j < |s.handlers| && s.handlers[j].Accepted?
  {
    ReachedInv(c, acts, s);
    NoDupParts(s.received, s.queue);
  }

  ghost function Elements(s: seq<JobId>): set<JobId> {
    set j | j in s
  }

  lemma {:induction false} ElementsOfNoDup(s: seq<JobId>)
    requires NoDup(s)
    ensures |Elements(s)| == |s|
  {
    if s != [] {
      var rest := s[1..];
      ElementsOfNoDup(rest);
      assert Elements(s) == {s[0]} + Elements(rest);
      assert s[0] !in rest;
    }
  }

  lemma {:induction false} BusyAtMostAll(ws: seq<Worker>)
    ensures BusyCount(ws) <= |ws|
  {
    if ws != [] { BusyAtMostAll(ws[1..]); }
  }

  /** Accepted jobs not yet finished never outnumber the channel and the workers. */
  lemma BacklogBound(c: Config, acts: seq<Action>, s: State)
    requires Reached(c, acts, s)
    ensures |Elements(s.accepted) - Elements(s.finished)| <= c.capacity + c.workers
  {
    ReachedInv(c, acts, s);
    ElementsOfNoDup(s.accepted);
    ElementsOfNoDup(s.finished);
    assert Elements(s.finished) <= Elements(s.accepted) by {
      assert forall j :: j in s.received ==> j in s.received + s.queue;
    }
    BusyAtMostAll(s.workers);
  }

  /** A worker releases a job's audio before finishing it; a refused job keeps its audio. */
  lemma AudioReleased(c: Config, acts: seq<Action>, s: State, j: JobId)
    requires Reached(c, acts, s) && j < |s.jobs|
    ensures j < |s.handlers|
    ensures j in s.finished ==> !s.jobs[j].holdsAudio
    ensures s.handlers[j].Refused? ==> s.jobs[j].holdsAudio
  {
    ReachedInv(c, acts, s);
    assert AtHandler(s.handlers[j], s.jobs[j]);
  }

  // ---- Retention ----

  /** From its first Save a job that has not ended is in the store; once over, until the TTL has passed. */
  lemma Retention(c: Config, acts: seq<Action>, s: State, j: JobId)
    requires Reached(c, acts, s) && j < |s.jobs|
    ensures j < |s.handlers|
    ensures !s.handlers[j].FirstSave? && !s.jobs[j].status.Terminal() ==> j in s.store
    ensures Over(s, j) ==> j in s.store || s.jobs[j].updatedAt + c.ttl < s.now
  {
    ReachedInv(c, acts, s);
  }

  /** A job leaves the store only in a sweep, once it has ended, and more than a TTL old or before its last Save. */
  lemma LeavesOnlyWhenDue(c: Config, acts: seq<Action>, s: State, a: Action, j: JobId)
    requires Reached(c, acts, s) && Enabled(c, s, a)
    requires j in s.store && j !in Apply(c, s, a).store
    ensures a.SweepJudge? && s.jobs[j].status.Terminal()
    ensures s.jobs[j].updatedAt + c.ttl < s.now || !Over(s, j)
  {
    ReachedInv(c, acts, s);
  }

  /** ... and that last Save puts it back. */
  lemma LastSaveStores(c: Config, acts: seq<Action>, s: State, a: Action, j: JobId)
    requires Reached(c, acts, s) && Enabled(c, s, a) && !Over(s, j) && Over(Apply(c, s, a), j)
    ensures j in Apply(c, s, a).store
  {
    ReachedInv(c, acts, s);
    if a.Work? { WorkEffect(c, s, a.w, a.input); }
    if a.Handle? { HandleEffect(c, s, a.id); }
  }

  // ---- Status ----

  /** Who may change a status: the worker holding the job, or its handler when the channel was full. */
  lemma StatusMoves(c: Config, acts: seq<Action>, s: State, a: Action, j: JobId)
    requires Reached(c, acts, s) && Enabled(c, s, a) && j < |s.jobs|
    ensures j < |Apply(c, s, a).jobs| && MayFollow(s.jobs[j].status, Apply(c, s, a).jobs[j].status)
    ensures var from, to := s.jobs[j].status, Apply(c, s, a).jobs[j].status;
            from != to ==>
              || (a.Work? && Holds(s, a.w, j) && !(from.Queued? && to.Failed?))
              || (a.Handle? && a.id == j && s.handlers[j].MarkRefused? && from.Queued? && to.Failed?)
  {
    ReachedInv(c, acts, s);
    StepEvolves(c, s, a, j);
    if a.Work? { assert Holds(s, a.w, s.workers[a.w].job); }
    if a.Handle? { assert AtHandler(s.handlers[a.id], s.jobs[a.id]); }
  }

  lemma {:induction false} EndedStays(c: Config, s: State, acts: seq<Action>, j: JobId)
    requires Inv(c, s) && Legal(c, s, acts) && j < |s.jobs|
    ensures var t := After(c, s, acts);
            && j < |t.jobs| && s.jobs[j].updatedAt <= t.jobs[j].updatedAt
            && (s.jobs[j].status.Terminal() ==>
                  t.jobs[j].status == s.jobs[j].status && t.jobs[j].result == s.jobs[j].result)
            && (s.jobs[j].status.Done? ==> t.jobs[j].error == s.jobs[j].error)
    decreases |acts|
  {
    if acts != [] {
      StepEvolves(c, s, acts[0], j);
      InvStep(c, s, acts[0]);
      EndedStays(c, Apply(c, s, acts[0]), acts[1..], j);
    }
  }

  /** Done and failed are absorbing, and freeze the result, whatever happens next. */
  lemma TerminalIsFinal(c: Config, acts: seq<Action>, s: State, more: seq<Action>, j: JobId)
    requires Reached(c, acts, s) && Legal(c, s, more) && j < |s.jobs| && s.jobs[j].status.Terminal()
    ensures var t := After(c, s, more);
            && j < |t.jobs| && t.jobs[j].status == s.jobs[j].status && t.jobs[j].result == s.jobs[j].result
            && (s.jobs[j].status.Done? ==> t.jobs[j].error == s.jobs[j].error)
  {
    ReachedInv(c, acts, s);
    EndedStays(c, s, more, j);
  }

  /** A poll that answers "done" carries the result the job has then and ever after, complete and without error. */
  lemma DonePollIsComplete(c: Config, acts: seq<Action>, s: State, more: seq<Action>, p: nat)
    requires Reached(c, acts, s) && Legal(c, s, more)
    requires p in s.polls && s.polls[p].Answered? && s.polls[p].seen.status.Done?
    ensures var seen, t := s.polls[p].seen, After(c, s, more);
            && seen.result.Some? && (c.llm ==> seen.result.value.extraction.Some?) && seen.error == ""
            && s.polls[p].id < |t.jobs| && t.jobs[s.polls[p].id].result == seen.result
  {
    ReachedInv(c, acts, s);
    var id := s.polls[p].id;
    assert PollFits(s, s.polls[p]);
    assert DoneIsComplete(c, s.jobs[id]);
    EndedStays(c, s, more, id);
  }

  // ---- Shutdown ----

  ghost predicate AllExited(s: State) {
    forall w :: 0 <= w < |s.workers| ==> s.workers[w].Exited?
  }

  /** Once every worker has exited nothing is processing, all received jobs are finished and the rest wait in order. */
  lemma ExitedMeansIdle(c: Config, acts: seq<Action>, s: State)
    requires Reached(c, acts, s) && AllExited(s)
    ensures forall j :: 0 <= j < |s.jobs| ==> !s.jobs[j].status.Processing?
    ensures forall j :: j in s.received ==> j in s.finished
    ensures |s.received| <= |s.accepted| && s.queue == s.accepted[|s.received|..]
    ensures forall j :: j in s.queue ==> j < |s.jobs| && s.jobs[j].status.Queued? && j in s.store
  {
    ReachedInv(c, acts, s);
    assert forall w, j: JobId :: !Holds(s, w, j);
    forall j | 0 <= j < |s.jobs| ensures !s.jobs[j].status.Processing? {
      assert AtHandler(s.handlers[j], s.jobs[j]);
      assert forall k :: k in s.received + s.queue <==> k in s.accepted;
    }
    forall j | j in s.queue ensures j < |s.jobs| && s.jobs[j].status.Queued? && j in s.store {
      assert j in s.received + s.queue;
    }
  }

  ghost function HandlerRank(h: Handler): nat {
    match h
    case FirstSave => 19
    case TryEnqueue => 18
    case MarkRefused => 5
    case NoteRefused => 4
    case ClockRefused => 3
    case StampRefused(_) => 2
    case SaveRefused => 1
    case Accepted | Refused => 0
  }

  ghost function PcRank(pc: Pc): nat {
    match pc
    case MarkProcessing => 17
    case ClockProcessing => 16
    case StampProcessing(_) => 15
    case SaveProcessing => 14
    case AwaitTranscript => 13
    case DropAudio(_) => 12
    case ClockTranscript(_) => 11
    case StampTranscript(_, _) => 10
    case KeepTranscript(_) => 9
    case AwaitExtraction => 8
    case KeepExtraction(_) => 7
    case AwaitExport | FailExtraction(_) => 6
    case MarkDone | NoteExtraction(_) => 5
    case ClockDone | ClockFailure | FailTranscript(_) => 4
    case StampDone(_) | StampFailure(_) | NoteTranscript(_) => 3
    case FinalSave => 2
    case Returned => 1
  }

  ghost function WorkerRank(w: Worker): nat {
    match w
    case Idle => 1
    case Busy(_, pc) => PcRank(pc)
    case Exited => 0
  }

  ghost function HandlersLeft(hs: seq<Handler>): nat {
    if hs == [] then 0 else HandlerRank(hs[0]) + HandlersLeft(hs[1..])
  }

  ghost function WorkersLeft(ws: seq<Worker>): nat {
    if ws == [] then 0 else WorkerRank(ws[0]) + WorkersLeft(ws[1..])
  }

  /** Steps handlers and workers can still take unless a new job is submitted. */
  ghost function Remaining(s: State): nat {
    HandlersLeft(s.handlers) + 17 * |s.queue| + WorkersLeft(s.workers)
  }

  ghost predicate IsWork(a: Action) {
    a.Handle? || a.Handoff? || a.Receive? || a.Exit? || a.Work?
  }

  lemma {:induction false} HandlersLeftUpdate(hs: seq<Handler>, i: nat, h: Handler)
    requires i < |hs|
    ensures HandlersLeft(hs[i := h]) == HandlersLeft(hs) - HandlerRank(hs[i]) + HandlerRank(h)
  {
    if i > 0 {
      HandlersLeftUpdate(hs[1..], i - 1, h);
      assert hs[i := h][1..] == hs[1..][i - 1 := h];
    }
  }

  lemma {:induction false} WorkersLeftUpdate(ws: seq<Worker>, i: nat, w: Worker)
    requires i < |ws|
    ensures WorkersLeft(ws[i := w]) == WorkersLeft(ws) - WorkerRank(ws[i]) + WorkerRank(w)
  {
    if i > 0 {
      WorkersLeftUpdate(ws[1..], i - 1, w);
      assert ws[i := w][1..] == ws[1..][i - 1 := w];
    }
  }

  lemma InstructionRank(c: Config, pc: Pc, r: Record, now: real, i: Input)
    requires !pc.Returned?
    ensures PcRank(Instruction(c, pc, r, now, i).0) < PcRank(pc)
  {
  }

  lemma HandoffUsesUp(c: Config, s: State, id: JobId, w: nat)
    requires Enabled(c, s, Handoff(id, w))
    ensures Remaining(Apply(c, s, Handoff(id, w))) < Remaining(s)
  {
    HandlersLeftUpdate(s.handlers, id, Accepted);
    WorkersLeftUpdate(s.workers, w, Busy(id, MarkProcessing));
  }

  lemma HandlerMoves(c: Config, s: State, id: JobId)
    requires Enabled(c, s, Handle(id))
    ensures var t := Apply(c, s, Handle(id));
            && id < |t.handlers| && t.handlers == s.handlers[id := t.handlers[id]] && t.workers == s.workers
            && |t.queue| == |s.queue| + (if t.handlers[id].Accepted? then 1 else 0)
            && HandlerRank(t.handlers[id]) < HandlerRank(s.handlers[id])
            && (t.handlers[id].Accepted? ==> HandlerRank(s.handlers[id]) == 18)
  {
  }

  lemma HandlerUsesUp(c: Config, s: State, a: Action)
    requires Enabled(c, s, a) && a.Handle?
    ensures Remaining(Apply(c, s, a)) < Remaining(s)
  {
    HandlerMoves(c, s, a.id);
    HandlersLeftUpdate(s.handlers, a.id, Apply(c, s, a).handlers[a.id]);
    hide Apply, Enabled;
  }

  lemma InstructionUsesUp(c: Config, s: State, w: nat, i: Input)
    requires Records(c, s) && Enabled(c, s, Work(w, i))
    ensures Remaining(Apply(c, s, Work(w, i))) < Remaining(s)
  {
    var pc, id := s.workers[w].pc, s.workers[w].job;
    assert Holds(s, w, id);
    InstructionRank(c, pc, s.jobs[id], s.now, i);
    hide Instruction, Records;
    WorkersLeftUpdate(s.workers, w, WorkerStep(c, s, w, i).workers[w]);
  }

  lemma WorkerUsesUp(c: Config, s: State, a: Action)
    requires Inv(c, s) && Enabled(c, s, a) && (a.Receive? || a.Exit? || a.Work?)
    ensures Remaining(Apply(c, s, a)) < Remaining(s)
  {
    if a.Work? {
      InstructionUsesUp(c, s, a.w, a.input);
    } else {
      hide Inv;
      WorkersLeftUpdate(s.workers, a.w, Apply(c, s, a).workers[a.w]);
    }
  }

  lemma WorkUsesUp(c: Config, s: State, a: Action)
    requires Inv(c, s) && Enabled(c, s, a) && IsWork(a)
    ensures Remaining(Apply(c, s, a)) < Remaining(s)
  {
    hide Inv, Enabled, Apply, Remaining;
    if a.Handle? { HandlerUsesUp(c, s, a); }
    else if a.Handoff? { HandoffUsesUp(c, s, a.id, a.w); }
    else { WorkerUsesUp(c, s, a); }
  }

  lemma OthersUseNothing(c: Config, s: State, a: Action)
    requires Enabled(c, s, a) && !IsWork(a) && !a.Submit?
    ensures Remaining(Apply(c, s, a)) == Remaining(s)
  {
  }

  ghost function WorkIn(acts: seq<Action>): nat {
    if acts == [] then 0 else (if IsWork(acts[0]) then 1 else 0) + WorkIn(acts[1..])
  }

  /** Without new submissions every schedule runs out of work. */
  lemma {:induction false} ScheduleRunsDry(c: Config, s: State, acts: seq<Action>)
    requires Inv(c, s) && Legal(c, s, acts) && forall a :: a in acts ==> !a.Submit?
    ensures WorkIn(acts) + Remaining(After(c, s, acts)) <= Remaining(s)
    decreases |acts|
  {
    hide Inv, Enabled, Apply, Remaining, IsWork;
    if acts != [] {
      var a := acts[0];
      if IsWork(a) { WorkUsesUp(c, s, a); } else { OthersUseNothing(c, s, a); }
      InvStep(c, s, a);
      ScheduleRunsDry(c, Apply(c, s, a), acts[1..]);
    }
  }

  const SOMETHING := Input(Heard(""), Unextracted(""))

  lemma WorkerNotStuck(c: Config, s: State, w: nat)
    requires Records(c, s) && w < |s.workers| && s.sweeper.Resting?
    requires s.workers[w].Busy? || (s.workers[w].Idle? && s.stopped)
    ensures exists a :: IsWork(a) && Enabled(c, s, a)
  {
    var a := if s.workers[w].Busy? then Work(w, SOMETHING) else Exit(w);
    if s.workers[w].Busy? { assert Holds(s, w, s.workers[w].job); }
    assert IsWork(a) && Enabled(c, s, a);
  }

  lemma HandlerNotStuck(c: Config, s: State, j: JobId)
    requires Records(c, s) && j < |s.handlers| && !s.handlers[j].Over() && s.sweeper.Resting?
    ensures exists a :: IsWork(a) && Enabled(c, s, a)
  {
    assert IsWork(Handle(j)) && Enabled(c, s, Handle(j));
  }

  /** Between sweeps no handler or worker is ever blocked, so after Stop a schedule with no work left
      has no worker left. */
  lemma DryMeansExited(c: Config, acts: seq<Action>, s: State)
    requires Reached(c, acts, s) && s.stopped && s.sweeper.Resting?
    requires forall a :: IsWork(a) ==> !Enabled(c, s, a)
    ensures AllExited(s) && forall j :: 0 <= j < |s.handlers| ==> s.handlers[j].Over()
  {
    ReachedInv(c, acts, s);
    hide IsWork, Enabled;
    forall w | 0 <= w < |s.workers| ensures s.workers[w].Exited? {
      if !s.workers[w].Exited? { WorkerNotStuck(c, s, w); }
    }
    forall j | 0 <= j < |s.handlers| ensures s.handlers[j].Over() {
      if !s.handlers[j].Over() { HandlerNotStuck(c, s, j); }
    }
  }

  /** Unless stopped, a gateway with a worker serves everything: a schedule with no work left
      has finished every accepted job and has every worker waiting for the next. */
  lemma DryMeansServed(c: Config, acts: seq<Action>, s: State)
    requires Reached(c, acts, s) && !s.stopped && 1 <= c.workers && s.sweeper.Resting?
    requires forall a :: IsWork(a) ==> !Enabled(c, s, a)
    ensures s.queue == [] && (forall w :: 0 <= w < |s.workers| ==> s.workers[w].Idle?)
    ensures forall j :: 0 <= j < |s.handlers| ==> s.handlers[j].Over()
    ensures forall j :: j in s.accepted ==> j in s.finished
  {
    ReachedInv(c, acts, s);
    hide Enabled;
    forall w | 0 <= w < |s.workers| ensures s.workers[w].Idle? {
      if s.workers[w].Busy? { WorkerNotStuck(c, s, w); }
      NobodyLeft(c, acts, s, w);
    }
    forall j | 0 <= j < |s.handlers| ensures s.handlers[j].Over() {
      if !s.handlers[j].Over() { HandlerNotStuck(c, s, j); }
    }
    if s.queue != [] { IdleReceives(c, s, 0); }
    assert s.received + s.queue == s.received;
    assert forall w, j: JobId :: !Holds(s, w, j);
  }

  /** A worker waiting in its select can take the oldest job, whether or not Stop was called. */
  lemma IdleReceives(c: Config, s: State, w: nat)
    requires w < |s.workers| && s.workers[w].Idle? && s.queue != []
    ensures Enabled(c, s, Receive(w)) && exists a :: IsWork(a) && Enabled(c, s, a)
    ensures Apply(c, s, Receive(w)).workers[w] == Busy(s.queue[0], MarkProcessing)
    ensures Apply(c, s, Receive(w)).queue == s.queue[1..]
  {
    assert IsWork(Receive(w));
  }

  /** Workers leave only after Stop, and may then leave whether or not jobs are waiting. */
  lemma NobodyLeft(c: Config, acts: seq<Action>, s: State, w: nat)
    requires Reached(c, acts, s) && w < |s.workers|
    ensures s.workers[w].Exited? ==> s.stopped
    ensures s.workers[w].Idle? && s.stopped <==> Enabled(c, s, Exit(w))
  {
    NoneExitedAfter(c, Init(c), acts);
  }

  ghost predicate LeftOnlyStopped(s: State) {
    forall w :: 0 <= w < |s.workers| && s.workers[w].Exited? ==> s.stopped
  }

  lemma LeftOnlyStoppedStep(c: Config, s: State, a: Action)
    requires LeftOnlyStopped(s) && Enabled(c, s, a)
    ensures LeftOnlyStopped(Apply(c, s, a))
  {
  }

  lemma {:induction false} NoneExitedAfter(c: Config, s: State, acts: seq<Action>)
    requires LeftOnlyStopped(s) && Legal(c, s, acts)
    ensures LeftOnlyStopped(After(c, s, acts))
    decreases |acts|
  {
    hide Apply, Enabled;
    if acts != [] {
      LeftOnlyStoppedStep(c, s, acts[0]);
      NoneExitedAfter(c, Apply(c, s, acts[0]), acts[1..]);
    }
  }

  ghost function SweepLeft(w: Sweeper): nat {
    match w
    case Resting => 0
    case Sweeping(_, todo, look) =>
      1 + 4 * |todo| + match look { case Nowhere => 0 case Condemned(_) => 1 case Ended(_) => 2 case NotDone(_) => 3 }
  }

  /** A sweep in progress can always go on ... */
  lemma SweepNeverStuck(c: Config, acts: seq<Action>, s: State)
    requires Reached(c, acts, s) && s.sweeper.Sweeping?
    ensures exists a :: Sweeps(a) && Enabled(c, s, a)
  {
    ReachedInv(c, acts, s);
    if s.sweeper.look != Nowhere {
      assert Sweeps(SweepJudge) && Enabled(c, s, SweepJudge);
    } else if s.sweeper.todo == {} {
      assert Sweeps(SweepEnd) && Enabled(c, s, SweepEnd);
    } else {
      var id :| id in s.sweeper.todo;
      assert Sweeps(SweepLook(id)) && Enabled(c, s, SweepLook(id));
    }
  }

  /** ... each of its steps brings it nearer its end, and no other step delays it: the lock comes free. */
  lemma SweepEnds(c: Config, s: State, a: Action)
    requires s.sweeper.Sweeping? && Enabled(c, s, a)
    ensures var left := SweepLeft(Apply(c, s, a).sweeper);
            if Sweeps(a) then left < SweepLeft(s.sweeper) else left == SweepLeft(s.sweeper)
  {
    if a.SweepLook? {
      assert |s.sweeper.todo - {a.id}| == |s.sweeper.todo| - 1;
    }
  }

  // ---- Stop is not a drain ----

  ghost function ExitAll(n: nat): (acts: seq<Action>)
    ensures |acts| == n
  {
    if n == 0 then [] else ExitAll(n - 1) + [Exit(n - 1)]
  }

  lemma {:induction false} WorkersLeave(c: Config, s: State, n: nat)
    requires s.stopped && n <= |s.workers| && forall w :: 0 <= w < |s.workers| ==> s.workers[w].Idle?
    ensures Legal(c, s, ExitAll(n))
    ensures After(c, s, ExitAll(n)) == s.(workers := seq(|s.workers|, w => if w < n then Exited else Idle))
    decreases n
  {
    if n == 0 {
      assert s.workers == seq(|s.workers|, w => if w < n then Exited else Idle);
    } else {
      WorkersLeave(c, s, n - 1);
      var t := After(c, s, ExitAll(n - 1));
      var last := Exit(n - 1);
      AfterCons(c, t, last, []);
      assert [last] + [] == [last];
      AfterConcat(c, s, ExitAll(n - 1), [last]);
      assert t.workers[n - 1 := Exited] == seq(|s.workers|, w => if w < n then Exited else Idle);
    }
  }

  /** A job accepted just before Stop can be left in the channel with every worker gone. */
  lemma StopCanStrandAJob(c: Config) returns (acts: seq<Action>, s: State)
    requires 1 <= c.capacity
    ensures Reached(c, acts, s) && s.stopped && AllExited(s)
    ensures s.queue == [0] && s.jobs != [] && s.jobs[0].status.Queued?
  {
    var s0 := Init(c);
    var submit, handle := Submit(0.0), Handle(0);
    var s1 := Apply(c, s0, submit);
    var s2 := Apply(c, s1, handle);
    var s3 := Apply(c, s2, handle);
    var s4 := Apply(c, s3, Stop);
    WorkersLeave(c, s4, c.workers);
    var exits := ExitAll(c.workers);
    s := After(c, s4, exits);
    AfterCons(c, s3, Stop, exits);
    AfterCons(c, s2, handle, [Stop] + exits);
    AfterCons(c, s1, handle, [handle] + ([Stop] + exits));
    AfterCons(c, s0, submit, [handle] + ([handle] + ([Stop] + exits)));
    acts := [submit] + ([handle] + ([handle] + ([Stop] + exits)));
  }

  /** Stop can leave an accepted job behind, if it is to let workers finish what was accepted. */
  ghost predicate CanStrand(c: Config) {
    exists acts, s :: Reached(c, acts, s) && s.stopped && AllExited(s) && s.queue != []
  }

  /** Only a gateway whose channel holds nothing drains on Stop. */
  lemma StopStrandsExactly(c: Config)
    ensures CanStrand(c) <==> 1 <= c.capacity
  {
    if 1 <= c.capacity {
      var acts, s := StopCanStrandAJob(c);
    } else if CanStrand(c) {
      var acts, s :| Reached(c, acts, s) && s.stopped && AllExited(s) && s.queue != [];
      ReachedInv(c, acts, s);
      assert false;
    }
  }

  /** And a job so stranded stays queued for ever: nothing is received any more. */
  lemma {:induction false} StrandedForEver(c: Config, s: State, acts: seq<Action>)
    requires Inv(c, s) && AllExited(s) && Legal(c, s, acts)
    ensures var t := After(c, s, acts); AllExited(t) && t.received == s.received && s.queue <= t.queue
    decreases |acts|
  {
    if acts != [] {
      InvStep(c, s, acts[0]);
      ExitedStep(c, s, acts[0]);
      StrandedForEver(c, Apply(c, s, acts[0]), acts[1..]);
    }
  }

  lemma ExitedStep(c: Config, s: State, a: Action)
    requires AllExited(s) && Enabled(c, s, a)
    ensures var t := Apply(c, s, a); AllExited(t) && t.received == s.received && s.queue <= t.queue
  {
  }

  // ---- What nothing prevents ----

  /** Whatever state the gateway is in, time may pass, jobs may be submitted, polls may begin, Stop may be called
      if it has not been, and a sweep may begin if none is going on. */
  lemma OutsideIsFree(c: Config, s: State, elapsed: real, reading: real, p: nat, j: JobId)
    ensures 0.0 <= elapsed ==> Enabled(c, s, Tick(elapsed)) && Apply(c, s, Tick(elapsed)) == s.(now := s.now + elapsed)
    ensures reading <= s.now ==> Enabled(c, s, Submit(reading)) && Apply(c, s, Submit(reading)).queue == s.queue
    ensures !s.stopped ==> Enabled(c, s, Stop) && Apply(c, s, Stop) == s.(stopped := true)
    ensures s.sweeper.Resting? && reading <= s.now ==> Enabled(c, s, SweepBegin(reading))
    ensures p !in s.polls ==> Enabled(c, s, PollBegin(p, j))
  {
  }

  ghost predicate AcceptsBy(c: Config, s: State, j: JobId, a: Action) {
    Enabled(c, s, a) && j < |Apply(c, s, a).handlers| && Apply(c, s, a).handlers[j].Accepted?
  }

  /** A stored job can be accepted exactly while there is room for it, or while a worker is waiting at a channel
      without room; Stop changes that only for the waiting worker. */
  lemma AcceptedExactly(c: Config, acts: seq<Action>, s: State, j: JobId)
    requires Reached(c, acts, s) && j < |s.handlers| && s.handlers[j].TryEnqueue?
    ensures (exists a :: AcceptsBy(c, s, j, a)) <==>
            || |s.queue| < c.capacity
            || (c.capacity == 0 && !s.stopped && exists w :: 0 <= w < |s.workers| && s.workers[w].Idle?)
  {
    ReachedInv(c, acts, s);
    if |s.queue| < c.capacity {
      assert AcceptsBy(c, s, j, Handle(j));
    } else if w :| c.capacity == 0 && !s.stopped && 0 <= w < |s.workers| && s.workers[w].Idle? {
      assert AcceptsBy(c, s, j, Handoff(j, w));
    } else {
      forall a ensures !AcceptsBy(c, s, j, a) {
      }
    }
  }

  /** Such a worker has the job at once. */
  lemma HandoffWorks(c: Config, s: State, j: JobId, w: nat)
    requires c.capacity == 0 && !s.stopped && w < |s.workers| && s.workers[w].Idle?
    requires j < |s.handlers| && s.handlers[j].TryEnqueue?
    ensures Enabled(c, s, Handoff(j, w)) && Apply(c, s, Handoff(j, w)).workers[w] == Busy(j, MarkProcessing)
  {
  }
}
