/**
 The inductive invariant of the job protocol, in four parts: who owns each job,
 what its record looks like at each owner, what the store retains, and what
 pollers have seen.
 */
module JobInvariant {
  import opened Wrappers
  import opened JobProtocol

  ghost predicate NoDup(s: seq<JobId>) {
    forall i, j :: 0 <= i < j < |s| ==> s[i] != s[j]
  }

  lemma NoDupParts(a: seq<JobId>, b: seq<JobId>)
    requires NoDup(a + b)
    ensures NoDup(a) && NoDup(b) && forall x :: x in a ==> x !in b
  {
    forall i, j | 0 <= i < j < |a| ensures a[i] != a[j] {
      assert (a + b)[i] == a[i] && (a + b)[j] == a[j];
    }
    forall i, j | 0 <= i < j < |b| ensures b[i] != b[j] {
      assert (a + b)[|a| + i] == b[i] && (a + b)[|a| + j] == b[j];
    }
    forall i, j | 0 <= i < |a| && 0 <= j < |b| ensures a[i] != b[j] {
      assert (a + b)[i] == a[i] && (a + b)[|a| + j] == b[j];
    }
  }

  ghost predicate Holds(s: State, w: int, j: JobId) {
    0 <= w < |s.workers| && s.workers[w].Busy? && s.workers[w].job == j
  }

  ghost function BusyCount(ws: seq<Worker>): nat {
    if ws == [] then 0 else (if ws[0].Busy? then 1 else 0) + BusyCount(ws[1..])
  }

  lemma {:induction false} BusyCountUpdate(ws: seq<Worker>, w: nat, x: Worker)
    requires w < |ws|
    ensures BusyCount(ws[w := x]) == BusyCount(ws) - (if ws[w].Busy? then 1 else 0) + (if x.Busy? then 1 else 0)
  {
    if w > 0 {
      BusyCountUpdate(ws[1..], w - 1, x);
      assert ws[w := x][1..] == ws[1..][w - 1 := x];
    }
  }

  // ---- Ownership ----

  ghost predicate Fifo(s: State) {
    s.received + s.queue == s.accepted
  }

  ghost predicate AcceptedAreHandled(s: State) {
    && |s.handlers| == |s.jobs|
    && NoDup(s.accepted)
    && (forall j :: j in s.accepted ==> j < |s.handlers| && s.handlers[j].Accepted?)
    && (forall j :: 0 <= j < |s.handlers| && s.handlers[j].Accepted? ==> j in s.accepted)
  }

  ghost predicate WorkersHoldReceived(s: State) {
    && (forall w, j: JobId :: Holds(s, w, j) ==> j in s.received && j !in s.finished && !s.workers[w].pc.Returned?)
    && (forall v, w, j: JobId :: Holds(s, v, j) && Holds(s, w, j) ==> v == w)
    && (forall j :: j in s.received ==> j in s.finished || exists w :: Holds(s, w, j))
  }

  ghost predicate Ownership(c: Config, s: State) {
    && Fifo(s)
    && AcceptedAreHandled(s)
    && WorkersHoldReceived(s)
    && |s.workers| == c.workers
    && |s.queue| <= c.capacity
    && NoDup(s.finished)
    && (forall j :: j in s.finished ==> j in s.received)
    && |s.received| == |s.finished| + BusyCount(s.workers)
  }

  /** Only four kinds of step move a job from one owner to the next. */
  ghost predicate MovesOwnership(s: State, a: Action) {
    || a.Submit? || a.Handoff? || a.Receive? || a.Exit? || a.Work?
    || (a.Handle? && a.id < |s.handlers| && s.handlers[a.id].TryEnqueue?)
  }

  ghost predicate SameOwners(s: State, t: State) {
    && t.received == s.received && t.queue == s.queue && t.accepted == s.accepted && t.finished == s.finished
    && t.workers == s.workers && |t.jobs| == |s.jobs| && |t.handlers| == |s.handlers|
    && forall j :: 0 <= j < |s.handlers| ==> (t.handlers[j].Accepted? <==> s.handlers[j].Accepted?)
  }

  lemma KeepsOwners(c: Config, s: State, a: Action)
    requires |s.handlers| == |s.jobs| && Enabled(c, s, a) && !MovesOwnership(s, a)
    ensures SameOwners(s, Apply(c, s, a))
  {
  }

  lemma KeepsOwnership(c: Config, s: State, a: Action)
    requires Ownership(c, s) && Enabled(c, s, a) && !MovesOwnership(s, a)
    ensures Ownership(c, Apply(c, s, a))
  {
    KeepsOwners(c, s, a);
    hide Apply, Enabled;
    assert forall w, j: JobId :: Holds(Apply(c, s, a), w, j) <==> Holds(s, w, j);
  }

  lemma SubmitKeepsOwnership(c: Config, s: State, reading: real)
    requires Ownership(c, s) && Enabled(c, s, Submit(reading))
    ensures Ownership(c, Apply(c, s, Submit(reading)))
  {
    var t := Apply(c, s, Submit(reading));
    assert forall w, j: JobId :: Holds(t, w, j) <==> Holds(s, w, j);
    assert forall j :: 0 <= j < |s.handlers| ==> t.handlers[j] == s.handlers[j];
  }

  lemma EnqueueKeepsOwnership(c: Config, s: State, id: JobId)
    requires Ownership(c, s) && Enabled(c, s, Handle(id)) && s.handlers[id].TryEnqueue?
    ensures Ownership(c, Apply(c, s, Handle(id)))
  {
    var t := Apply(c, s, Handle(id));
    assert forall w, j: JobId :: Holds(t, w, j) <==> Holds(s, w, j);
    assert id !in s.accepted;
    assert s.received + (s.queue + [id]) == (s.received + s.queue) + [id];
  }

  lemma HandoffKeepsOwnership(c: Config, s: State, id: JobId, w: nat)
    requires Ownership(c, s) && Enabled(c, s, Handoff(id, w))
    ensures Ownership(c, Apply(c, s, Handoff(id, w)))
  {
    var t := Apply(c, s, Handoff(id, w));
    assert s.queue == [];
    assert id !in s.accepted && s.accepted == s.received;
    assert t.received + [] == t.received == t.accepted;
    BusyCountUpdate(s.workers, w, Busy(id, MarkProcessing));
    BusyTakes(s, t, w, id);
  }

  lemma ReceiveKeepsOwnership(c: Config, s: State, w: nat)
    requires Ownership(c, s) && Enabled(c, s, Receive(w))
    ensures Ownership(c, Apply(c, s, Receive(w)))
  {
    var t := Apply(c, s, Receive(w));
    NoDupParts(s.received, s.queue);
    assert s.queue == [s.queue[0]] + s.queue[1..];
    assert t.received + t.queue == s.received + s.queue;
    BusyCountUpdate(s.workers, w, Busy(s.queue[0], MarkProcessing));
    BusyTakes(s, t, w, s.queue[0]);
  }

  /** An idle worker takes a job nobody has received. */
  lemma BusyTakes(s: State, t: State, w: nat, id: JobId)
    requires WorkersHoldReceived(s) && (forall j :: j in s.finished ==> j in s.received)
    requires w < |s.workers| && s.workers[w].Idle? && id !in s.received
    requires t.workers == s.workers[w := Busy(id, MarkProcessing)]
    requires t.received == s.received + [id] && t.finished == s.finished
    ensures WorkersHoldReceived(t)
  {
    assert forall v, j: JobId :: Holds(t, v, j) <==> (Holds(s, v, j) || (v == w && j == id));
  }

  lemma ExitKeepsOwnership(c: Config, s: State, w: nat)
    requires Ownership(c, s) && Enabled(c, s, Exit(w))
    ensures Ownership(c, Apply(c, s, Exit(w)))
  {
    var t := Apply(c, s, Exit(w));
    assert forall v, j: JobId :: Holds(t, v, j) <==> Holds(s, v, j);
    BusyCountUpdate(s.workers, w, Exited);
  }

  lemma WorkMoves(c: Config, s: State, w: nat, i: Input)
    requires Enabled(c, s, Work(w, i))
    ensures var t, id := Apply(c, s, Work(w, i)), s.workers[w].job;
            var (next, q) := Instruction(c, s.workers[w].pc, s.jobs[id], s.now, i);
            && t.jobs == s.jobs[id := q] && t.handlers == s.handlers && t.queue == s.queue && t.received == s.received
            && t.accepted == s.accepted
            && t.workers == s.workers[w := if next.Returned? then Idle else Busy(id, next)]
            && t.finished == if next.Returned? then s.finished + [id] else s.finished
  {
  }

  lemma WorkKeepsOwnership(c: Config, s: State, w: nat, i: Input)
    requires Ownership(c, s) && Enabled(c, s, Work(w, i))
    ensures Ownership(c, Apply(c, s, Work(w, i)))
  {
    hide Instruction, Apply;
    var t := Apply(c, s, Work(w, i));
    var id := s.workers[w].job;
    assert Holds(s, w, id);
    WorkMoves(c, s, w, i);
    BusyCountUpdate(s.workers, w, t.workers[w]);
    if t.workers[w].Idle? {
      assert forall v, j: JobId :: Holds(t, v, j) <==> (Holds(s, v, j) && v != w);
      assert forall v, j: JobId :: Holds(s, v, j) && j != id ==> Holds(t, v, j);
    } else {
      assert forall v, j: JobId :: Holds(t, v, j) <==> Holds(s, v, j);
    }
  }

  lemma OwnershipStep(c: Config, s: State, a: Action)
    requires Ownership(c, s) && Enabled(c, s, a)
    ensures Ownership(c, Apply(c, s, a))
  {
    hide Ownership, Apply;
    match a
    case Submit(reading) => SubmitKeepsOwnership(c, s, reading);
    case Handoff(id, w) => HandoffKeepsOwnership(c, s, id, w);
    case Receive(w) => ReceiveKeepsOwnership(c, s, w);
    case Exit(w) => ExitKeepsOwnership(c, s, w);
    case Work(w, i) => WorkKeepsOwnership(c, s, w, i);
    case Handle(id) =>
      if s.handlers[id].TryEnqueue? { EnqueueKeepsOwnership(c, s, id); } else { KeepsOwnership(c, s, a); }
    case _ => KeepsOwnership(c, s, a);
  }

  // ---- Clock ----

  /** Nothing carries a time stamp from the future. */
  ghost predicate Clocked(s: State) {
    && (forall j :: 0 <= j < |s.jobs| ==> s.jobs[j].updatedAt <= s.now)
    && (forall j :: 0 <= j < |s.handlers| && s.handlers[j].StampRefused? ==> s.handlers[j].at <= s.now)
    && (forall w :: 0 <= w < |s.workers| && s.workers[w].Busy? && s.workers[w].pc.Stamps() ==>
          s.workers[w].pc.at <= s.now)
    && (forall j :: j in s.store ==> j < |s.jobs|)
    && (s.sweeper.Sweeping? ==> forall j :: j in s.sweeper.todo ==> j < |s.jobs|)
  }

  lemma InstructionClocked(c: Config, pc: Pc, r: Record, now: real, i: Input)
    requires r.updatedAt <= now && (pc.Stamps() ==> pc.at <= now)
    ensures var (next, q) := Instruction(c, pc, r, now, i);
            q.updatedAt <= now && (next.Stamps() ==> next.at <= now)
  {
  }

  lemma WorkKeepsClocked(c: Config, s: State, w: nat, i: Input)
    requires Clocked(s) && Enabled(c, s, Work(w, i))
    ensures Clocked(Apply(c, s, Work(w, i)))
  {
    InstructionClocked(c, s.workers[w].pc, s.jobs[s.workers[w].job], s.now, i);
    hide Instruction, Pc.Stamps;
  }

  lemma HandleKeepsClocked(c: Config, s: State, id: JobId)
    requires Clocked(s) && Enabled(c, s, Handle(id))
    ensures Clocked(Apply(c, s, Handle(id)))
  {
    hide Pc.Stamps;
  }

  lemma OthersKeepClocked(c: Config, s: State, a: Action)
    requires Clocked(s) && Enabled(c, s, a) && !a.Work? && !a.Handle?
    ensures Clocked(Apply(c, s, a))
  {
  }

  lemma ClockedStep(c: Config, s: State, a: Action)
    requires Clocked(s) && Enabled(c, s, a)
    ensures Clocked(Apply(c, s, a))
  {
    hide Clocked, Apply, Enabled;
    match a
    case Work(w, i) => WorkKeepsClocked(c, s, w, i);
    case Handle(id) => HandleKeepsClocked(c, s, id);
    case _ => OthersKeepClocked(c, s, a);
  }

  // ---- Records ----

  /** The job's last Save has happened. */
  ghost predicate Over(s: State, j: JobId) {
    j in s.finished || (j < |s.handlers| && s.handlers[j].Refused?)
  }

  /** What "done" promises a client: the transcript, the extraction if there is an LLM, and no error. */
  ghost predicate DoneIsComplete(c: Config, r: Record) {
    r.status.Done? ==> r.result.Some? && (c.llm ==> r.result.value.extraction.Some?) && r.error == ""
  }

  ghost predicate Untouched(r: Record) {
    r.status.Queued? && r.holdsAudio && r.result.None? && r.error == ""
  }

  ghost predicate AtHandler(h: Handler, r: Record) {
    match h
    case FirstSave | TryEnqueue | MarkRefused => Untouched(r)
    case NoteRefused => r.status.Failed? && r.holdsAudio && r.result.None? && r.error == ""
    case ClockRefused | SaveRefused | Refused =>
      r.status.Failed? && r.holdsAudio && r.result.None? && r.error == QUEUE_FULL
    case StampRefused(at) =>
      r.status.Failed? && r.holdsAudio && r.result.None? && r.error == QUEUE_FULL && r.updatedAt <= at
    case Accepted => true
  }

  ghost predicate AtWorker(c: Config, pc: Pc, r: Record) {
    (pc.Stamps() ==> r.updatedAt <= pc.at) &&
    match pc
    case MarkProcessing => Untouched(r)
    case ClockProcessing | StampProcessing(_) | SaveProcessing | AwaitTranscript | DropAudio(_) =>
      r.status.Processing? && r.result.None? && r.error == ""
    case ClockTranscript(_) | StampTranscript(_, _) | FailTranscript(_) | KeepTranscript(_) =>
      r.status.Processing? && !r.holdsAudio && r.result.None? && r.error == ""
    case AwaitExtraction | FailExtraction(_) | KeepExtraction(_) =>
      r.status.Processing? && !r.holdsAudio && r.result.Some? && r.error == "" && c.llm
    case AwaitExport | MarkDone =>
      && r.status.Processing? && !r.holdsAudio && DoneIsComplete(c, r.(status := Done))
      && (pc.AwaitExport? ==> c.llm && c.sheets)
    case NoteTranscript(_) | NoteExtraction(_) => r.status.Failed? && !r.holdsAudio && r.error == ""
    case ClockFailure | StampFailure(_) => r.status.Failed? && !r.holdsAudio
    case ClockDone | StampDone(_) => r.status.Done? && !r.holdsAudio
    case FinalSave => r.status.Terminal() && !r.holdsAudio
    case Returned => false
  }

  ghost predicate Records(c: Config, s: State) {
    && |s.handlers| == |s.jobs|
    && (forall j :: 0 <= j < |s.jobs| ==> AtHandler(s.handlers[j], s.jobs[j]) && DoneIsComplete(c, s.jobs[j]))
    && (forall j :: j in s.queue ==> j < |s.jobs| && Untouched(s.jobs[j]))
    && (forall w, j: JobId :: Holds(s, w, j) ==> j < |s.jobs| && AtWorker(c, s.workers[w].pc, s.jobs[j]))
    && (forall j :: j in s.finished ==> j < |s.jobs| && s.jobs[j].status.Terminal() && !s.jobs[j].holdsAudio)
  }

  /** One instruction takes a record that fits its program counter to one that fits the next. */
  lemma InstructionFits(c: Config, pc: Pc, r: Record, now: real, i: Input)
    requires AtWorker(c, pc, r) && r.updatedAt <= now
    ensures var (next, q) := Instruction(c, pc, r, now, i);
            if next.Returned? then q.status.Terminal() && !q.holdsAudio else AtWorker(c, next, q)
  {
    hide Instruction, AtWorker, Pc.Listening;
    if pc.Listening() { ListeningFits(c, pc, r, now, i); } else { ExtractingFits(c, pc, r, now, i); }
  }

  lemma ListeningFits(c: Config, pc: Pc, r: Record, now: real, i: Input)
    requires AtWorker(c, pc, r) && r.updatedAt <= now && pc.Listening()
    ensures AtWorker(c, Instruction(c, pc, r, now, i).0, Instruction(c, pc, r, now, i).1)
  {
  }

  lemma ExtractingFits(c: Config, pc: Pc, r: Record, now: real, i: Input)
    requires AtWorker(c, pc, r) && r.updatedAt <= now && !pc.Listening()
    ensures var (next, q) := Instruction(c, pc, r, now, i);
            if next.Returned? then q.status.Terminal() && !q.holdsAudio else AtWorker(c, next, q)
  {
  }

  lemma InstructionCompletes(c: Config, pc: Pc, r: Record, now: real, i: Input)
    requires AtWorker(c, pc, r) && DoneIsComplete(c, r)
    ensures DoneIsComplete(c, Instruction(c, pc, r, now, i).1)
  {
  }

  lemma WorkKeepsRecords(c: Config, s: State, w: nat, i: Input)
    requires Ownership(c, s) && Records(c, s) && Clocked(s) && Enabled(c, s, Work(w, i))
    ensures Records(c, Apply(c, s, Work(w, i)))
  {
    hide Instruction, AtWorker, AtHandler, DoneIsComplete, Untouched, Apply;
    var t := Apply(c, s, Work(w, i));
    var id := s.workers[w].job;
    assert Holds(s, w, id);
    WorkMoves(c, s, w, i);
    InstructionFits(c, s.workers[w].pc, s.jobs[id], s.now, i);
    InstructionCompletes(c, s.workers[w].pc, s.jobs[id], s.now, i);
    NoDupParts(s.received, s.queue);
    assert id !in s.queue && id !in s.finished && id in s.accepted;
    assert AtHandler(s.handlers[id], t.jobs[id]) by { AcceptedFits(t.jobs[id]); }
    forall v, j: JobId | Holds(t, v, j)
      ensures if v == w then j == id else Holds(s, v, j) && j != id
    {
      if v != w { assert Holds(s, v, j); }
    }
  }

  lemma AcceptedFits(r: Record)
    ensures AtHandler(Accepted, r)
  {
  }

  /** What a handler's step changes, and what it leaves alone. */
  lemma HandleEffect(c: Config, s: State, id: JobId)
    requires Records(c, s) && Clocked(s) && Enabled(c, s, Handle(id))
    ensures var t := Apply(c, s, Handle(id));
            && t.jobs == s.jobs[id := t.jobs[id]] && t.handlers == s.handlers[id := t.handlers[id]]
            && AtHandler(t.handlers[id], t.jobs[id]) && DoneIsComplete(c, t.jobs[id])
            && t.queue == (if t.handlers[id].Accepted? then s.queue + [id] else s.queue)
            && (t.handlers[id].Accepted? ==> Untouched(t.jobs[id]))
            && t.store == (if s.handlers[id].Saves() then s.store + {id} else s.store)
            && (t.handlers[id].Refused? ==> id in t.store && s.sweeper.Resting?)
            && !t.handlers[id].FirstSave? && (s.handlers[id].FirstSave? ==> id in t.store)
            && (s.jobs[id].status.Terminal() ==> t.jobs[id].status == s.jobs[id].status)
            && t.workers == s.workers && t.finished == s.finished && t.now == s.now && t.sweeper == s.sweeper
  {
    var r, t := s.jobs[id], Apply(c, s, Handle(id));
    assert AtHandler(s.handlers[id], r) && DoneIsComplete(c, r);
  }

  /** A job still with its handler is with nobody else. */
  lemma HandlerOwns(c: Config, s: State, id: JobId)
    requires Ownership(c, s) && id < |s.handlers| && !s.handlers[id].Over()
    ensures id !in s.accepted && id !in s.received && id !in s.queue && id !in s.finished && !Over(s, id)
  {
    assert id !in s.accepted;
    assert forall j :: j in s.received + s.queue <==> j in s.accepted;
  }

  lemma HandleKeepsRecords(c: Config, s: State, id: JobId)
    requires Ownership(c, s) && Records(c, s) && Clocked(s) && Enabled(c, s, Handle(id))
    ensures Records(c, Apply(c, s, Handle(id)))
  {
    HandleEffect(c, s, id);
    HandlerOwns(c, s, id);
    hide Apply, Enabled, AtWorker, AtHandler, DoneIsComplete;
    var t := Apply(c, s, Handle(id));
    forall w, j: JobId | Holds(t, w, j)
      ensures j < |t.jobs| && AtWorker(c, t.workers[w].pc, t.jobs[j])
    {
      assert Holds(s, w, j);
    }
  }

  /** A worker takes a job nobody has touched: from the channel, or straight from its handler. */
  lemma TakeKeepsRecords(c: Config, s: State, a: Action)
    requires Ownership(c, s) && Records(c, s) && Enabled(c, s, a) && (a.Handoff? || a.Receive?)
    ensures Records(c, Apply(c, s, a))
  {
    var t := Apply(c, s, a);
    var id := if a.Handoff? then a.id else s.queue[0];
    if a.Receive? { assert id in s.queue; }
    assert id < |s.jobs|;
    if a.Handoff? { assert AtHandler(s.handlers[id], s.jobs[id]); }
    assert Untouched(s.jobs[id]) && t.workers == s.workers[a.w := Busy(id, MarkProcessing)];
    assert t.jobs == s.jobs && t.finished == s.finished;
    assert forall j :: j in t.queue ==> j in s.queue;
    hide Ownership, Apply;
    forall w, j: JobId | Holds(t, w, j)
      ensures j < |t.jobs| && AtWorker(c, t.workers[w].pc, t.jobs[j])
    {
      if w != a.w { assert Holds(s, w, j); }
    }
  }

  lemma OthersLeaveRecords(c: Config, s: State, a: Action)
    requires |s.handlers| == |s.jobs| && Enabled(c, s, a)
    requires !a.Work? && !a.Handle? && !a.Handoff? && !a.Receive?
    ensures var t := Apply(c, s, a);
            && |t.handlers| == |t.jobs| && s.jobs <= t.jobs && s.handlers <= t.handlers
            && (forall j :: |s.jobs| <= j < |t.jobs| ==>
                  t.handlers[j].FirstSave? && t.jobs[j] == Created(t.jobs[j].updatedAt))
            && t.queue == s.queue && t.finished == s.finished
            && |t.workers| == |s.workers|
            && forall w :: 0 <= w < |s.workers| && t.workers[w].Busy? ==> t.workers[w] == s.workers[w]
  {
  }

  lemma CreatedFits(c: Config, now: real)
    ensures AtHandler(FirstSave, Created(now)) && DoneIsComplete(c, Created(now))
  {
  }

  lemma OthersKeepRecords(c: Config, s: State, a: Action)
    requires Records(c, s) && Enabled(c, s, a)
    requires !a.Work? && !a.Handle? && !a.Handoff? && !a.Receive?
    ensures Records(c, Apply(c, s, a))
  {
    hide AtWorker, AtHandler, Untouched, DoneIsComplete, Created, Apply, Enabled;
    var t := Apply(c, s, a);
    OthersLeaveRecords(c, s, a);
    forall j | |s.jobs| <= j < |t.jobs| ensures AtHandler(t.handlers[j], t.jobs[j]) && DoneIsComplete(c, t.jobs[j]) {
      CreatedFits(c, t.jobs[j].updatedAt);
    }
    assert forall w, j: JobId :: Holds(t, w, j) ==> Holds(s, w, j) && t.workers[w] == s.workers[w];
  }

  lemma RecordsStep(c: Config, s: State, a: Action)
    requires Ownership(c, s) && Records(c, s) && Clocked(s) && Enabled(c, s, a)
    ensures Records(c, Apply(c, s, a))
  {
    hide Ownership, Records, Apply;
    match a
    case Work(w, i) => WorkKeepsRecords(c, s, w, i);
    case Handle(id) => HandleKeepsRecords(c, s, id);
    case Handoff(_, _) => TakeKeepsRecords(c, s, a);
    case Receive(_) => TakeKeepsRecords(c, s, a);
    case _ => OthersKeepRecords(c, s, a);
  }

  // ---- How one step may change one job ----

  /** queued to processing to done or failed, or queued straight to failed. */
  ghost predicate MayFollow(from: Status, to: Status) {
    || from == to
    || (from.Queued? && (to.Processing? || to.Failed?))
    || (from.Processing? && to.Terminal())
  }

  ghost predicate Evolves(r: Record, q: Record) {
    && MayFollow(r.status, q.status)
    && (r.status.Terminal() ==> q.status == r.status && q.result == r.result)
    && (r.status.Done? ==> q.error == r.error)
    && r.updatedAt <= q.updatedAt
  }

  lemma InstructionEvolves(c: Config, pc: Pc, r: Record, now: real, i: Input)
    requires AtWorker(c, pc, r)
    ensures Evolves(r, Instruction(c, pc, r, now, i).1)
  {
  }

  /** Records change only at their worker's or their handler's hands. */
  lemma OthersLeaveJob(c: Config, s: State, a: Action, j: JobId)
    requires Enabled(c, s, a) && j < |s.jobs|
    requires !(a.Work? && s.workers[a.w].job == j) && !(a.Handle? && a.id == j)
    ensures j < |Apply(c, s, a).jobs| && Apply(c, s, a).jobs[j] == s.jobs[j]
  {
  }

  lemma HandlerEvolves(c: Config, s: State, id: JobId)
    requires Records(c, s) && Enabled(c, s, Handle(id))
    ensures id < |Apply(c, s, Handle(id)).jobs| && Evolves(s.jobs[id], Apply(c, s, Handle(id)).jobs[id])
  {
    assert AtHandler(s.handlers[id], s.jobs[id]);
  }

  lemma StepEvolves(c: Config, s: State, a: Action, j: JobId)
    requires Ownership(c, s) && Records(c, s) && Enabled(c, s, a) && j < |s.jobs|
    ensures j < |Apply(c, s, a).jobs| && Evolves(s.jobs[j], Apply(c, s, a).jobs[j])
  {
    hide Instruction, AtWorker, AtHandler, Evolves, Apply;
    if a.Work? && s.workers[a.w].job == j {
      assert Holds(s, a.w, j);
      WorkMoves(c, s, a.w, a.input);
      InstructionEvolves(c, s.workers[a.w].pc, s.jobs[j], s.now, a.input);
    } else if a.Handle? && a.id == j {
      HandlerEvolves(c, s, j);
    } else {
      OthersLeaveJob(c, s, a, j);
      Unchanged(s.jobs[j]);
    }
  }

  lemma Unchanged(r: Record)
    ensures Evolves(r, r)
  {
  }

  // ---- Retention ----

  ghost predicate Retained(c: Config, s: State) {
    && |s.handlers| == |s.jobs|
    && (forall j :: j in s.store ==> j < |s.jobs|)
    && (forall j :: 0 <= j < |s.jobs| && !s.handlers[j].FirstSave? && !s.jobs[j].status.Terminal() ==> j in s.store)
    && (forall j :: 0 <= j < |s.jobs| && Over(s, j) ==> j in s.store || s.jobs[j].updatedAt < s.now - c.ttl)
    && (s.sweeper.Sweeping? ==>
          && s.sweeper.cutoff <= s.now - c.ttl
          && (s.sweeper.look.NotDone? ==> s.sweeper.look.id < |s.jobs|)
          && (s.sweeper.look.Ended? ==> s.sweeper.look.id < |s.jobs| && s.jobs[s.sweeper.look.id].status.Terminal())
          && (s.sweeper.look.Condemned? ==> MayGo(c, s, s.sweeper.look.id)))
  }

  /** The job has ended, and if nobody will save it again it is more than a TTL old. */
  ghost predicate MayGo(c: Config, s: State, j: JobId) {
    j < |s.jobs| && s.jobs[j].status.Terminal() && (Over(s, j) ==> s.jobs[j].updatedAt < s.now - c.ttl)
  }

  /** What a worker's step changes, and what it leaves alone. */
  lemma WorkEffect(c: Config, s: State, w: nat, i: Input)
    requires Ownership(c, s) && Records(c, s) && Enabled(c, s, Work(w, i))
    ensures var t, id := Apply(c, s, Work(w, i)), s.workers[w].job;
            && t.jobs == s.jobs[id := t.jobs[id]] && Evolves(s.jobs[id], t.jobs[id])
            && t.store == (if s.workers[w].pc.Saves() then s.store + {id} else s.store)
            && t.finished == (if t.workers[w].Idle? then s.finished + [id] else s.finished)
            && (t.workers[w].Idle? ==> id in t.store && s.sweeper.Resting?)
            && t.handlers == s.handlers && t.now == s.now && t.sweeper == s.sweeper
            && s.handlers[id].Accepted? && id !in s.finished
  {
    var id := s.workers[w].job;
    assert Holds(s, w, id);
    InstructionEvolves(c, s.workers[w].pc, s.jobs[id], s.now, i);
    InstructionSaves(c, s.workers[w].pc, s.jobs[id], s.now, i);
  }

  lemma WorkKeepsRetained(c: Config, s: State, w: nat, i: Input)
    requires Ownership(c, s) && Records(c, s) && Retained(c, s) && Enabled(c, s, Work(w, i))
    ensures Retained(c, Apply(c, s, Work(w, i)))
  {
    WorkEffect(c, s, w, i);
    var t, id := Apply(c, s, Work(w, i)), s.workers[w].job;
    OwnedChangeKeepsRetained(c, s, t, id);
  }

  /** A job that is not over changes and may be saved: whatever else was retained still is. */
  lemma OwnedChangeKeepsRetained(c: Config, s: State, t: State, id: JobId)
    requires Retained(c, s) && id < |s.jobs| && !Over(s, id)
    requires |t.jobs| == |s.jobs| && |t.handlers| == |s.handlers| && t.now == s.now && t.sweeper == s.sweeper
    requires t.store == s.store || t.store == s.store + {id}
    requires forall j :: 0 <= j < |s.jobs| && j != id ==> t.jobs[j] == s.jobs[j] && t.handlers[j] == s.handlers[j]
    requires forall j :: j != id ==> (j in t.finished <==> j in s.finished)
    requires s.jobs[id].status.Terminal() ==> t.jobs[id].status.Terminal()
    requires Over(t, id) || (!t.handlers[id].FirstSave? && s.handlers[id].FirstSave?) ==> id in t.store
    requires Over(t, id) ==> s.sweeper.Resting?
    ensures Retained(c, t)
  {
    hide Status.Terminal;
    assert forall j :: j != id ==> (Over(t, j) <==> Over(s, j));
  }

  lemma InstructionSaves(c: Config, pc: Pc, r: Record, now: real, i: Input)
    requires AtWorker(c, pc, r)
    ensures Instruction(c, pc, r, now, i).0.Returned? ==> pc.Saves()
  {
  }

  lemma HandleKeepsRetained(c: Config, s: State, id: JobId)
    requires Ownership(c, s) && Records(c, s) && Clocked(s) && Retained(c, s) && Enabled(c, s, Handle(id))
    ensures Retained(c, Apply(c, s, Handle(id)))
  {
    HandleEffect(c, s, id);
    HandlerOwns(c, s, id);
    hide Ownership, Records, Apply, AtHandler, DoneIsComplete;
    OwnedChangeKeepsRetained(c, s, Apply(c, s, Handle(id)), id);
  }

  ghost predicate Sweeps(a: Action) {
    a.SweepBegin? || a.SweepLook? || a.SweepJudge? || a.SweepEnd?
  }

  /** The sweeper deletes only what it has just seen ended, and only past the TTL. */
  lemma SweepKeepsRetained(c: Config, s: State, a: Action)
    requires Retained(c, s) && Enabled(c, s, a) && Sweeps(a)
    ensures Retained(c, Apply(c, s, a))
  {
    var t := Apply(c, s, a);
    assert t.jobs == s.jobs && t.handlers == s.handlers && t.now == s.now;
    assert forall j :: Over(t, j) <==> Over(s, j);
  }

  lemma OthersKeepRetained(c: Config, s: State, a: Action)
    requires Ownership(c, s) && Records(c, s) && Retained(c, s) && Enabled(c, s, a)
    requires !a.Work? && !a.Handle? && !Sweeps(a)
    ensures Retained(c, Apply(c, s, a))
  {
    var t := Apply(c, s, a);
    assert forall j :: 0 <= j < |s.jobs| ==> t.jobs[j] == s.jobs[j];
    assert forall j :: 0 <= j < |s.jobs| ==> (Over(t, j) <==> Over(s, j));
    assert t.store == s.store && t.sweeper == s.sweeper && s.now <= t.now;
    assert forall j :: |s.jobs| <= j < |t.jobs| ==> t.handlers[j].FirstSave? && !Over(t, j);
  }

  lemma RetainedStep(c: Config, s: State, a: Action)
    requires Ownership(c, s) && Records(c, s) && Clocked(s) && Retained(c, s) && Enabled(c, s, a)
    ensures Retained(c, Apply(c, s, a))
  {
    hide Ownership, Records, Retained, Apply;
    match a
    case Work(w, i) => WorkKeepsRetained(c, s, w, i);
    case Handle(id) => HandleKeepsRetained(c, s, id);
    case _ => if Sweeps(a) { SweepKeepsRetained(c, s, a); } else { OthersKeepRetained(c, s, a); }
  }

  // ---- Pollers ----

  /** What a poller that has seen the job ended has seen since. */
  ghost predicate SeenSoFar(next: Field, seen: Seen, r: Record) {
    next.StatusField? ||
    (&& (seen.status.Failed? ==> r.status.Failed?)
     && (seen.status.Done? ==>
           && r.status.Done?
           && (next.ExtractionField? ==> seen.result.Some?)
           && (next.ErrorField? || next.UpdatedField? ==> seen.result == r.result)
           && (next.UpdatedField? ==> seen.error == r.error)))
  }

  ghost predicate SeenAll(seen: Seen, r: Record) {
    && (seen.status.Failed? ==> r.status.Failed?)
    && (seen.status.Done? ==> r.status.Done? && seen.result == r.result && seen.error == r.error)
  }

  ghost predicate PollFits(s: State, poll: Poll) {
    match poll
    case Reading(id, next, seen) => id < |s.jobs| && SeenSoFar(next, seen, s.jobs[id])
    case Answered(id, seen) => id < |s.jobs| && SeenAll(seen, s.jobs[id])
    case _ => true
  }

  ghost predicate Polled(s: State) {
    forall p :: p in s.polls ==> PollFits(s, s.polls[p])
  }

  lemma PolledStep(c: Config, s: State, a: Action)
    requires Ownership(c, s) && Records(c, s) && Retained(c, s) && Polled(s) && Enabled(c, s, a)
    ensures Polled(Apply(c, s, a))
  {
    var t := Apply(c, s, a);
    forall p | p in t.polls ensures PollFits(t, t.polls[p]) {
      if a.PollStep? && a.p == p {
        assert PollFits(s, s.polls[p]);
      } else if !(a.PollBegin? && a.p == p) {
        PollersUndisturbed(c, s, a, p);
      }
    }
  }

  lemma PollersUndisturbed(c: Config, s: State, a: Action, p: nat)
    requires Ownership(c, s) && Records(c, s) && Polled(s) && Enabled(c, s, a) && p in s.polls
    requires !(a.PollStep? && a.p == p)
    ensures p in Apply(c, s, a).polls && Apply(c, s, a).polls[p] == s.polls[p]
    ensures PollFits(Apply(c, s, a), s.polls[p])
  {
    assert PollFits(s, s.polls[p]);
    if s.polls[p].Reading? || s.polls[p].Answered? {
      StepEvolves(c, s, a, s.polls[p].id);
    }
  }

  // ---- The invariant ----

  ghost predicate Inv(c: Config, s: State) {
    Ownership(c, s) && Records(c, s) && Retained(c, s) && Polled(s) && Clocked(s)
  }

  lemma {:induction false} NobodyBusy(ws: seq<Worker>)
    requires forall w :: 0 <= w < |ws| ==> ws[w].Idle?
    ensures BusyCount(ws) == 0
  {
    if ws != [] { NobodyBusy(ws[1..]); }
  }

  lemma InitInv(c: Config)
    ensures Inv(c, Init(c))
  {
    NobodyBusy(Init(c).workers);
    assert forall w, j: JobId :: !Holds(Init(c), w, j);
  }

  lemma InvStep(c: Config, s: State, a: Action)
    requires Inv(c, s) && Enabled(c, s, a)
    ensures Inv(c, Apply(c, s, a))
  {
    hide Ownership, Records, Retained, Polled, Clocked, Enabled, Apply;
    OwnershipStep(c, s, a);
    RecordsStep(c, s, a);
    RetainedStep(c, s, a);
    PolledStep(c, s, a);
    ClockedStep(c, s, a);
  }

  /** Every interleaving keeps the invariant. */
  lemma {:induction false} InvAfter(c: Config, s: State, acts: seq<Action>)
    requires Inv(c, s) && Legal(c, s, acts)
    ensures Inv(c, After(c, s, acts))
    decreases |acts|
  {
    hide Inv, Enabled, Apply;
    if acts != [] {
      InvStep(c, s, acts[0]);
      InvAfter(c, Apply(c, s, acts[0]), acts[1..]);
    }
  }
}
