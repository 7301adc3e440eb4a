/**
 What a poll's answer is worth: exactly when the error it carries is the job's
 last word, and that a poll begun after a job's last Save reads the final record.
 */
module JobAnswers {
  import opened Wrappers
  import opened JobProtocol
  import opened JobInvariant
  import opened JobTheorems

  // ---- Errors ----

  /** The job's status says failed, and writing message m into its Error comes next. */
  ghost predicate Owes(s: State, j: JobId, m: string) {
    || (j < |s.handlers| && s.handlers[j].NoteRefused? && m == QUEUE_FULL)
    || exists w :: Holds(s, w, j) && Notes(s.workers[w].pc, m)
  }

  ghost predicate Notes(pc: Pc, m: string) {
    pc == NoteTranscript(m) || pc == NoteExtraction(m)
  }

  /** No message is owed, unless an empty one. */
  ghost predicate ErrorSettled(s: State, j: JobId) {
    forall m :: Owes(s, j, m) ==> m == ""
  }

  /** Whatever happens next, the job's error is what it is now. */
  ghost predicate ErrorStays(c: Config, s: State, j: JobId) {
    forall more :: Legal(c, s, more) ==> SameError(s, After(c, s, more), j)
  }

  ghost predicate SameError(s: State, t: State, j: JobId) {
    j < |s.jobs| && j < |t.jobs| && t.jobs[j].error == s.jobs[j].error
  }

  lemma InstructionSettles(c: Config, pc: Pc, r: Record, now: real, i: Input)
    requires AtWorker(c, pc, r) && r.status.Terminal() && forall m :: Notes(pc, m) ==> m == ""
    ensures var (next, q) := Instruction(c, pc, r, now, i);
            q.error == r.error && forall m :: !Notes(next, m)
  {
    assert pc.NoteTranscript? || pc.NoteExtraction? ==> Notes(pc, pc.message);
  }

  /** A step of the worker that holds the ended job. */
  lemma WorkerSettles(c: Config, s: State, w: nat, i: Input)
    requires Inv(c, s) && Enabled(c, s, Work(w, i))
    requires s.jobs[s.workers[w].job].status.Terminal() && ErrorSettled(s, s.workers[w].job)
    ensures var t, j := Apply(c, s, Work(w, i)), s.workers[w].job;
            SameError(s, t, j) && ErrorSettled(t, j)
  {
    var t, j := Apply(c, s, Work(w, i)), s.workers[w].job;
    assert Holds(s, w, j) && s.handlers[j].Accepted?;
    assert forall m :: Notes(s.workers[w].pc, m) ==> Owes(s, j, m);
    InstructionSettles(c, s.workers[w].pc, s.jobs[j], s.now, i);
    WorkMoves(c, s, w, i);
    hide Instruction, Apply, AtWorker, Notes;
    assert forall v :: v != w ==> (Holds(t, v, j) <==> Holds(s, v, j));
  }

  lemma HandlerSettles(c: Config, s: State, j: JobId)
    requires Inv(c, s) && Enabled(c, s, Handle(j)) && s.jobs[j].status.Terminal() && ErrorSettled(s, j)
    ensures SameError(s, Apply(c, s, Handle(j)), j) && ErrorSettled(Apply(c, s, Handle(j)), j)
  {
    assert AtHandler(s.handlers[j], s.jobs[j]);
    assert s.handlers[j].NoteRefused? ==> Owes(s, j, QUEUE_FULL);
    HandlerOwns(c, s, j);
    HandleEffect(c, s, j);
  }

  lemma OthersLeaveOwner(c: Config, s: State, a: Action, j: JobId)
    requires Enabled(c, s, a) && j < |s.handlers|
    requires !(a.Work? && s.workers[a.w].job == j) && !(a.Handle? && a.id == j)
    ensures var t := Apply(c, s, a);
            && j < |t.handlers| && (t.handlers[j] == s.handlers[j] || t.handlers[j].Accepted?)
            && forall w :: Holds(t, w, j) ==>
                 t.workers[w].pc.MarkProcessing? || (Holds(s, w, j) && t.workers[w] == s.workers[w])
  {
  }

  lemma OthersSettle(c: Config, s: State, a: Action, j: JobId)
    requires |s.handlers| == |s.jobs| && Enabled(c, s, a) && j < |s.jobs| && ErrorSettled(s, j)
    requires !(a.Work? && s.workers[a.w].job == j) && !(a.Handle? && a.id == j)
    ensures SameError(s, Apply(c, s, a), j) && ErrorSettled(Apply(c, s, a), j)
  {
    hide Apply, Enabled;
    OthersLeaveJob(c, s, a, j);
    OthersLeaveOwner(c, s, a, j);
    var t := Apply(c, s, a);
    forall m | Owes(t, j, m) ensures Owes(s, j, m) {
      if w :| Holds(t, w, j) && Notes(t.workers[w].pc, m) { assert Holds(s, w, j); }
    }
  }

  /** Once an ended job owes no message its error never changes. */
  lemma SettledStep(c: Config, s: State, a: Action, j: JobId)
    requires Inv(c, s) && Enabled(c, s, a) && j < |s.jobs| && s.jobs[j].status.Terminal() && ErrorSettled(s, j)
    ensures var t := Apply(c, s, a); SameError(s, t, j) && t.jobs[j].status.Terminal() && ErrorSettled(t, j)
  {
    StepEvolves(c, s, a, j);
    hide Inv, Apply, ErrorSettled, SameError;
    if a.Work? && s.workers[a.w].job == j {
      WorkerSettles(c, s, a.w, a.input);
    } else if a.Handle? && a.id == j {
      HandlerSettles(c, s, j);
    } else {
      OthersSettle(c, s, a, j);
    }
  }

  lemma {:induction false} SettledAfter(c: Config, s: State, more: seq<Action>, j: JobId)
    requires Inv(c, s) && Legal(c, s, more) && j < |s.jobs| && s.jobs[j].status.Terminal() && ErrorSettled(s, j)
    ensures SameError(s, After(c, s, more), j)
    decreases |more|
  {
    hide Inv, Enabled, Apply, ErrorSettled;
    if more != [] {
      InvStep(c, s, more[0]);
      SettledStep(c, s, more[0], j);
      SettledAfter(c, Apply(c, s, more[0]), more[1..], j);
    }
  }

  /** A job that owes a message has none yet, and the next step of its owner writes it. */
  lemma OwedIsPaid(c: Config, s: State, j: JobId, m: string) returns (a: Action)
    requires Inv(c, s) && j < |s.jobs| && Owes(s, j, m)
    ensures Enabled(c, s, a) && s.jobs[j].status.Failed? && s.jobs[j].error == ""
    ensures j < |Apply(c, s, a).jobs| && Apply(c, s, a).jobs[j].error == m
  {
    if s.handlers[j].NoteRefused? && m == QUEUE_FULL {
      assert AtHandler(s.handlers[j], s.jobs[j]);
      a := Handle(j);
    } else {
      var w :| Holds(s, w, j) && Notes(s.workers[w].pc, m);
      a := Work(w, SOMETHING);
    }
  }

  lemma PayingChanges(c: Config, s: State, j: JobId, m: string)
    requires Inv(c, s) && j < |s.jobs| && Owes(s, j, m) && m != ""
    ensures !ErrorStays(c, s, j)
  {
    var a := OwedIsPaid(c, s, j, m);
    hide Inv, Apply, Enabled;
    AfterCons(c, s, a, []);
    assert [a] + [] == [a];
    assert After(c, s, [a]) == Apply(c, s, a);
    assert Legal(c, s, [a]) && !SameError(s, After(c, s, [a]), j);
  }

  lemma StaysExactly(c: Config, s: State, j: JobId)
    requires Inv(c, s) && j < |s.jobs| && s.jobs[j].status.Terminal()
    ensures ErrorStays(c, s, j) <==> ErrorSettled(s, j)
  {
    hide Inv, Owes, SameError;
    if ErrorSettled(s, j) {
      forall more | Legal(c, s, more) ensures SameError(s, After(c, s, more), j) {
        SettledAfter(c, s, more, j);
      }
    } else {
      var m :| Owes(s, j, m) && m != "";
      PayingChanges(c, s, j, m);
    }
  }

  /** The error of an ended job is final exactly if no message is owed. */
  lemma ErrorFinalExactly(c: Config, acts: seq<Action>, s: State, j: JobId)
    requires Reached(c, acts, s) && j < |s.jobs| && s.jobs[j].status.Terminal()
    ensures ErrorStays(c, s, j) <==> ErrorSettled(s, j)
  {
    ReachedInv(c, acts, s);
    StaysExactly(c, s, j);
  }

  /** A poll that has seen "failed" and reads the error now reads the final one exactly if no message is owed. */
  lemma PollReadsFinalErrorExactly(c: Config, acts: seq<Action>, s: State, p: nat)
    requires Reached(c, acts, s)
    requires p in s.polls && s.polls[p].Reading? && s.polls[p].next.ErrorField? && s.polls[p].seen.status.Failed?
    ensures s.polls[p].id < |s.jobs| && s.jobs[s.polls[p].id].status.Failed? && Enabled(c, s, PollStep(p))
    ensures var t, j := Apply(c, s, PollStep(p)), s.polls[p].id;
            && p in t.polls && t.polls[p].Reading? && j < |t.jobs| && t.polls[p].seen.error == t.jobs[j].error
            && (ErrorStays(c, t, j) <==> ErrorSettled(s, j))
  {
    ReachedInv(c, acts, s);
    assert PollFits(s, s.polls[p]);
    var t, j := Apply(c, s, PollStep(p)), s.polls[p].id;
    InvStep(c, s, PollStep(p));
    StaysExactly(c, t, j);
    PollingOwesNothing(s, t, j);
  }

  lemma PollingOwesNothing(s: State, t: State, j: JobId)
    requires t.handlers == s.handlers && t.workers == s.workers
    ensures ErrorSettled(t, j) <==> ErrorSettled(s, j)
  {
    assert forall m :: Owes(t, j, m) <==> Owes(s, j, m) by {
      assert forall w :: Holds(t, w, j) <==> Holds(s, w, j);
    }
  }

  /** What a refused job says in the end, and from its error write on. */
  lemma RefusedSaysSo(c: Config, acts: seq<Action>, s: State, j: JobId)
    requires Reached(c, acts, s) && j < |s.handlers|
    ensures s.handlers[j] !in {FirstSave, TryEnqueue, MarkRefused, NoteRefused, Accepted} ==>
              j < |s.jobs| && s.jobs[j].error == QUEUE_FULL && ErrorStays(c, s, j)
  {
    ReachedInv(c, acts, s);
    assert AtHandler(s.handlers[j], s.jobs[j]);
    if s.handlers[j] !in {FirstSave, TryEnqueue, MarkRefused, NoteRefused, Accepted} {
      assert forall w :: !Holds(s, w, j);
      StaysExactly(c, s, j);
    }
  }

  // ---- After the last Save ----

  /** Nobody writes a job that is over. */
  lemma OverIsFrozen(c: Config, s: State, a: Action, j: JobId)
    requires Inv(c, s) && Enabled(c, s, a) && j < |s.jobs| && Over(s, j)
    ensures var t := Apply(c, s, a); j < |t.jobs| && t.jobs[j] == s.jobs[j] && Over(t, j)
  {
    if a.Work? {
      assert Holds(s, a.w, s.workers[a.w].job);
      WorkEffect(c, s, a.w, a.input);
    }
    if a.Handle? { HandlerOwns(c, s, a.id); }
    OthersLeaveJob(c, s, a, j);
  }

  /** A poll that has read the record r so far, and nothing else. */
  ghost predicate Reads(poll: Poll, j: JobId, r: Record) {
    match poll
    case Reading(id, next, seen) =>
      id == j ==>
        && (next.StatusField? || seen.status == r.status)
        && (next.ExtractionField? ==> seen.result == Shallow(r.result))
        && (next.ErrorField? || next.UpdatedField? ==> seen.result == r.result)
        && (next.UpdatedField? ==> seen.error == r.error)
    case Answered(id, seen) => id == j ==> seen == Seen(r.status, r.result, r.error, r.updatedAt)
    case _ => true
  }

  ghost function Shallow(result: Option<JobResult>): Option<JobResult> {
    match result
    case Some(jr) => Some(jr.(extraction := None))
    case None => None
  }

  lemma PollStepReads(s: State, poll: Poll, j: JobId)
    requires j < |s.jobs| && (poll.Reading? ==> poll.id < |s.jobs|) && Reads(poll, j, s.jobs[j])
    ensures Reads(PollerStep(s, poll), j, s.jobs[j])
  {
  }

  lemma {:induction false} FrozenPoll(c: Config, s: State, more: seq<Action>, j: JobId, p: nat)
    requires Inv(c, s) && Legal(c, s, more) && j < |s.jobs| && Over(s, j)
    requires p in s.polls ==> Reads(s.polls[p], j, s.jobs[j])
    ensures var t := After(c, s, more);
            && j < |t.jobs| && t.jobs[j] == s.jobs[j]
            && (p in t.polls ==> Reads(t.polls[p], j, s.jobs[j]))
    decreases |more|
  {
    hide Inv, Reads;
    if more != [] {
      var a := more[0];
      var t := Apply(c, s, a);
      InvStep(c, s, a);
      OverIsFrozen(c, s, a, j);
      if p in t.polls {
        if a.PollStep? && a.p == p {
          PollStepReads(s, s.polls[p], j);
        } else if a.PollBegin? && a.p == p {
          assert Reads(Asking(a.id), j, s.jobs[j]) by { AskingReads(a.id, j, s.jobs[j]); }
        }
      }
      hide Enabled, Apply, Over;
      FrozenPoll(c, t, more[1..], j, p);
    }
  }

  lemma AskingReads(id: JobId, j: JobId, r: Record)
    ensures Reads(Asking(id), j, r)
  {
  }

  /** A poll begun after a job's last Save answers with the job's final record, error included,
      whatever goes on meanwhile. */
  lemma LatePollIsFinal(c: Config, acts: seq<Action>, s: State, more: seq<Action>, j: JobId, p: nat)
    requires Reached(c, acts, s) && j < |s.jobs| && Over(s, j) && p !in s.polls && Legal(c, s, more)
    ensures var r, t := s.jobs[j], After(c, s, more);
            && r.status.Terminal() && j < |t.jobs| && t.jobs[j] == r
            && (p in t.polls && t.polls[p].Answered? && t.polls[p].id == j ==>
                  t.polls[p].seen == Seen(r.status, r.result, r.error, r.updatedAt))
  {
    ReachedInv(c, acts, s);
    assert AtHandler(s.handlers[j], s.jobs[j]);
    FrozenPoll(c, s, more, j, p);
  }

  // ---- Polls that get through ----

  /** What a poll of job j with record r has read after n steps with nobody else about. */
  ghost function HasRead(r: Record, j: JobId, n: nat): Poll {
    var status := UNSEEN.(status := r.status);
    var shallow := status.(result := Shallow(r.result));
    var deep := status.(result := r.result);
    var error := deep.(error := r.error);
    if n == 0 then Asking(j)
    else if n == 1 then Reading(j, StatusField, UNSEEN)
    else if n == 2 then Reading(j, ResultField, status)
    else if n == 3 then Reading(j, ExtractionField, shallow)
    else if n == 4 then Reading(j, ErrorField, deep)
    else if n == 5 then Reading(j, UpdatedField, error)
    else Answered(j, Seen(r.status, r.result, r.error, r.updatedAt))
  }

  lemma ReadsOn(s: State, j: JobId, n: nat)
    requires j < |s.jobs| && j in s.store && n < 6
    ensures var p := HasRead(s.jobs[j], j, n);
            (p.Asking? || p.Reading?) && p.id == j && PollerStep(s, p) == HasRead(s.jobs[j], j, n + 1)
  {
  }

  ghost function Again(p: nat, n: nat): seq<Action> {
    if n == 0 then [] else [PollStep(p)] + Again(p, n - 1)
  }

  lemma {:induction false} ReadsToTheEnd(c: Config, s: State, p: nat, j: JobId, n: nat)
    requires s.sweeper.Resting? && j in s.store && j < |s.jobs| && n <= 6
    requires p in s.polls && s.polls[p] == HasRead(s.jobs[j], j, n)
    ensures Legal(c, s, Again(p, 6 - n))
    ensures After(c, s, Again(p, 6 - n)) == s.(polls := s.polls[p := HasRead(s.jobs[j], j, 6)])
    decreases 6 - n
  {
    hide HasRead, PollerStep;
    if n == 6 {
      assert s.polls[p := s.polls[p]] == s.polls;
    } else {
      ReadsOn(s, j, n);
      var t := Apply(c, s, PollStep(p));
      assert t == s.(polls := s.polls[p := HasRead(s.jobs[j], j, n + 1)]);
      hide Apply, Enabled;
      ReadsToTheEnd(c, t, p, j, n + 1);
      AfterCons(c, s, PollStep(p), Again(p, 6 - (n + 1)));
    }
  }

  /** From its beginning to its answer. */
  ghost function WholePoll(p: nat, j: JobId): seq<Action> {
    [PollBegin(p, j)] + Again(p, 6)
  }

  /** In every reachable state between sweeps a poll of a stored job, left alone, answers with the whole record
      as it is, whatever that is. */
  lemma PollAlone(c: Config, acts: seq<Action>, s: State, p: nat, j: JobId)
    requires Reached(c, acts, s) && s.sweeper.Resting? && j in s.store && p !in s.polls
    ensures j < |s.jobs| && Legal(c, s, WholePoll(p, j))
    ensures var r := s.jobs[j];
            After(c, s, WholePoll(p, j))
            == s.(polls := s.polls[p := Answered(j, Seen(r.status, r.result, r.error, r.updatedAt))])
  {
    ReachedInv(c, acts, s);
    hide Inv;
    var t := Apply(c, s, PollBegin(p, j));
    assert t == s.(polls := s.polls[p := Asking(j)]);
    ReadsToTheEnd(c, t, p, j, 0);
    AfterCons(c, s, PollBegin(p, j), Again(p, 6));
  }

  /** Whatever else goes on, a poll is answered "not found" exactly if the job is not in the store when it is looked up,
      and otherwise begins to read it. */
  lemma NotFoundExactly(c: Config, s: State, a: Action, p: nat)
    requires Enabled(c, s, a) && p in s.polls
    ensures var before, after := s.polls[p], if p in Apply(c, s, a).polls then Apply(c, s, a).polls[p] else NotFound;
            && p in Apply(c, s, a).polls
            && (after != before ==> a == PollStep(p))
            && (after.NotFound? && !before.NotFound? <==> a == PollStep(p) && before.Asking? && before.id !in s.store)
            && (a == PollStep(p) && before.Asking? && before.id in s.store ==>
                  after == Reading(before.id, StatusField, UNSEEN))
  {
  }

  /** A poll of a job that has not ended, or of a finished one within its TTL, is never answered "not found". */
  lemma KeptJobIsFound(c: Config, acts: seq<Action>, s: State, p: nat)
    requires Reached(c, acts, s) && p in s.polls && s.polls[p].Asking? && Enabled(c, s, PollStep(p))
    ensures var j := s.polls[p].id;
            j < |s.jobs| && j < |s.handlers|
            && ((!s.handlers[j].FirstSave? && !s.jobs[j].status.Terminal())
                || (Over(s, j) && s.now <= s.jobs[j].updatedAt + c.ttl))
            ==> Apply(c, s, PollStep(p)).polls[p] == Reading(j, StatusField, UNSEEN)
  {
    var j := s.polls[p].id;
    if j < |s.jobs| { Retention(c, acts, s, j); }
  }

  /** A poll can always begin, and goes on whenever no sweep holds the lock it needs for the lookup. */
  lemma PollNeverStuck(c: Config, acts: seq<Action>, s: State, p: nat, j: JobId)
    requires Reached(c, acts, s)
    ensures p !in s.polls ==> Enabled(c, s, PollBegin(p, j))
    ensures p in s.polls && s.polls[p].Asking? ==> (Enabled(c, s, PollStep(p)) <==> s.sweeper.Resting?)
    ensures p in s.polls && s.polls[p].Reading? ==> Enabled(c, s, PollStep(p))
  {
    ReachedInv(c, acts, s);
    if p in s.polls { assert PollFits(s, s.polls[p]); }
  }

  // ---- Jobs that are due do leave ----

  /** A due job is out of the store, or the sweep going on has still to look at it or is looking. */
  ghost predicate Pursued(s: State, j: JobId) {
    && j < |s.jobs| && Over(s, j)
    && (j in s.store ==>
          && s.sweeper.Sweeping? && s.jobs[j].updatedAt < s.sweeper.cutoff
          && (j in s.sweeper.todo || (s.sweeper.look != Nowhere && s.sweeper.look.id == j))
          && (s.sweeper.look == NotDone(j) ==> !s.jobs[j].status.Done?))
  }

  lemma EndedBy(c: Config, s: State, j: JobId)
    requires Inv(c, s) && j < |s.jobs| && Over(s, j)
    ensures s.jobs[j].status.Done? || s.jobs[j].status.Failed?
  {
    assert AtHandler(s.handlers[j], s.jobs[j]);
  }

  /** Nobody saves a job that is over. */
  lemma OverIsNotSaved(c: Config, s: State, a: Action, j: JobId)
    requires Inv(c, s) && Enabled(c, s, a) && j < |s.jobs| && Over(s, j) && !Sweeps(a)
    ensures (j in Apply(c, s, a).store <==> j in s.store) && Apply(c, s, a).sweeper == s.sweeper
  {
    if a.Work? {
      assert Holds(s, a.w, s.workers[a.w].job);
      WorkEffect(c, s, a.w, a.input);
    }
    if a.Handle? { HandlerOwns(c, s, a.id); }
  }

  lemma SweepPursues(c: Config, s: State, a: Action, j: JobId)
    requires Clocked(s) && Enabled(c, s, a) && Sweeps(a) && Pursued(s, j)
    requires s.jobs[j].status.Done? || s.jobs[j].status.Failed?
    ensures Pursued(Apply(c, s, a), j)
  {
    var t := Apply(c, s, a);
    assert t.jobs == s.jobs && t.handlers == s.handlers && t.finished == s.finished;
  }

  lemma PursuedStep(c: Config, s: State, a: Action, j: JobId)
    requires Inv(c, s) && Enabled(c, s, a) && Pursued(s, j)
    ensures Pursued(Apply(c, s, a), j)
  {
    OverIsFrozen(c, s, a, j);
    EndedBy(c, s, j);
    if Sweeps(a) { SweepPursues(c, s, a, j); } else { OverIsNotSaved(c, s, a, j); }
  }

  lemma {:induction false} PursuedAfter(c: Config, s: State, acts: seq<Action>, j: JobId)
    requires Inv(c, s) && Legal(c, s, acts) && Pursued(s, j)
    ensures Pursued(After(c, s, acts), j)
    decreases |acts|
  {
    hide Inv, Enabled, Apply, Pursued;
    if acts != [] {
      InvStep(c, s, acts[0]);
      PursuedStep(c, s, acts[0], j);
      PursuedAfter(c, Apply(c, s, acts[0]), acts[1..], j);
    }
  }

  /** A job that is over and more than a TTL old when a sweep begins is gone for ever once that sweep has ended,
      whatever goes on meanwhile. */
  lemma DueJobIsSwept(c: Config, acts: seq<Action>, s: State, reading: real, more: seq<Action>, j: JobId)
    requires Reached(c, acts, s) && Enabled(c, s, SweepBegin(reading)) && j < |s.jobs| && Over(s, j)
    requires s.jobs[j].updatedAt + c.ttl < reading
    requires Legal(c, s, [SweepBegin(reading)] + more)
    ensures After(c, s, [SweepBegin(reading)] + more).sweeper.Resting? ==>
              j !in After(c, s, [SweepBegin(reading)] + more).store
  {
    ReachedInv(c, acts, s);
    var begin := SweepBegin(reading);
    InvStep(c, s, begin);
    assert ([begin] + more)[0] == begin && ([begin] + more)[1..] == more;
    var t := Apply(c, s, begin);
    assert Pursued(t, j);
    hide Inv;
    PursuedAfter(c, t, more, j);
  }
}
