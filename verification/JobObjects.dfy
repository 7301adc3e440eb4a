/**
 The queue, the store and processJob as the gateway writes them: a shared Job
 record updated in place, a map of jobs, a bounded channel.  Each method is the
 undisturbed execution of steps of the protocol, and the lemmas say so.
 */
module JobObjects {
  import opened Wrappers
  import opened JobProtocol
  import opened JobInvariant
  import opened JobTheorems

  class Job {
    const id: JobId
    var status: Status
    var holdsAudio: bool
    var result: Option<JobResult>
    var error: string
    var updatedAt: real

    constructor (id: JobId, now: real)
      ensures this.id == id && status == Queued && holdsAudio && result == None && error == "" && updatedAt == now
      ensures View() == Created(now)
    {
      this.id := id;
      status, holdsAudio, result, error, updatedAt := Queued, true, None, "", now;
    }

    ghost function View(): Record
      reads this
    {
      Record(status, holdsAudio, result, error, updatedAt)
    }
  }

  /** What the sweep removes. */
  predicate Expired(r: Record, cutoff: real) {
    r.status.Terminal() && r.updatedAt < cutoff
  }

  class JobStore {
    var jobs: map<JobId, Job>
    const ttl: real

    ghost predicate Valid()
      reads this
    {
      forall id :: id in jobs ==> jobs[id].id == id
    }

    constructor (ttl: real)
      ensures Valid() && jobs == map[] && this.ttl == ttl
    {
      this.jobs, this.ttl := map[], ttl;
    }

    method Save(job: Job)
      requires Valid()
      modifies this
      ensures Valid() && jobs == old(jobs)[job.id := job]
    {
      jobs := jobs[job.id := job];
    }

    method Get(id: JobId) returns (job: Job?, ok: bool)
      requires Valid()
      ensures ok <==> id in jobs
      ensures if ok then job == jobs[id] && jobs[id].id == id else job == null
    {
      if id in jobs {
        return jobs[id], true;
      }
      return null, false;
    }

    method Delete(id: JobId)
      requires Valid()
      modifies this
      ensures Valid() && jobs == old(jobs) - {id}
    {
      jobs := jobs - {id};
    }

    /** One tick of StartCleanup. */
    method Sweep(reading: real)
      requires Valid()
      modifies this
      ensures Valid()
      ensures forall id :: id in jobs <==>
                && id in old(jobs)
                && !((old(jobs[id].status) == Done || old(jobs[id].status) == Failed)
                     && old(jobs[id].updatedAt) < reading - ttl)
      ensures jobs == map id | id in old(jobs) && !Expired(old(jobs[id].View()), reading - ttl) :: old(jobs)[id]
    {
      var cutoff := reading - ttl;
      var all := jobs;
      var todo := jobs.Keys;
      while todo != {}
        invariant todo <= all.Keys && jobs.Keys <= all.Keys
        invariant forall id :: id in jobs ==> jobs[id] == all[id]
        invariant forall id :: id in all ==> (id in jobs <==> id in todo || !Expired(all[id].View(), cutoff))
        decreases todo
      {
        var id :| id in todo;
        todo := todo - {id};
        var job := jobs[id];
        if (job.status == Done || job.status == Failed) && job.updatedAt < cutoff {
          jobs := jobs - {id};
        }
      }
    }
  }

  class JobQueue {
    var jobs: seq<Job>
    const c: Config
    const store: JobStore

    constructor (c: Config, store: JobStore)
      ensures jobs == [] && this.c == c && this.store == store
    {
      jobs, this.c, this.store := [], c, store;
    }

    /** Never blocks: a full channel refuses the job. */
    method Enqueue(job: Job) returns (ok: bool)
      modifies this
      ensures ok <==> |old(jobs)| < c.capacity
      ensures jobs == if ok then old(jobs) + [job] else old(jobs)
    {
      if |jobs| < c.capacity {
        jobs := jobs + [job];
        return true;
      }
      return false;
    }

    /** The tail of SubmitJobHandler; see HandlerAlone. */
    method Submit(job: Job, stamp: real) returns (ok: bool)
      requires store.Valid()
      modifies this, store, job
      ensures store.Valid() && store.jobs == old(store.jobs)[job.id := job]
      ensures ok <==> |old(jobs)| < c.capacity
      ensures jobs == if ok then old(jobs) + [job] else old(jobs)
      ensures !ok ==> job.status == Failed && job.error == "queue full, try again later" && job.updatedAt == stamp
      ensures job.View() == if ok then old(job.View()) else RefusedRecord(old(job.View()), stamp)
    {
      store.Save(job);
      ok := Enqueue(job);
      if !ok {
        job.status := Failed;
        job.error := QUEUE_FULL;
        job.updatedAt := stamp;
        store.Save(job);
      }
    }

    method ProcessJob(job: Job, day: Day)
      requires store.Valid()
      modifies store, job
      ensures store.Valid() && store.jobs == old(store.jobs)[job.id := job]
      ensures job.View() == Finish(c, MarkProcessing, old(job.View()), day)
    {
      ghost var r := job.View();
      job.status := Processing;
      job.updatedAt := day.started;
      store.Save(job);
      job.holdsAudio := false;
      job.updatedAt := day.transcribed;
      Unfold(c, r, day);
      if day.heard.Unheard? {
        job.status := Failed;
        job.error := day.heard.message;
        store.Save(job);
        return;
      }
      job.result := Some(JobResult(day.heard.text, None));
      if c.llm {
        if day.extracted.Unextracted? {
          job.status := Failed;
          job.error := day.extracted.message;
          job.updatedAt := day.ended;
          store.Save(job);
          return;
        }
        job.result := Some(job.result.value.(extraction := Some(day.extracted.extraction)));
      }
      job.status := Done;
      job.updatedAt := day.ended;
      store.Save(job);
    }
  }

  function RefusedRecord(r: Record, stamp: real): Record {
    r.(status := Failed, error := QUEUE_FULL, updatedAt := stamp)
  }

  // ---- A handler undisturbed ----

  /** The state a submission leaves if nobody else acts: accepted with the record untouched, or refused. */
  ghost function Submitted(c: Config, s: State, id: JobId): State
    requires id < |s.jobs| && id < |s.handlers|
  {
    if |s.queue| < c.capacity then
      s.(store := s.store + {id}, queue := s.queue + [id], accepted := s.accepted + [id],
         handlers := s.handlers[id := Accepted])
    else
      s.(store := s.store + {id}, jobs := s.jobs[id := RefusedRecord(s.jobs[id], s.now)],
         handlers := s.handlers[id := Refused])
  }

  ghost function Steps(id: JobId, n: nat): seq<Action> {
    if n == 0 then [] else [Handle(id)] + Steps(id, n - 1)
  }

  /** Two undisturbed steps of a handler, or seven if the channel is full, amount to one call of Submit. */
  lemma HandlerAlone(c: Config, s: State, id: JobId)
    requires id < |s.jobs| && id < |s.handlers| && s.handlers[id].FirstSave? && s.sweeper.Resting?
    ensures var acts := Steps(id, if |s.queue| < c.capacity then 2 else 7);
            Legal(c, s, acts) && After(c, s, acts) == Submitted(c, s, id)
  {
    var h := Handle(id);
    var s1 := Apply(c, s, h);
    var s2 := Apply(c, s1, h);
    hide Legal, After, Steps;
    NoSteps(c, s2, id);
    if |s.queue| >= c.capacity {
      assert s2 == s.(store := s.store + {id}, handlers := s.handlers[id := MarkRefused]);
      RefusalAlone(c, s2, id);
      OneMoreStep(c, s1, id, 5);
      OneMoreStep(c, s, id, 6);
    } else {
      OneMoreStep(c, s1, id, 0);
      OneMoreStep(c, s, id, 1);
    }
  }

  lemma NoSteps(c: Config, s: State, id: JobId)
    ensures Legal(c, s, Steps(id, 0)) && After(c, s, Steps(id, 0)) == s
  {
  }

  lemma OneMoreStep(c: Config, s: State, id: JobId, n: nat)
    requires Enabled(c, s, Handle(id)) && Legal(c, Apply(c, s, Handle(id)), Steps(id, n))
    ensures Legal(c, s, Steps(id, n + 1))
    ensures After(c, s, Steps(id, n + 1)) == After(c, Apply(c, s, Handle(id)), Steps(id, n))
  {
    AfterCons(c, s, Handle(id), Steps(id, n));
  }

  lemma RefusalAlone(c: Config, s: State, id: JobId)
    requires id < |s.jobs| && id < |s.handlers| && s.handlers[id].MarkRefused? && s.sweeper.Resting?
    ensures Legal(c, s, Steps(id, 5))
    ensures After(c, s, Steps(id, 5))
         == s.(store := s.store + {id}, jobs := s.jobs[id := RefusedRecord(s.jobs[id], s.now)],
               handlers := s.handlers[id := Refused])
  {
    hide Legal, After, Steps;
    var h, r := Handle(id), s.jobs[id];
    var failed := r.(status := Failed, error := QUEUE_FULL);
    var s1 := Refusing(s, id, r.(status := Failed), NoteRefused);
    var s2 := Refusing(s, id, failed, ClockRefused);
    var s3 := Refusing(s, id, failed, StampRefused(s.now));
    var s4 := Refusing(s, id, RefusedRecord(r, s.now), SaveRefused);
    var s5 := Refusing(s, id, RefusedRecord(r, s.now), Refused).(store := s.store + {id});
    assert Apply(c, s, h) == s1 && Apply(c, s1, h) == s2 && Apply(c, s2, h) == s3;
    assert Apply(c, s3, h) == s4 && Apply(c, s4, h) == s5;
    NoSteps(c, s5, id);
    OneMoreStep(c, s4, id, 0);
    OneMoreStep(c, s3, id, 1);
    OneMoreStep(c, s2, id, 2);
    OneMoreStep(c, s1, id, 3);
    OneMoreStep(c, s, id, 4);
  }

  ghost function Refusing(s: State, id: JobId, r: Record, h: Handler): State
    requires id < |s.jobs| && id < |s.handlers|
  {
    s.(jobs := s.jobs[id := r], handlers := s.handlers[id := h])
  }

  // ---- A worker undisturbed ----

  /** Everything the outside world does to one call of processJob. */
  datatype Day = Day(started: real, heard: Heard, transcribed: real, extracted: Extracted, ended: real)

  ghost function InputOf(day: Day): Input {
    Input(day.heard, day.extracted)
  }

  /** When a worker that reads its clock as the day says takes its next step. */
  ghost function TimeOf(day: Day, pc: Pc): real {
    match pc
    case MarkProcessing | ClockProcessing | StampProcessing(_) | SaveProcessing => day.started
    case AwaitTranscript | DropAudio(_) | ClockTranscript(_) | StampTranscript(_, _) => day.transcribed
    case _ => day.ended
  }

  /** The record processJob leaves when nobody else writes it. */
  ghost function Finish(c: Config, pc: Pc, r: Record, day: Day): Record
    decreases PcRank(pc)
  {
    if pc.Returned? then r else
    InstructionRank(c, pc, r, TimeOf(day, pc), InputOf(day));
    var (next, q) := Instruction(c, pc, r, TimeOf(day, pc), InputOf(day));
    Finish(c, next, q, day)
  }

  /** Finish, spelled out branch by branch. */
  lemma Unfold(c: Config, r: Record, day: Day)
    ensures Finish(c, MarkProcessing, r, day) ==
      var heard := r.(holdsAudio := false, updatedAt := day.transcribed);
      match day.heard
      case Unheard(message) => heard.(status := Failed, error := message)
      case Heard(text) =>
        if !c.llm then heard.(status := Done, result := Some(JobResult(text, None)), updatedAt := day.ended)
        else match day.extracted
          case Unextracted(message) =>
            heard.(status := Failed, result := Some(JobResult(text, None)), error := message, updatedAt := day.ended)
          case Extracted(e) =>
            heard.(status := Done, result := Some(JobResult(text, Some(e))), updatedAt := day.ended)
  {
    var q := r.(status := Processing, updatedAt := day.started);
    var h := q.(holdsAudio := false, updatedAt := day.transcribed);
    TranscriptArrives(c, r, q, h, day);
    hide Instruction;
    match day.heard
    case Unheard(message) => TranscriptFails(c, h, message, day);
    case Heard(text) => TranscriptKept(c, h, text, day);
  }

  lemma TranscriptArrives(c: Config, r: Record, q: Record, h: Record, day: Day)
    requires q == r.(status := Processing, updatedAt := day.started)
    requires h == q.(holdsAudio := false, updatedAt := day.transcribed)
    ensures Finish(c, MarkProcessing, r, day) == Finish(c, Transcribed(day.heard), h, day)
  {
    var p := r.(status := Processing);
    assert Finish(c, MarkProcessing, r, day) == Finish(c, ClockProcessing, p, day)
        == Finish(c, StampProcessing(day.started), p, day) == Finish(c, SaveProcessing, q, day);
    assert Finish(c, SaveProcessing, q, day) == Finish(c, AwaitTranscript, q, day)
        == Finish(c, DropAudio(day.heard), q, day);
    var silent := q.(holdsAudio := false);
    assert Finish(c, DropAudio(day.heard), q, day) == Finish(c, ClockTranscript(day.heard), silent, day)
        == Finish(c, StampTranscript(day.heard, day.transcribed), silent, day);
  }

  ghost function Transcribed(heard: Heard): Pc {
    match heard
    case Heard(text) => KeepTranscript(text)
    case Unheard(message) => FailTranscript(message)
  }

  lemma TranscriptFails(c: Config, h: Record, message: string, day: Day)
    ensures Finish(c, FailTranscript(message), h, day) == h.(status := Failed, error := message)
  {
    assert Finish(c, FailTranscript(message), h, day)
        == Finish(c, NoteTranscript(message), h.(status := Failed), day)
        == Finish(c, FinalSave, h.(status := Failed, error := message), day);
    FinalSaveFinishes(c, h.(status := Failed, error := message), day);
  }

  lemma TranscriptKept(c: Config, h: Record, text: string, day: Day)
    ensures Finish(c, KeepTranscript(text), h, day) ==
      var k := h.(result := Some(JobResult(text, None)));
      if !c.llm then k.(status := Done, updatedAt := day.ended)
      else match day.extracted
        case Unextracted(message) => k.(status := Failed, error := message, updatedAt := day.ended)
        case Extracted(e) => k.(status := Done, result := Some(JobResult(text, Some(e))), updatedAt := day.ended)
  {
    var k := h.(result := Some(JobResult(text, None)));
    if !c.llm {
      assert Finish(c, KeepTranscript(text), h, day) == Finish(c, MarkDone, k, day);
      MarkDoneFinishes(c, k, day);
    } else {
      assert Finish(c, KeepTranscript(text), h, day) == Finish(c, AwaitExtraction, k, day);
      match day.extracted
      case Unextracted(message) =>
        assert Finish(c, AwaitExtraction, k, day) == Finish(c, FailExtraction(message), k, day);
        ExtractionFails(c, k, message, day);
      case Extracted(e) =>
        var x := k.(result := Some(JobResult(text, Some(e))));
        assert Finish(c, AwaitExtraction, k, day) == Finish(c, KeepExtraction(e), k, day)
            == Finish(c, if c.sheets then AwaitExport else MarkDone, x, day);
        MarkDoneFinishes(c, x, day);
    }
  }

  lemma ExtractionFails(c: Config, k: Record, message: string, day: Day)
    ensures Finish(c, FailExtraction(message), k, day)
         == k.(status := Failed, error := message, updatedAt := day.ended)
  {
    var f := k.(status := Failed, error := message);
    assert Finish(c, FailExtraction(message), k, day) == Finish(c, NoteExtraction(message), k.(status := Failed), day)
        == Finish(c, ClockFailure, f, day) == Finish(c, StampFailure(day.ended), f, day)
        == Finish(c, FinalSave, f.(updatedAt := day.ended), day);
    FinalSaveFinishes(c, f.(updatedAt := day.ended), day);
  }

  lemma FinalSaveFinishes(c: Config, r: Record, day: Day)
    ensures Finish(c, FinalSave, r, day) == r
  {
    assert Finish(c, Returned, r, day) == r;
  }

  lemma MarkDoneFinishes(c: Config, r: Record, day: Day)
    ensures Finish(c, MarkDone, r, day) == Finish(c, AwaitExport, r, day) == r.(status := Done, updatedAt := day.ended)
  {
    var d := r.(status := Done);
    assert Finish(c, MarkDone, r, day) == Finish(c, ClockDone, d, day) == Finish(c, StampDone(day.ended), d, day)
        == Finish(c, FinalSave, d.(updatedAt := day.ended), day);
    FinalSaveFinishes(c, d.(updatedAt := day.ended), day);
  }

  ghost function Next(c: Config, pc: Pc, day: Day): Pc {
    Instruction(c, pc, Created(0.0), TimeOf(day, pc), InputOf(day)).0
  }

  /** The worker's steps from pc to its final save, with time passing as the day says. */
  ghost function Shift(c: Config, w: nat, pc: Pc, day: Day, now: real): seq<Action>
    decreases PcRank(pc)
  {
    if pc.Returned? then [] else
    InstructionRank(c, pc, Created(0.0), TimeOf(day, pc), InputOf(day));
    [Tick(TimeOf(day, pc) - now)] + ([Work(w, InputOf(day))] + Shift(c, w, Next(c, pc, day), day, TimeOf(day, pc)))
  }

  /** What is left when the worker is done. */
  ghost function Worked(c: Config, s: State, w: nat, j: JobId, pc: Pc, day: Day): State
    requires w < |s.workers| && j < |s.jobs|
  {
    s.(now := day.ended, jobs := s.jobs[j := Finish(c, pc, s.jobs[j], day)], store := s.store + {j},
       workers := s.workers[w := Idle], finished := s.finished + [j])
  }

  /** Steps of a worker with nothing else happening but time passing amount to one call of ProcessJob. */
  lemma {:induction false} WorkerAlone(c: Config, s: State, w: nat, j: JobId, pc: Pc, day: Day)
    requires w < |s.workers| && s.workers[w] == Busy(j, pc) && !pc.Returned? && j < |s.jobs| && s.sweeper.Resting?
    requires s.now <= TimeOf(day, pc) && day.started <= day.transcribed <= day.ended
    ensures Legal(c, s, Shift(c, w, pc, day, s.now))
    ensures After(c, s, Shift(c, w, pc, day, s.now)) == Worked(c, s, w, j, pc, day)
    decreases PcRank(pc)
  {
    hide Instruction, Legal, After, Finish;
    InstructionRank(c, pc, s.jobs[j], TimeOf(day, pc), InputOf(day));
    NextIsNext(c, pc, s.jobs[j], day);
    var next := Next(c, pc, day);
    var t := OneShiftStep(c, s, w, j, pc, day);
    var rest := Shift(c, w, next, day, TimeOf(day, pc));
    if next.Returned? {
      LastStep(c, s, t, w, j, pc, day);
    } else {
      WorkerAlone(c, t, w, j, next, day);
    }
    ShiftCons(c, s, w, pc, day, rest);
  }

  /** One step of the worker when its time has come. */
  lemma OneShiftStep(c: Config, s: State, w: nat, j: JobId, pc: Pc, day: Day) returns (t: State)
    requires w < |s.workers| && s.workers[w] == Busy(j, pc) && !pc.Returned? && j < |s.jobs| && s.sweeper.Resting?
    requires s.now <= TimeOf(day, pc) && day.started <= day.transcribed <= day.ended
    ensures var later := s.(now := TimeOf(day, pc));
            Enabled(c, s, Tick(TimeOf(day, pc) - s.now)) && Apply(c, s, Tick(TimeOf(day, pc) - s.now)) == later
            && Enabled(c, later, Work(w, InputOf(day))) && t == Apply(c, later, Work(w, InputOf(day)))
    ensures t.now == TimeOf(day, pc) && t.sweeper.Resting? && |t.jobs| == |s.jobs| && |t.workers| == |s.workers|
    ensures var next := Instruction(c, pc, s.jobs[j], TimeOf(day, pc), InputOf(day)).0;
            if next.Returned? then
              t == s.(now := TimeOf(day, pc), store := s.store + {j}, workers := s.workers[w := Idle],
                      finished := s.finished + [j])
              && pc.FinalSave?
            else
              && t.workers[w] == Busy(j, next) && Worked(c, t, w, j, next, day) == Worked(c, s, w, j, pc, day)
  {
    var later := s.(now := TimeOf(day, pc));
    t := Apply(c, later, Work(w, InputOf(day)));
    var (next, q) := Instruction(c, pc, s.jobs[j], TimeOf(day, pc), InputOf(day));
    if !next.Returned? {
      assert Finish(c, pc, s.jobs[j], day) == Finish(c, next, q, day);
      hide Instruction, Finish;
      assert t.jobs == s.jobs[j := q] && t.workers == s.workers[w := Busy(j, next)];
      var f := Finish(c, next, q, day);
      assert t.jobs[j := f] == s.jobs[j := f] && t.workers[w := Idle] == s.workers[w := Idle];
      assert t.store + {j} == s.store + {j};
    } else {
      assert s.jobs[j := s.jobs[j]] == s.jobs;
    }
  }

  lemma LastStep(c: Config, s: State, t: State, w: nat, j: JobId, pc: Pc, day: Day)
    requires w < |s.workers| && j < |s.jobs| && pc.FinalSave?
    requires t == s.(now := day.ended, store := s.store + {j}, workers := s.workers[w := Idle],
                     finished := s.finished + [j])
    ensures Next(c, pc, day).Returned? && Legal(c, t, []) && After(c, t, []) == Worked(c, s, w, j, pc, day)
  {
    FinalSaveFinishes(c, s.jobs[j], day);
    assert s.jobs[j := s.jobs[j]] == s.jobs;
  }

  /** Which instruction comes next does not depend on the record, and never comes earlier. */
  lemma NextIsNext(c: Config, pc: Pc, r: Record, day: Day)
    requires day.started <= day.transcribed <= day.ended
    ensures Next(c, pc, day) == Instruction(c, pc, r, TimeOf(day, pc), InputOf(day)).0
    ensures TimeOf(day, pc) <= TimeOf(day, Next(c, pc, day))
  {
  }

  lemma ShiftCons(c: Config, s: State, w: nat, pc: Pc, day: Day, rest: seq<Action>)
    requires !pc.Returned? && rest == Shift(c, w, Next(c, pc, day), day, TimeOf(day, pc))
    requires Enabled(c, s, Tick(TimeOf(day, pc) - s.now))
    requires Enabled(c, Apply(c, s, Tick(TimeOf(day, pc) - s.now)), Work(w, InputOf(day)))
    requires Legal(c, Apply(c, Apply(c, s, Tick(TimeOf(day, pc) - s.now)), Work(w, InputOf(day))), rest)
    ensures Legal(c, s, Shift(c, w, pc, day, s.now))
    ensures After(c, s, Shift(c, w, pc, day, s.now))
         == After(c, Apply(c, Apply(c, s, Tick(TimeOf(day, pc) - s.now)), Work(w, InputOf(day))), rest)
  {
    hide Instruction, Apply, Enabled;
    var tick, work := Tick(TimeOf(day, pc) - s.now), Work(w, InputOf(day));
    AfterCons(c, Apply(c, s, tick), work, rest);
    AfterCons(c, s, tick, [work] + rest);
  }

  // ---- A sweep undisturbed ----

  /** What is left to delete while sweeping: expired jobs not yet looked at, or being looked at. */
  ghost function Doomed(s: State): set<JobId>
    requires s.sweeper.Sweeping?
  {
    set id | id in s.store && id < |s.jobs| && Expired(s.jobs[id], s.sweeper.cutoff)
             && (id in s.sweeper.todo || (!s.sweeper.look.Nowhere? && s.sweeper.look.id == id))
  }

  /** What a sweep knows about the job it is looking at. */
  ghost predicate LooksRight(s: State) {
    s.sweeper.Sweeping? ==>
      match s.sweeper.look
      case Nowhere => true
      case NotDone(id) => id < |s.jobs| && !s.jobs[id].status.Done?
      case Ended(id) => id < |s.jobs| && s.jobs[id].status.Terminal()
      case Condemned(id) => id < |s.jobs| && Expired(s.jobs[id], s.sweeper.cutoff)
  }

  /** Steps of one sweep after its beginning. */
  ghost predicate OnlySweeps(acts: seq<Action>) {
    forall i :: 0 <= i < |acts| ==> Sweeps(acts[i]) && !acts[i].SweepBegin?
  }

  lemma NothingToSweep(c: Config, s: State, acts: seq<Action>)
    requires s.sweeper.Resting? && Legal(c, s, acts) && OnlySweeps(acts)
    ensures acts == []
  {
  }

  lemma SweepFate(c: Config, s: State, a: Action)
    requires s.sweeper.Sweeping? && LooksRight(s) && Enabled(c, s, a) && (a.SweepLook? || a.SweepJudge?)
    ensures var t := Apply(c, s, a);
            t.sweeper.Sweeping? && LooksRight(t) && s.store - Doomed(s) == t.store - Doomed(t)
  {
    var t := Apply(c, s, a);
    assert t.jobs == s.jobs && t.sweeper.cutoff == s.sweeper.cutoff;
    forall id ensures id in s.store - Doomed(s) <==> id in t.store - Doomed(t) {
    }
  }

  lemma {:induction false} SweepRest(c: Config, s: State, acts: seq<Action>)
    requires s.sweeper.Sweeping? && LooksRight(s)
    requires Legal(c, s, acts) && OnlySweeps(acts)
    requires After(c, s, acts).sweeper.Resting?
    ensures After(c, s, acts).store == s.store - Doomed(s)
    decreases |acts|
  {
    assert acts != [];
    var a := acts[0];
    var t := Apply(c, s, a);
    if a.SweepEnd? {
      assert t.sweeper.Resting?;
      NothingToSweep(c, t, acts[1..]);
      assert After(c, s, acts) == t;
      assert Doomed(s) == {};
    } else {
      SweepFate(c, s, a);
      SweepRest(c, t, acts[1..]);
    }
  }

  /** An undisturbed sweep deletes exactly the expired jobs, as JobStore.Sweep does. */
  lemma SweepAlone(c: Config, s: State, reading: real, acts: seq<Action>)
    requires forall j :: j in s.store ==> j < |s.jobs|
    requires Enabled(c, s, SweepBegin(reading))
    requires Legal(c, s, [SweepBegin(reading)] + acts) && OnlySweeps(acts)
    requires After(c, s, [SweepBegin(reading)] + acts).sweeper.Resting?
    ensures forall j :: j in After(c, s, [SweepBegin(reading)] + acts).store <==>
              && j in s.store
              && !((s.jobs[j].status == Done || s.jobs[j].status == Failed) && s.jobs[j].updatedAt < reading - c.ttl)
    ensures After(c, s, [SweepBegin(reading)] + acts).store
         == set j | j in s.store && !Expired(s.jobs[j], reading - c.ttl)
  {
    var all := [SweepBegin(reading)] + acts;
    assert all[0] == SweepBegin(reading) && all[1..] == acts;
    var t := Apply(c, s, SweepBegin(reading));
    SweepRest(c, t, acts);
  }
}
