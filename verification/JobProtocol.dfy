/**
 The life of a transcription job as a transition system.  One step is one field
 write of the shared Job record or one read of it, one operation on the store's
 map, one channel operation, one clock reading or one external call.  Submit handlers, workers, the TTL sweeper and
 pollers interleave freely; memory is sequentially consistent, and job IDs are
 fresh, so a job's ID is its position in the order of submission.
 */
module JobProtocol {
  import opened Wrappers

  type JobId = nat

  datatype Status = Queued | Processing | Done | Failed {
    predicate Terminal() { Done? || Failed? }
  }

  datatype Extraction = Extraction(price: string, place: string, category: string, date: string)

  datatype JobResult = JobResult(transcription: string, extraction: Option<Extraction>)

  /** The fields of Job that change after it is created. */
  datatype Record = Record(status: Status, holdsAudio: bool, result: Option<JobResult>, error: string, updatedAt: real)

  function Created(now: real): Record {
    Record(Queued, true, None, "", now)
  }

  const QUEUE_FULL := "queue full, try again later"

  /** ttl is how long ended jobs are kept. */
  datatype Config = Config(capacity: nat, workers: nat, ttl: real, llm: bool, sheets: bool)

  // ---- Workers ----

  /** What Transcribe returned: text, or an error message. */
  datatype Heard = Heard(text: string) | Unheard(message: string)

  /** What ExtractWithRetry returned. */
  datatype Extracted = Extracted(extraction: Extraction) | Unextracted(message: string)

  /** The next thing processJob does.  Setting UpdatedAt takes two steps: read the clock, then write. */
  datatype Pc =
    | MarkProcessing
    | ClockProcessing
    | StampProcessing(at: real)
    | SaveProcessing
    | AwaitTranscript
    | DropAudio(heard: Heard)
    | ClockTranscript(heard: Heard)
    | StampTranscript(heard: Heard, at: real)
    | FailTranscript(message: string)
    | NoteTranscript(message: string)
    | KeepTranscript(text: string)
    | AwaitExtraction
    | FailExtraction(message: string)
    | NoteExtraction(message: string)
    | ClockFailure
    | StampFailure(at: real)
    | KeepExtraction(extraction: Extraction)
    | AwaitExport
    | MarkDone
    | ClockDone
    | StampDone(at: real)
    | FinalSave
    | Returned
  {
    predicate Saves() { SaveProcessing? || FinalSave? }

    /** Up to writing the time at which the transcript, or word of its failure, arrived. */
    predicate Listening() {
      || MarkProcessing? || ClockProcessing? || StampProcessing? || SaveProcessing? || AwaitTranscript?
      || DropAudio? || ClockTranscript? || StampTranscript?
    }

    predicate Stamps() { StampProcessing? || StampTranscript? || StampFailure? || StampDone? }
  }

  /** What the outside world supplies to a step: the outcomes of calls. */
  datatype Input = Input(heard: Heard, extracted: Extracted)

  function Instruction(c: Config, pc: Pc, r: Record, now: real, i: Input): (Pc, Record) {
    match pc
    case MarkProcessing => (ClockProcessing, r.(status := Processing))
    case ClockProcessing => (StampProcessing(now), r)
    case StampProcessing(at) => (SaveProcessing, r.(updatedAt := at))
    case SaveProcessing => (AwaitTranscript, r)
    case AwaitTranscript => (DropAudio(i.heard), r)
    case DropAudio(heard) => (ClockTranscript(heard), r.(holdsAudio := false))
    case ClockTranscript(heard) => (StampTranscript(heard, now), r)
    case StampTranscript(heard, at) =>
      (match heard { case Heard(text) => KeepTranscript(text) case Unheard(message) => FailTranscript(message) },
       r.(updatedAt := at))
    case FailTranscript(message) => (NoteTranscript(message), r.(status := Failed))
    case NoteTranscript(message) => (FinalSave, r.(error := message))
    case KeepTranscript(text) =>
      (if c.llm then AwaitExtraction else MarkDone, r.(result := Some(JobResult(text, None))))
    case AwaitExtraction =>
      (match i.extracted { case Extracted(e) => KeepExtraction(e) case Unextracted(m) => FailExtraction(m) }, r)
    case FailExtraction(message) => (NoteExtraction(message), r.(status := Failed))
    case NoteExtraction(message) => (ClockFailure, r.(error := message))
    case ClockFailure => (StampFailure(now), r)
    case StampFailure(at) => (FinalSave, r.(updatedAt := at))
    case KeepExtraction(e) =>
      (if c.sheets then AwaitExport else MarkDone,
       r.(result := match r.result { case Some(jr) => Some(jr.(extraction := Some(e))) case None => None }))
    case AwaitExport => (MarkDone, r)
    case MarkDone => (ClockDone, r.(status := Done))
    case ClockDone => (StampDone(now), r)
    case StampDone(at) => (FinalSave, r.(updatedAt := at))
    case FinalSave => (Returned, r)
    case Returned => (Returned, r)
  }

  datatype Worker = Idle | Busy(job: JobId, pc: Pc) | Exited

  // ---- Handlers ----

  /** The next thing the tail of SubmitJobHandler does for its job. */
  datatype Handler =
    | FirstSave
    | TryEnqueue
    | MarkRefused
    | NoteRefused
    | ClockRefused
    | StampRefused(at: real)
    | SaveRefused
    | Accepted
    | Refused
  {
    predicate Saves() { FirstSave? || SaveRefused? }
    predicate Over() { Accepted? || Refused? }
  }

  // ---- The sweeper, which holds the store's lock throughout ----

  /** What the sweep knows of the job it is looking at; a condemned one is old enough to go. */
  datatype Look = Nowhere | NotDone(id: JobId) | Ended(id: JobId) | Condemned(id: JobId)

  datatype Sweeper = Resting | Sweeping(cutoff: real, todo: set<JobId>, look: Look)

  // ---- Pollers: Get, then the fields in the order JSON encodes them ----

  datatype Seen = Seen(status: Status, result: Option<JobResult>, error: string, updatedAt: real)

  datatype Field = StatusField | ResultField | ExtractionField | ErrorField | UpdatedField

  datatype Poll =
    | Asking(id: JobId)
    | NotFound
    | Reading(id: JobId, next: Field, seen: Seen)
    | Answered(id: JobId, seen: Seen)

  const UNSEEN := Seen(Queued, None, "", 0.0)

  // ---- The whole system ----

  datatype State = State(
    now: real,
    jobs: seq<Record>,
    handlers: seq<Handler>,
    store: set<JobId>,
    queue: seq<JobId>,
    workers: seq<Worker>,
    stopped: bool,
    sweeper: Sweeper,
    polls: map<nat, Poll>,
    accepted: seq<JobId>,   // history: successful enqueues, in order
    received: seq<JobId>,   // history: receives, in order
    finished: seq<JobId>    // history: final saves by workers, in order
  )

  datatype Action =
    | Tick(elapsed: real)
    | Submit(reading: real)
    | Handle(id: JobId)
    | Handoff(id: JobId, w: nat)
    | Receive(w: nat)
    | Exit(w: nat)
    | Work(w: nat, input: Input)
    | Stop
    | SweepBegin(reading: real)
    | SweepLook(id: JobId)
    | SweepJudge
    | SweepEnd
    | PollBegin(p: nat, id: JobId)
    | PollStep(p: nat)

  function Init(c: Config): State {
    State(0.0, [], [], {}, [], seq(c.workers, i => Idle), false, Resting, map[], [], [], [])
  }

  predicate Enabled(c: Config, s: State, a: Action) {
    match a
    case Tick(elapsed) => 0.0 <= elapsed
    case Submit(reading) => reading <= s.now
    case Handle(id) =>
      && id < |s.handlers| && id < |s.jobs| && !s.handlers[id].Over()
      && (s.handlers[id].Saves() ==> s.sweeper.Resting?)
    case Handoff(id, w) =>
      // An unbuffered channel passes a job straight to a worker waiting in its select.
      && c.capacity == 0 && !s.stopped && w < |s.workers| && s.workers[w].Idle?
      && id < |s.handlers| && s.handlers[id].TryEnqueue?
    case Receive(w) => w < |s.workers| && s.workers[w].Idle? && s.queue != []
    case Exit(w) => w < |s.workers| && s.workers[w].Idle? && s.stopped
    case Work(w, i) =>
      && w < |s.workers| && s.workers[w].Busy? && s.workers[w].job < |s.jobs|
      && (s.workers[w].pc.Saves() ==> s.sweeper.Resting?)
    case Stop => !s.stopped
    case SweepBegin(reading) => s.sweeper.Resting? && reading <= s.now
    case SweepLook(id) => s.sweeper.Sweeping? && s.sweeper.look.Nowhere? && id in s.sweeper.todo && id < |s.jobs|
    case SweepJudge =>
      && s.sweeper.Sweeping? && !s.sweeper.look.Nowhere? && s.sweeper.look.id < |s.jobs|
    case SweepEnd => s.sweeper.Sweeping? && s.sweeper.look.Nowhere? && s.sweeper.todo == {}
    case PollBegin(p, id) => p !in s.polls
    case PollStep(p) =>
      && p in s.polls
      && (s.polls[p].Asking? ==> s.sweeper.Resting?)
      && (s.polls[p].Reading? ==> s.polls[p].id < |s.jobs|)
      && !s.polls[p].NotFound? && !s.polls[p].Answered?
  }

  /** One step of the handler of job id.  Enqueue never blocks: a full channel refuses the job. */
  function HandlerStep(c: Config, s: State, id: JobId): State
    requires Enabled(c, s, Handle(id))
  {
    var r := s.jobs[id];
    match s.handlers[id]
    case FirstSave => s.(store := s.store + {id}, handlers := s.handlers[id := TryEnqueue])
    case TryEnqueue =>
      if |s.queue| < c.capacity then
        s.(queue := s.queue + [id], accepted := s.accepted + [id], handlers := s.handlers[id := Accepted])
      else
        s.(handlers := s.handlers[id := MarkRefused])
    case MarkRefused => s.(jobs := s.jobs[id := r.(status := Failed)], handlers := s.handlers[id := NoteRefused])
    case NoteRefused => s.(jobs := s.jobs[id := r.(error := QUEUE_FULL)], handlers := s.handlers[id := ClockRefused])
    case ClockRefused => s.(handlers := s.handlers[id := StampRefused(s.now)])
    case StampRefused(at) => s.(jobs := s.jobs[id := r.(updatedAt := at)], handlers := s.handlers[id := SaveRefused])
    case SaveRefused => s.(store := s.store + {id}, handlers := s.handlers[id := Refused])
    case _ => s
  }

  function WorkerStep(c: Config, s: State, w: nat, i: Input): State
    requires Enabled(c, s, Work(w, i))
  {
    var Busy(id, pc) := s.workers[w];
    var (next, r) := Instruction(c, pc, s.jobs[id], s.now, i);
    var t := s.(jobs := s.jobs[id := r], store := if pc.Saves() then s.store + {id} else s.store);
    if next.Returned? then
      t.(workers := s.workers[w := Idle], finished := s.finished + [id])
    else
      t.(workers := s.workers[w := Busy(id, next)])
  }

  /** The condition of the sweep, two reads of Status and one of UpdatedAt, and then the deletion. */
  function SweeperStep(s: State): State
    requires s.sweeper.Sweeping? && !s.sweeper.look.Nowhere? && s.sweeper.look.id < |s.jobs|
  {
    var r := s.jobs[s.sweeper.look.id];
    match s.sweeper.look
    case NotDone(id) => s.(sweeper := s.sweeper.(look := if r.status.Failed? then Ended(id) else Nowhere))
    case Ended(id) =>
      s.(sweeper := s.sweeper.(look := if r.updatedAt < s.sweeper.cutoff then Condemned(id) else Nowhere))
    case Condemned(id) => s.(sweeper := s.sweeper.(look := Nowhere), store := s.store - {id})
  }

  function PollerStep(s: State, poll: Poll): Poll
    requires poll.Reading? ==> poll.id < |s.jobs|
  {
    match poll
    case Asking(id) => if id in s.store then Reading(id, StatusField, UNSEEN) else NotFound
    case Reading(id, next, seen) => (
      var r := s.jobs[id];
      match next
      case StatusField => Reading(id, ResultField, seen.(status := r.status))
      case ResultField =>
        Reading(id, ExtractionField,
                seen.(result := match r.result { case Some(jr) => Some(jr.(extraction := None)) case None => None }))
      case ExtractionField =>
        // The pointer read before leads to the one JobResult the job ever has.
        Reading(id, ErrorField, if seen.result.Some? then seen.(result := r.result) else seen)
      case ErrorField => Reading(id, UpdatedField, seen.(error := r.error))
      case UpdatedField => Answered(id, seen.(updatedAt := r.updatedAt)))
    case _ => poll
  }

  function Apply(c: Config, s: State, a: Action): State
    requires Enabled(c, s, a)
  {
    match a
    case Tick(elapsed) => s.(now := s.now + elapsed)
    case Submit(reading) => s.(jobs := s.jobs + [Created(reading)], handlers := s.handlers + [FirstSave])
    case Handle(id) => HandlerStep(c, s, id)
    case Handoff(id, w) =>
      s.(handlers := s.handlers[id := Accepted], accepted := s.accepted + [id],
         received := s.received + [id], workers := s.workers[w := Busy(id, MarkProcessing)])
    case Receive(w) =>
      s.(queue := s.queue[1..], received := s.received + [s.queue[0]],
         workers := s.workers[w := Busy(s.queue[0], MarkProcessing)])
    case Exit(w) => s.(workers := s.workers[w := Exited])
    case Work(w, i) => WorkerStep(c, s, w, i)
    case Stop => s.(stopped := true)
    case SweepBegin(reading) => s.(sweeper := Sweeping(reading - c.ttl, s.store, Nowhere))
    case SweepLook(id) =>
      s.(sweeper := s.sweeper.(todo := s.sweeper.todo - {id},
                               look := if s.jobs[id].status.Done? then Ended(id) else NotDone(id)))
    case SweepJudge => SweeperStep(s)
    case SweepEnd => s.(sweeper := Resting)
    case PollBegin(p, id) => s.(polls := s.polls[p := Asking(id)])
    case PollStep(p) => s.(polls := s.polls[p := PollerStep(s, s.polls[p])])
  }

  // ---- Runs ----

  predicate Legal(c: Config, s: State, acts: seq<Action>)
    decreases |acts|
  {
    acts == [] || (Enabled(c, s, acts[0]) && Legal(c, Apply(c, s, acts[0]), acts[1..]))
  }

  function After(c: Config, s: State, acts: seq<Action>): State
    requires Legal(c, s, acts)
    decreases |acts|
  {
    if acts == [] then s else After(c, Apply(c, s, acts[0]), acts[1..])
  }

  lemma AfterCons(c: Config, s: State, a: Action, rest: seq<Action>)
    requires Enabled(c, s, a) && Legal(c, Apply(c, s, a), rest)
    ensures Legal(c, s, [a] + rest) && After(c, s, [a] + rest) == After(c, Apply(c, s, a), rest)
  {
    assert ([a] + rest)[0] == a && ([a] + rest)[1..] == rest;
  }

  lemma {:induction false} AfterConcat(c: Config, s: State, a: seq<Action>, b: seq<Action>)
    requires Legal(c, s, a) && Legal(c, After(c, s, a), b)
    ensures Legal(c, s, a + b) && After(c, s, a + b) == After(c, After(c, s, a), b)
    decreases |a|
  {
    if a == [] {
      assert a + b == b;
    } else {
      assert (a + b)[0] == a[0] && (a + b)[1..] == a[1..] + b;
      AfterConcat(c, Apply(c, s, a[0]), a[1..], b);
    }
  }
}
