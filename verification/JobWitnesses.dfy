/**
 Runs that show what the job protocol does not promise, for every configuration.
 All of them start by filling the channel and having one more job refused.
 */
module JobWitnesses {
  import opened Wrappers
  import opened JobProtocol
  import opened JobInvariant
  import opened JobTheorems
  import opened JobAnswers

  lemma Do(c: Config, acts: seq<Action>, s: State, a: Action) returns (acts': seq<Action>, t: State)
    requires Reached(c, acts, s) && Enabled(c, s, a)
    ensures Reached(c, acts', t) && t == Apply(c, s, a)
  {
    hide Apply, Enabled;
    t := Apply(c, s, a);
    AfterCons(c, s, a, []);
    assert [a] + [] == [a];
    AfterConcat(c, Init(c), acts, [a]);
    acts' := acts + [a];
  }

  // ---- A full channel ----

  ghost function Below(k: nat): set<JobId> {
    if k == 0 then {} else Below(k - 1) + {k - 1}
  }

  /** The state after k jobs were accepted at time 0 and nothing else happened. */
  ghost function Filled(c: Config, k: nat): State {
    State(0.0, seq(k, i => Created(0.0)), seq(k, i => Accepted), Below(k), seq(k, i => i),
          seq(c.workers, i => Idle), false, Resting, map[], seq(k, i => i), [], [])
  }

  lemma {:induction false} Fill(c: Config, k: nat) returns (acts: seq<Action>)
    requires k <= c.capacity
    ensures Reached(c, acts, Filled(c, k))
  {
    var s, t;
    if k == 0 {
      acts, s := [], Init(c);
    } else {
      acts := Fill(c, k - 1);
      acts, s := Do(c, acts, Filled(c, k - 1), Submit(0.0));
      acts, s := Do(c, acts, s, Handle(k - 1));
      acts, s := Do(c, acts, s, Handle(k - 1));
    }
    t := Filled(c, k);
    assert s.jobs == t.jobs && s.handlers == t.handlers && s.store == t.store && s.queue == t.queue;
    assert s.accepted == t.accepted;
  }

  /** A job created at time 0 has just been turned away: its handler is about to mark it failed. */
  ghost predicate TurnedAway(s: State, j: JobId) {
    && j < |s.jobs| && j < |s.handlers| && s.handlers[j].MarkRefused? && s.jobs[j] == Created(0.0)
    && j in s.store && s.sweeper.Resting? && s.polls == map[] && s.now == 0.0
  }

  lemma TurnAway(c: Config) returns (acts: seq<Action>, s: State, j: JobId)
    ensures Reached(c, acts, s) && TurnedAway(s, j)
  {
    j := c.capacity;
    acts := Fill(c, j);
    acts, s := Do(c, acts, Filled(c, j), Submit(0.0));
    acts, s := Do(c, acts, s, Handle(j));
    acts, s := Do(c, acts, s, Handle(j));
  }

  // ---- Failed, but no error yet ----

  /** In every configuration a poll can answer "failed" without an error, of a job whose error is written only then. */
  lemma FailedPollMayLackError(c: Config) returns (acts: seq<Action>, s: State, next: Action)
    ensures Reached(c, acts, s) && 0 in s.polls && s.polls[0].Answered?
    ensures s.polls[0].seen.status.Failed? && s.polls[0].seen.error == ""
    ensures Enabled(c, s, next) && s.polls[0].id < |Apply(c, s, next).jobs|
    ensures Apply(c, s, next).jobs[s.polls[0].id].error == QUEUE_FULL != ""
  {
    var j;
    acts, s, j := TurnAway(c);
    acts, s := Do(c, acts, s, Handle(j));
    assert s.jobs[j] == Created(0.0).(status := Failed) && s.handlers[j].NoteRefused?;
    next := Handle(j);
    hide Apply, Enabled;
    PollAlone(c, acts, s, 0, j);
    AfterConcat(c, Init(c), acts, WholePoll(0, j));
    acts, s := acts + WholePoll(0, j), After(c, s, WholePoll(0, j));
    HandleNotes(c, s, j);
  }

  lemma HandleNotes(c: Config, s: State, j: JobId)
    requires j < |s.jobs| && j < |s.handlers| && s.handlers[j].NoteRefused?
    ensures Enabled(c, s, Handle(j)) && j < |Apply(c, s, Handle(j)).jobs|
    ensures Apply(c, s, Handle(j)).jobs[j].error == QUEUE_FULL
  {
  }

  // ---- Gone before its time ----

  /** Some run has a sweep remove a job that is not past its TTL. */
  ghost predicate CanLeaveUndue(c: Config) {
    exists acts, s, a, j :: Reached(c, acts, s) && LeavesUndue(c, s, a, j)
  }

  ghost predicate LeavesUndue(c: Config, s: State, a: Action, j: JobId) {
    && Enabled(c, s, a) && j in s.store && j !in Apply(c, s, a).store
    && j < |s.jobs| && !(s.jobs[j].updatedAt + c.ttl < s.now)
  }

  /** The sweep condemns a job between the writing of its status and of its time. */
  lemma Condemn(c: Config) returns (acts: seq<Action>, s: State, j: JobId)
    requires 0.0 <= c.ttl
    ensures Reached(c, acts, s) && j < |s.jobs| && j < |s.handlers| && s.handlers[j].NoteRefused? && j in s.store
    ensures s.sweeper.Sweeping? && s.sweeper.look == Condemned(j)
  {
    acts, s, j := TurnAway(c);
    acts, s := Do(c, acts, s, Handle(j));
    acts, s := Do(c, acts, s, Tick(c.ttl + 1.0));
    acts, s := Do(c, acts, s, SweepBegin(c.ttl + 1.0));
    acts, s := Do(c, acts, s, SweepLook(j));
    acts, s := Do(c, acts, s, SweepJudge);
    acts, s := Do(c, acts, s, SweepJudge);
  }

  lemma UndueJobLeaves(c: Config)
    requires 0.0 <= c.ttl
    ensures CanLeaveUndue(c)
  {
    var acts, s, j := Condemn(c);
    acts, s := Do(c, acts, s, Handle(j));
    acts, s := Do(c, acts, s, Handle(j));
    acts, s := Do(c, acts, s, Handle(j));
    assert s.jobs[j].updatedAt == s.now && s.sweeper.look == Condemned(j);
    assert LeavesUndue(c, s, SweepJudge, j);
  }

  /** The sweep's read of the time and its deletion are two steps: a job stamped in between leaves before it is due. */
  lemma UndueJobLeavesExactly(c: Config)
    ensures CanLeaveUndue(c) <==> 0.0 <= c.ttl
  {
    if 0.0 <= c.ttl {
      UndueJobLeaves(c);
    } else {
      forall acts, s, a, j | Reached(c, acts, s) ensures !LeavesUndue(c, s, a, j) {
        ReachedInv(c, acts, s);
      }
    }
  }
}
