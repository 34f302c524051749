/** The daemon's job scheduler as a protocol.

    Several threads interleave: the tick loop, socket threads calling `start_job` or
    `run_job_now`, and one worker per spawned job. Each action below is one section that
    the program runs without interruption: a non-blocking lock acquire, or a block under
    `_state_lock`. An execution is born when it acquires its job's lock. */
module Scheduler {
  import opened Wrappers

  /** A worker is spawned by `tick` or `start_job`; `run_job_now` runs inline. */
  datatype Kind = Worker | Inline

  datatype Phase = Acquired      // lock taken
                 | Registered    // worker only: stored in `_running`, thread created
                 | Reporting     // live progress entry made, for the extraction job
                 | InBody        // inside the job function
                 | Stored        // outcome stored in `_last_results`
                 | Released      // lock given back
                 | Popped        // entries removed

  datatype Execution = Execution(job: Id, kind: Kind, phase: Phase) {
    predicate Holding() {
      phase in {Acquired, Registered, Reporting, InBody, Stored}
    }

    /** A worker that has been put into `_running` and still holds its lock. */
    predicate RunningWorker() {
      kind == Worker && phase in {Registered, Reporting, InBody, Stored}
    }

    /** A worker between giving back its lock and removing its entries. */
    predicate Straggler() {
      kind == Worker && phase == Released
    }
  }

  /** `locked` maps a taken lock to the execution it was taken for; the program only ever
      asks whether it is taken. */
  datatype State = State(executions: map<nat, Execution>, next: nat, locked: map<Id, nat>,
                         running: map<Id, nat>, progress: map<Id, nat>, results: map<Id, nat>)

  datatype Action = Acquire(job: Id, kind: Kind) | Register(e: nat) | Report(e: nat) | Enter(e: nat)
                  | Store(e: nat) | Release(e: nat) | Pop(e: nat)

  const EXTRACTION: Id := Id("process_extraction_queue")
  const INIT: State := State(map[], 0, map[], map[], map[], map[])

  predicate At(s: State, e: nat, phase: Phase) {
    e in s.executions && s.executions[e].phase == phase
  }

  /** `Acquire` is always possible; when the lock is taken it changes nothing. */
  predicate Enabled(s: State, a: Action) {
    match a
    case Acquire(_, _) => true
    case Register(e) => At(s, e, Acquired) && s.executions[e].kind == Worker
    case Report(e) =>
      if e in s.executions && s.executions[e].kind == Worker then At(s, e, Registered) else At(s, e, Acquired)
    case Enter(e) => At(s, e, Reporting)
    case Store(e) => At(s, e, InBody)
    case Release(e) => At(s, e, Stored)
    case Pop(e) => At(s, e, Released)
  }

  function Move(s: State, e: nat, phase: Phase): State
    requires e in s.executions
  {
    s.(executions := s.executions[e := s.executions[e].(phase := phase)])
  }

  function Step(s: State, a: Action): State
    requires Enabled(s, a)
  {
    match a
    case Acquire(job, kind) =>
      if job in s.locked then s
      else s.(executions := s.executions[s.next := Execution(job, kind, Acquired)], next := s.next + 1,
              locked := s.locked[job := s.next])
    case Register(e) =>
      Move(s, e, Registered).(running := s.running[s.executions[e].job := e])
    case Report(e) =>
      Move(s, e, Reporting).(progress := if s.executions[e].job == EXTRACTION then s.progress[EXTRACTION := e]
                             else s.progress)
    case Enter(e) => Move(s, e, InBody)
    case Store(e) => Move(s, e, Stored).(results := s.results[s.executions[e].job := e])
    case Release(e) => Move(s, e, Released).(locked := s.locked - {s.executions[e].job})
    case Pop(e) =>
      var job := s.executions[e].job;
      Move(s, e, Popped).(
        running := if s.executions[e].kind == Worker then s.running - {job} else s.running,
        progress := s.progress - {job})
  }

  ghost predicate CanRun(s: State, actions: seq<Action>)
    decreases actions
  {
    actions == [] || (Enabled(s, actions[0]) && CanRun(Step(s, actions[0]), actions[1..]))
  }

  ghost function Run(s: State, actions: seq<Action>): State
    requires CanRun(s, actions)
    decreases actions
  {
    if actions == [] then s else Run(Step(s, actions[0]), actions[1..])
  }

  // -------------------------------------------------------------------- safety

  /** A lock is taken for exactly one execution, the one that has not given it back. */
  ghost predicate LocksInv(s: State) {
    && (forall e :: e in s.executions ==> e < s.next)
    && (forall e :: e in s.executions && s.executions[e].Holding() ==>
          s.executions[e].job in s.locked && s.locked[s.executions[e].job] == e)
    && (forall job :: job in s.locked ==>
          s.locked[job] in s.executions && s.executions[s.locked[job]].job == job
            && s.executions[s.locked[job]].Holding())
  }

  /** Every entry belongs to an execution of its job that made it and has not yet removed it. */
  predicate RunningEntry(s: State, job: Id, e: nat) {
    e in s.executions && s.executions[e].job == job && (s.executions[e].RunningWorker() || s.executions[e].Straggler())
  }

  predicate ProgressEntry(s: State, job: Id, e: nat) {
    job == EXTRACTION && e in s.executions && s.executions[e].job == job
    && s.executions[e].phase in {Reporting, InBody, Stored, Released}
  }

  ghost predicate EntriesInv(s: State) {
    && (forall job :: job in s.running ==> RunningEntry(s, job, s.running[job]))
    && (forall job :: job in s.progress ==> ProgressEntry(s, job, s.progress[job]))
  }

  ghost predicate Inv(s: State) {
    LocksInv(s) && EntriesInv(s)
  }

  lemma StepKeepsHolder(s: State, a: Action, e: nat)
    requires LocksInv(s) && Enabled(s, a) && e in Step(s, a).executions
    ensures var t := Step(s, a);
            e < t.next && (t.executions[e].Holding() ==>
                           t.executions[e].job in t.locked && t.locked[t.executions[e].job] == e)
  {
    assert s.next !in s.executions;
    match a
    case Acquire(job, _) =>
      assert e in s.executions && s.executions[e].Holding() ==> s.executions[e].job in s.locked;
    case Release(f) =>
      assert s.locked[s.executions[f].job] == f;
    case _ =>
  }

  lemma StepKeepsLock(s: State, a: Action, job: Id)
    requires LocksInv(s) && Enabled(s, a) && job in Step(s, a).locked
    ensures var t := Step(s, a);
            t.locked[job] in t.executions && t.executions[t.locked[job]].job == job
              && t.executions[t.locked[job]].Holding()
  {
    assert s.next !in s.executions;
  }

  lemma StepKeepsLocks(s: State, a: Action)
    requires LocksInv(s) && Enabled(s, a)
    ensures LocksInv(Step(s, a))
  {
    forall e | e in Step(s, a).executions
      ensures var t := Step(s, a);
              e < t.next && (t.executions[e].Holding() ==>
                             t.executions[e].job in t.locked && t.locked[t.executions[e].job] == e)
    {
      StepKeepsHolder(s, a, e);
    }
    forall job | job in Step(s, a).locked
      ensures var t := Step(s, a);
              t.locked[job] in t.executions && t.executions[t.locked[job]].job == job
                && t.executions[t.locked[job]].Holding()
    {
      StepKeepsLock(s, a, job);
    }
  }

  lemma StepKeepsRunningEntry(s: State, a: Action, job: Id)
    requires LocksInv(s) && Enabled(s, a) && job in Step(s, a).running
    requires job in s.running ==> RunningEntry(s, job, s.running[job])
    ensures RunningEntry(Step(s, a), job, Step(s, a).running[job])
  {
    assert s.next !in s.executions;
  }

  lemma StepKeepsProgressEntry(s: State, a: Action, job: Id)
    requires LocksInv(s) && Enabled(s, a) && job in Step(s, a).progress
    requires job in s.progress ==> ProgressEntry(s, job, s.progress[job])
    ensures ProgressEntry(Step(s, a), job, Step(s, a).progress[job])
  {
    assert s.next !in s.executions;
  }

  lemma StepKeepsEntries(s: State, a: Action)
    requires LocksInv(s) && EntriesInv(s) && Enabled(s, a)
    ensures EntriesInv(Step(s, a))
  {
    forall job | job in Step(s, a).running
      ensures RunningEntry(Step(s, a), job, Step(s, a).running[job])
    {
      StepKeepsRunningEntry(s, a, job);
    }
    forall job | job in Step(s, a).progress
      ensures ProgressEntry(Step(s, a), job, Step(s, a).progress[job])
    {
      StepKeepsProgressEntry(s, a, job);
    }
  }

  lemma StepKeepsInv(s: State, a: Action)
    requires Inv(s) && Enabled(s, a)
    ensures Inv(Step(s, a))
  {
    StepKeepsLocks(s, a);
    StepKeepsEntries(s, a);
  }

  lemma {:induction false} RunKeepsInv(s: State, actions: seq<Action>)
    requires Inv(s) && CanRun(s, actions)
    ensures Inv(Run(s, actions))
    decreases actions
  {
    if actions != [] {
      StepKeepsInv(s, actions[0]);
      RunKeepsInv(Step(s, actions[0]), actions[1..]);
    }
  }

  /** In every interleaving at most one execution is inside a given job's body, and a lock
      is only ever given back while it is held. */
  lemma MutualExclusion(actions: seq<Action>, e: nat, f: nat)
    requires CanRun(INIT, actions)
    requires At(Run(INIT, actions), e, InBody) && At(Run(INIT, actions), f, InBody)
    requires Run(INIT, actions).executions[e].job == Run(INIT, actions).executions[f].job
    ensures e == f
  {
    RunKeepsInv(INIT, actions);
  }

  lemma ReleaseIsMatched(actions: seq<Action>, e: nat)
    requires CanRun(INIT, actions) && Enabled(Run(INIT, actions), Release(e))
    ensures var s := Run(INIT, actions);
            s.executions[e].job in s.locked && s.locked[s.executions[e].job] == e
            && s.executions[e].job !in Step(s, Release(e)).locked
  {
    RunKeepsInv(INIT, actions);
  }

  /** When every execution has removed its entries nothing is left behind. */
  lemma QuiescentIsClean(actions: seq<Action>)
    requires CanRun(INIT, actions)
    requires forall e :: e in Run(INIT, actions).executions ==> Run(INIT, actions).executions[e].phase == Popped
    ensures var s := Run(INIT, actions); s.locked == map[] && s.running == map[] && s.progress == map[]
  {
    RunKeepsInv(INIT, actions);
    var s := Run(INIT, actions);
    assert s.locked.Keys == {};
    assert s.running.Keys == {};
    assert s.progress.Keys == {};
  }

  ghost predicate OnlyWorkersRegister(s: State) {
    forall e :: At(s, e, Registered) ==> s.executions[e].kind == Worker
  }

  lemma {:induction false} OnlyWorkersRegistered(s: State, actions: seq<Action>)
    requires OnlyWorkersRegister(s) && CanRun(s, actions)
    ensures OnlyWorkersRegister(Run(s, actions))
    decreases actions
  {
    if actions != [] {
      forall e | At(Step(s, actions[0]), e, Registered)
        ensures Step(s, actions[0]).executions[e].kind == Worker
      {
        assert e in s.executions ==> At(s, e, s.executions[e].phase);
      }
      OnlyWorkersRegistered(Step(s, actions[0]), actions[1..]);
    }
  }

  /** How far an execution still has to go. */
  function Left(x: Execution): nat {
    match x.phase
    case Acquired => 6
    case Registered => 5
    case Reporting => 4
    case InBody => 3
    case Stored => 2
    case Released => 1
    case Popped => 0
  }

  /** Nothing can block an execution that has its lock: whatever the other threads have done,
      it has a next action, which brings it closer to its end and moves no other execution. */
  lemma NeverBlocked(actions: seq<Action>, e: nat) returns (a: Action)
    requires CanRun(INIT, actions) && e in Run(INIT, actions).executions
    requires Run(INIT, actions).executions[e].phase != Popped
    ensures var s := Run(INIT, actions);
            && Enabled(s, a) && !a.Acquire?
            && Left(Step(s, a).executions[e]) < Left(s.executions[e])
            && forall f :: f in s.executions && f != e ==> Step(s, a).executions[f] == s.executions[f]
  {
    OnlyWorkersRegistered(INIT, actions);
    var x := Run(INIT, actions).executions[e];
    assert At(Run(INIT, actions), e, x.phase);
    a := match x.phase
         case Acquired => if x.kind == Worker then Register(e) else Report(e)
         case Registered => Report(e)
         case Reporting => Enter(e)
         case InBody => Store(e)
         case Stored => Release(e)
         case _ => Pop(e);
  }

  // ------------------------------------------- who shutdown can wait for

  /** `join_running_jobs` and `status` only see what `_running` lists. */
  predicate Visible(s: State, e: nat) {
    e in s.executions && s.executions[e].job in s.running && s.running[s.executions[e].job] == e
  }

  ghost predicate HasStraggler(s: State, job: Id) {
    exists f :: f in s.executions && s.executions[f].job == job && s.executions[f].Straggler()
  }

  /** A running worker can be invisible: its predecessor, which gave back the lock before
      removing its own entry, removes the successor's. */
  lemma InvisibleWorker(job: Id)
    ensures exists actions ::
              CanRun(INIT, actions) && At(Run(INIT, actions), 1, Registered)
              && Run(INIT, actions).executions[1].RunningWorker() && job in Run(INIT, actions).locked
              && !Visible(Run(INIT, actions), 1)
  {
    var first := [Acquire(job, Worker), Register(0), Report(0), Enter(0), Store(0), Release(0)];
    var second := [Acquire(job, Worker), Register(1), Pop(0)];
    var s := State(map[0 := Execution(job, Worker, Released)], 1, map[], map[job := 0],
                   if job == EXTRACTION then map[job := 0] else map[], map[job := 0]);
    RunFirst(job, s);
    RunSecond(job, s);
    RunAppend(INIT, first, second);
  }

  lemma RunSecond(job: Id, s: State)
    requires s == State(map[0 := Execution(job, Worker, Released)], 1, map[], map[job := 0],
                        if job == EXTRACTION then map[job := 0] else map[], map[job := 0])
    ensures var actions := [Acquire(job, Worker), Register(1), Pop(0)];
            CanRun(s, actions) && At(Run(s, actions), 1, Registered) && Run(s, actions).executions[1].RunningWorker()
            && job in Run(s, actions).locked && !Visible(Run(s, actions), 1)
  {
    var t := Step(s, Acquire(job, Worker));
    var u := Step(t, Register(1));
    RunOne(u, Pop(0), []);
    RunOne(t, Register(1), [Pop(0)]);
    RunOne(s, Acquire(job, Worker), [Register(1), Pop(0)]);
  }

  lemma RunFirst(job: Id, s: State)
    requires s == State(map[0 := Execution(job, Worker, Released)], 1, map[], map[job := 0],
                        if job == EXTRACTION then map[job := 0] else map[], map[job := 0])
    ensures var actions := [Acquire(job, Worker), Register(0), Report(0), Enter(0), Store(0), Release(0)];
            CanRun(INIT, actions) && Run(INIT, actions) == s
  {
    var half := State(map[0 := Execution(job, Worker, Reporting)], 1, map[job := 0], map[job := 0], s.progress, map[]);
    RunToReporting(job, half);
    RunToRelease(job, half, s);
    var first, second := [Acquire(job, Worker), Register(0), Report(0)], [Enter(0), Store(0), Release(0)];
    RunAppend(INIT, first, second);
    assert first + second == [Acquire(job, Worker), Register(0), Report(0), Enter(0), Store(0), Release(0)];
  }

  lemma RunToReporting(job: Id, half: State)
    requires half == State(map[0 := Execution(job, Worker, Reporting)], 1, map[job := 0], map[job := 0],
                           if job == EXTRACTION then map[job := 0] else map[], map[])
    ensures var actions := [Acquire(job, Worker), Register(0), Report(0)];
            CanRun(INIT, actions) && Run(INIT, actions) == half
  {
    var s1 := Step(INIT, Acquire(job, Worker));
    var s2 := Step(s1, Register(0));
    assert Step(s2, Report(0)) == half;
    RunOne(s2, Report(0), []);
    RunOne(s1, Register(0), [Report(0)]);
    RunOne(INIT, Acquire(job, Worker), [Register(0), Report(0)]);
  }

  lemma RunToRelease(job: Id, half: State, s: State)
    requires half.executions == map[0 := Execution(job, Worker, Reporting)]
    requires half.locked == map[job := 0] && half.results == map[]
    requires s == half.(executions := map[0 := Execution(job, Worker, Released)], locked := map[],
                        results := map[job := 0])
    ensures var actions := [Enter(0), Store(0), Release(0)];
            CanRun(half, actions) && Run(half, actions) == s
  {
    var s4 := Step(half, Enter(0));
    var s5 := Step(s4, Store(0));
    assert Step(s5, Release(0)).executions == s.executions && Step(s5, Release(0)).locked == s.locked;
    RunOne(s5, Release(0), []);
    RunOne(s4, Store(0), [Release(0)]);
    RunOne(half, Enter(0), [Store(0), Release(0)]);
  }

  lemma RunOne(s: State, a: Action, rest: seq<Action>)
    requires Enabled(s, a) && CanRun(Step(s, a), rest)
    ensures CanRun(s, [a] + rest) && Run(s, [a] + rest) == Run(Step(s, a), rest)
  {
    assert ([a] + rest)[1..] == rest;
  }

  lemma {:induction false} RunAppend(s: State, a: seq<Action>, b: seq<Action>)
    requires CanRun(s, a) && CanRun(Run(s, a), b)
    ensures CanRun(s, a + b) && Run(s, a + b) == Run(Run(s, a), b)
    decreases a
  {
    if a == [] {
      assert a + b == b;
    } else {
      RunAppend(Step(s, a[0]), a[1..], b);
      assert (a + b)[1..] == a[1..] + b;
    }
  }

  /** A visible running worker can be made invisible by the next action of some thread
      exactly when a straggler of its job exists ... */
  lemma HiddenExactlyWhenStraggler(s: State, e: nat)
    requires Inv(s) && Visible(s, e) && s.executions[e].RunningWorker()
    ensures HasStraggler(s, s.executions[e].job) <==> exists a :: Hides(s, a, e)
  {
    var job := s.executions[e].job;
    if HasStraggler(s, job) {
      var f :| f in s.executions && s.executions[f].job == job && s.executions[f].Straggler();
      assert Hides(s, Pop(f), e);
    }
    forall a | Hides(s, a, e)
      ensures HasStraggler(s, job)
    {
      OnlyPopHides(s, a, e);
    }
  }

  /** The action takes a worker that is still running out of `_running`. */
  predicate Hides(s: State, a: Action, e: nat) {
    Enabled(s, a) && e in Step(s, a).executions && Step(s, a).executions[e].RunningWorker() && !Visible(Step(s, a), e)
  }

  lemma OnlyPopHides(s: State, a: Action, e: nat)
    requires LocksInv(s) && Visible(s, e) && s.executions[e].RunningWorker() && Hides(s, a, e)
    ensures a.Pop? && s.executions[a.e].job == s.executions[e].job && s.executions[a.e].Straggler()
  {
    assert s.next !in s.executions;
  }

  lemma OnlyReleaseStops(s: State, a: Action, e: nat)
    requires LocksInv(s) && Enabled(s, a) && e in s.executions && s.executions[e].RunningWorker() && a != Release(e)
    ensures e in Step(s, a).executions && Step(s, a).executions[e].RunningWorker()
    ensures Step(s, a).executions[e].job == s.executions[e].job
    ensures HasStraggler(Step(s, a), s.executions[e].job) ==> HasStraggler(s, s.executions[e].job)
  {
    var t, job := Step(s, a), s.executions[e].job;
    assert s.next !in s.executions;
    if HasStraggler(t, job) {
      var f :| f in t.executions && t.executions[f].job == job && t.executions[f].Straggler();
      assert f in s.executions && s.executions[f].job == job;
    }
  }

  /** ... and without one it stays visible, whatever the threads do, until it gives back
      its lock. */
  lemma {:induction false} VisibleUntilRelease(s: State, e: nat, actions: seq<Action>)
    requires Inv(s) && Visible(s, e) && s.executions[e].RunningWorker() && !HasStraggler(s, s.executions[e].job)
    requires CanRun(s, actions) && Release(e) !in actions
    ensures Visible(Run(s, actions), e) && Run(s, actions).executions[e].RunningWorker()
    decreases actions
  {
    if actions != [] {
      var a := actions[0];
      StepKeepsInv(s, a);
      OnlyReleaseStops(s, a, e);
      assert Visible(Step(s, a), e) by {
        if Hides(s, a, e) { OnlyPopHides(s, a, e); }
      }
      VisibleUntilRelease(Step(s, a), e, actions[1..]);
    }
  }
}
