/** What the executor does in the ordinary case: what a claim, a result and a failure write, where a
 *  resumed task goes on, and why a worker writes what it writes. Statuses are spelled out here. */
module ExecutorAnswers {
  import opened Basics
  import opened TaskRepository
  import opened ExecutorMachine

  // ---------------------------------------------------------------- the repository

  /** The table of transitions, read by where they lead. */
  predicate MayEnter(to: Status, from: Status) {
    match to
    case Created => from == Paused
    case Probing => from == Created || from == Validating || from == Paused || from == RecoverableFailed
    case WaitingForUser =>
      from == Probing || from == Validating || from == Crawling || from == Paused || from == RecoverableFailed
    case Validating => from == Probing || from == WaitingForUser || from == Paused || from == RecoverableFailed
    case Ready => from == Validating || from == Paused || from == RecoverableFailed
    case Crawling => from == WaitingForUser || from == Ready || from == Paused || from == RecoverableFailed
    case Completed => from == Crawling
    case Paused =>
      from == Created || from == Probing || from == WaitingForUser || from == Validating || from == Ready || from == Crawling
    case RecoverableFailed =>
      from == Probing || from == WaitingForUser || from == Validating || from == Ready || from == Crawling
    case TerminalFailed =>
      from == Probing || from == WaitingForUser || from == Validating || from == Ready || from == Crawling || from == RecoverableFailed
    case Cancelled => from != Completed && from != TerminalFailed && from != Cancelled
  }

  lemma EdgesAreThese(from: Status, to: Status)
    ensures to in AllowedTransitions(from) <==> MayEnter(to, from)
  {
  }

  predicate Stopped(s: Status) {
    s == Paused || s == RecoverableFailed
  }

  predicate Giving(s: Status) {
    s == TerminalFailed || s == Cancelled
  }

  /** A transition is accepted exactly when the caller has seen the last version, the edge is there, a
   *  cleanup gate is not in the way and a stopped task goes back where it came from. It appends the
   *  status, with where to resume when the task stops, and the gate goes with a task that is given up. */
  lemma TransitionAnswers(r: Repository, id: Id, to: Status, expected: nat)
    requires id in r
    ensures var t, outcome := r[id][|r[id]| - 1], Transition(r, id, to, expected);
      && (outcome.Accepted? <==>
           && expected == |r[id]| - 1 && MayEnter(to, t.status) && (t.cleanup ==> Giving(to))
           && (Stopped(t.status) && !Giving(to) ==> t.resume == Some(to)))
      && (outcome.Accepted? ==>
           outcome.repo == r[id := r[id] + [Task(to, if Stopped(to) then Some(t.status) else None, t.cleanup && !Giving(to))]])
      && (outcome == VersionConflict <==> expected != |r[id]| - 1)
  {
    EdgesAreThese(r[id][|r[id]| - 1].status, to);
  }

  // ---------------------------------------------------------------- a worker on its own

  /** The task has one more version, and nothing else in the repository has changed. */
  ghost predicate Appends(s: State, s': State, id: Id, t: Task) {
    id in s.repo && s'.repo == s.repo[id := s.repo[id] + [t]]
  }

  /** Worker `n` handles the last version of its task. */
  predicate AtWork(s: State, n: nat, id: Id, status: Status) {
    && n < |s.workers| && id in s.repo && s.repo[id][|s.repo[id]| - 1].status == status
    && s.workers[n] == Handling(id, |s.repo[id]| - 1, status)
  }

  predicate Active(s: Status) {
    s == Probing || s == Validating || s == Crawling
  }

  function Works(c: Settings, s: State, n: nat, times: nat): State
    decreases times
  {
    if times == 0 then s else Works(c, Take(c, s, Work(n)), n, times - 1)
  }

  /** A recoverable error: the task is RECOVERABLE_FAILED and will resume where it was. */
  lemma RecoverableErrorIsRecorded(c: Settings, s: State, n: nat, id: Id, status: Status)
    requires AtWork(s, n, id, status) && Active(status) && !s.repo[id][|s.repo[id]| - 1].cleanup
    ensures var s' := Works(c, Take(c, s, HandlerEnds(n, Recoverable)), n, 2);
      && Appends(s, s', id, Task(RecoverableFailed, Some(status), false))
      && s'.board == s.board && s'.workers == s.workers[n := Finishing(id, false)]
  {
    var s1 := Take(c, s, HandlerEnds(n, Recoverable));
    var s2 := Take(c, s1, Work(n));
    assert s2 == s.(workers := s.workers[n := FailMoving(id, |s.repo[id]| - 1, RecoverableFailed, 3)]);
    EdgesAreThese(status, RecoverableFailed);
    TwoWorks(c, s1, n);
  }

  /** A fatal one: the task is TERMINAL_FAILED for good. */
  lemma FatalErrorIsRecorded(c: Settings, s: State, n: nat, id: Id, status: Status)
    requires AtWork(s, n, id, status) && Active(status)
    ensures var s' := Works(c, Take(c, s, HandlerEnds(n, Fatal)), n, 2);
      && Appends(s, s', id, Task(TerminalFailed, None, false))
      && s'.board == s.board && s'.workers == s.workers[n := Finishing(id, false)]
  {
    var s1 := Take(c, s, HandlerEnds(n, Fatal));
    var s2 := Take(c, s1, Work(n));
    assert s2 == s.(workers := s.workers[n := FailMoving(id, |s.repo[id]| - 1, TerminalFailed, 3)]);
    EdgesAreThese(status, TerminalFailed);
    TwoWorks(c, s1, n);
  }

  lemma TwoWorks(c: Settings, s: State, n: nat)
    ensures Works(c, s, n, 2) == Take(c, Take(c, s, Work(n)), Work(n))
  {
    assert Works(c, s, n, 2) == Works(c, Take(c, s, Work(n)), n, 1);
    assert Works(c, Take(c, s, Work(n)), n, 1) == Works(c, Take(c, Take(c, s, Work(n)), Work(n)), n, 0);
  }

  lemma ThreeWorks(c: Settings, s: State, n: nat)
    ensures Works(c, s, n, 3) == Take(c, Take(c, Take(c, s, Work(n)), Work(n)), Work(n))
  {
    TwoWorks(c, Take(c, s, Work(n)), n);
    assert Works(c, s, n, 3) == Works(c, Take(c, s, Work(n)), n, 2);
  }

  /** Somebody writes the task between the read and the write of a failure: the write is refused, and the
   *  worker tries again with what it finds then, as long as it has attempts left of its three. */
  lemma FailureTriesAgain(c: Settings, s: State, n: nat, id: Id, target: Status, attempts: nat, t: Task)
    requires n < |s.workers| && id in s.repo && s.workers[n] == Failing(id, target, attempts) && attempts > 0
    requires !Stopped(s.repo[id][|s.repo[id]| - 1].status) && s.repo[id][|s.repo[id]| - 1].status !in {Completed, TerminalFailed, Cancelled}
    ensures var s' := Take(c, Take(c, Take(c, s, Work(n)), Outside(id, t)), Work(n));
      Appends(s, s', id, t) && s'.board == s.board && s'.workers == s.workers[n := Failing(id, target, attempts - 1)]
  {
    var s2 := Take(c, Take(c, s, Work(n)), Outside(id, t));
    assert s2.workers == s.workers[n := FailMoving(id, |s.repo[id]| - 1, target, attempts)];
    TransitionAnswers(s2.repo, id, target, |s.repo[id]| - 1);
  }

  lemma FailureEnds(c: Settings, s: State, n: nat, id: Id, target: Status)
    requires n < |s.workers| && s.workers[n] == Failing(id, target, 0)
    ensures Take(c, s, Work(n)) == s.(workers := s.workers[n := Finishing(id, false)])
  {
  }

  /** Both kinds of failure begin with three attempts. */
  lemma FailuresHaveThree(c: Settings, s: State, n: nat, id: Id, status: Status)
    requires AtWork(s, n, id, status)
    ensures Take(c, s, HandlerEnds(n, Recoverable)) == s.(workers := s.workers[n := Failing(id, RecoverableFailed, 3)])
    ensures Take(c, s, HandlerEnds(n, Fatal)) == s.(workers := s.workers[n := Failing(id, TerminalFailed, 3)])
  {
  }

  /** A handler that leaves the task as it is, or has seen a pause, ends the run without a write; one that
   *  dies takes its worker with it. */
  lemma NoResultNoWrite(c: Settings, s: State, n: nat, id: Id, status: Status)
    requires AtWork(s, n, id, status)
    ensures Take(c, s, HandlerEnds(n, NoChange)) == s.(workers := s.workers[n := Finishing(id, false)])
    ensures Take(c, s, HandlerEnds(n, ControlSeen)) == s.(workers := s.workers[n := Finishing(id, false)])
    ensures Take(c, s, HandlerEnds(n, Killed)) == s.(workers := s.workers[n := Finishing(id, true)])
  {
  }

  /** Where a worker goes on after a write. */
  function GoingOn(c: Settings, id: Id, version: nat, status: Status): Worker {
    if status in c.handlers then Checking(id, version, status) else Finishing(id, false)
  }

  /** Two steps after a handler has returned: its result is about to be written. */
  lemma ResultIsChecked(c: Settings, s: State, n: nat, id: Id, status: Status, next: Status)
    requires AtWork(s, n, id, status) && Active(status)
    ensures Take(c, Take(c, Take(c, s, HandlerEnds(n, Next(next))), Work(n)), Work(n))
      == s.(workers := s.workers[n := Moving(id, |s.repo[id]| - 1, status, next)])
  {
    var s1 := Take(c, s, HandlerEnds(n, Next(next)));
    var s2 := Take(c, s1, Work(n));
    assert s2 == s.(workers := s.workers[n := Comparing(id, |s.repo[id]| - 1, status, next)]);
  }

  /** The result of a handler is written on top of the version it was given, and the worker goes on with
   *  the handler of the new status; a result that may not follow counts as a recoverable failure. */
  lemma ResultIsWritten(c: Settings, s: State, n: nat, id: Id, status: Status, next: Status)
    requires AtWork(s, n, id, status) && Active(status) && next != Ready
    ensures var s' := Works(c, Take(c, s, HandlerEnds(n, Next(next))), n, 3);
      var gated := s.repo[id][|s.repo[id]| - 1].cleanup;
      && s'.board == s.board
      && if MayEnter(next, status) && (gated ==> Giving(next))
         then Appends(s, s', id, Task(next, if Stopped(next) then Some(status) else None, gated && !Giving(next)))
              && s'.workers == s.workers[n := GoingOn(c, id, |s.repo[id]|, next)]
         else s'.repo == s.repo && s'.workers == s.workers[n := Failing(id, RecoverableFailed, 3)]
  {
    var v := |s.repo[id]| - 1;
    ResultIsChecked(c, s, n, id, status, next);
    TransitionAnswers(s.repo, id, next, v);
    ThreeWorks(c, Take(c, s, HandlerEnds(n, Next(next))), n);
  }

  /** From READY a task is handed straight on to CRAWLING. */
  lemma ReadyIsHandedOn(c: Settings, s: State, n: nat, id: Id)
    requires AtWork(s, n, id, Validating) && !s.repo[id][|s.repo[id]| - 1].cleanup
    ensures var s' := Take(c, Works(c, Take(c, s, HandlerEnds(n, Next(Ready))), n, 3), Work(n));
      && s'.board == s.board
      && s'.repo == s.repo[id := s.repo[id] + [Task(Ready, None, false)] + [Task(Crawling, None, false)]]
      && s'.workers == s.workers[n := GoingOn(c, id, |s.repo[id]| + 1, Crawling)]
  {
    var v := |s.repo[id]| - 1;
    ResultIsChecked(c, s, n, id, Validating, Ready);
    ThreeWorks(c, Take(c, s, HandlerEnds(n, Next(Ready))), n);
    var s3 := s.(workers := s.workers[n := Moving(id, v, Validating, Ready)]);
    ReadyIsWritten(c, s3, n, id);
    HandOffIsWritten(c, Take(c, s3, Work(n)), n, id);
  }

  lemma ReadyIsWritten(c: Settings, s: State, n: nat, id: Id)
    requires n < |s.workers| && id in s.repo && s.workers[n] == Moving(id, |s.repo[id]| - 1, Validating, Ready)
    requires s.repo[id][|s.repo[id]| - 1].status == Validating && !s.repo[id][|s.repo[id]| - 1].cleanup
    ensures Take(c, s, Work(n))
      == s.(repo := s.repo[id := s.repo[id] + [Task(Ready, None, false)]], workers := s.workers[n := HandingOff(id, |s.repo[id]|)])
  {
    TransitionAnswers(s.repo, id, Ready, |s.repo[id]| - 1);
  }

  lemma HandOffIsWritten(c: Settings, s: State, n: nat, id: Id)
    requires n < |s.workers| && id in s.repo && s.workers[n] == HandingOff(id, |s.repo[id]| - 1)
    requires s.repo[id][|s.repo[id]| - 1] == Task(Ready, None, false)
    ensures Take(c, s, Work(n))
      == s.(repo := s.repo[id := s.repo[id] + [Task(Crawling, None, false)]], workers := s.workers[n := GoingOn(c, id, |s.repo[id]|, Crawling)])
  {
    TransitionAnswers(s.repo, id, Crawling, |s.repo[id]| - 1);
  }

  /** A submitted task is claimed: from CREATED for PROBING, from READY for CRAWLING, and not at all from
   *  any other status. */
  lemma SubmittedIsClaimed(c: Settings, s: State, n: nat, id: Id)
    requires n < |s.workers| && id in s.repo && s.workers[n] == Got(id, false) && !s.repo[id][|s.repo[id]| - 1].cleanup
    ensures var status, s' := s.repo[id][|s.repo[id]| - 1].status, Works(c, s, n, 2);
      && (status == Created || status == Ready ==>
           && var claimed := if status == Created then Probing else Crawling;
              Appends(s, s', id, Task(claimed, None, false)) && s'.board == s.board
              && s'.workers == s.workers[n := GoingOn(c, id, |s.repo[id]|, claimed)])
      && (status != Created && status != Ready ==>
           Take(c, s, Work(n)) == s.(workers := s.workers[n := Finishing(id, false)]))
  {
    var v := |s.repo[id]| - 1;
    TransitionAnswers(s.repo, id, Probing, v);
    TransitionAnswers(s.repo, id, Crawling, v);
    TwoWorks(c, s, n);
  }

  /** A task that is active already is not claimed again: its handler is next. */
  lemma PreclaimedGoesOn(c: Settings, s: State, n: nat, id: Id)
    requires n < |s.workers| && id in s.repo && s.workers[n] == Got(id, true)
    ensures Take(c, s, Work(n)) == s.(workers := s.workers[n :=
      GoingOn(c, id, |s.repo[id]| - 1, s.repo[id][|s.repo[id]| - 1].status)])
  {
  }

  /** A handler is entered exactly when the task is still at that version and neither paused nor cancelled. */
  lemma EntersUnlessChanged(c: Settings, s: State, n: nat)
    requires n < |s.workers| && s.workers[n].Checking? && s.workers[n].id in s.repo
    ensures var w := s.workers[n];
      var t := s.repo[w.id][|s.repo[w.id]| - 1];
      Take(c, s, Work(n)) == s.(workers := s.workers[n :=
        if |s.repo[w.id]| - 1 == w.version && t.status != Paused && t.status != Cancelled
        then Handling(w.id, w.version, w.status) else Finishing(w.id, false)])
  {
  }

  // ---------------------------------------------------------------- scheduling

  /** Marked as scheduled and last in the queue. */
  ghost predicate PutLast(b: Board, b': Board, job: Job, version: nat) {
    b' == b.(queue := b.queue + [job], scheduled := b.scheduled + {job.id}, versions := b.versions[job.id := version])
  }

  /** `submit`: only a CREATED or READY task that is not scheduled is queued, to be claimed later. */
  lemma SubmitAnswers(b: Board, capacity: nat, id: Id, status: Status, version: nat)
    ensures var (b', reply) := Submit(b, capacity, id, status, version);
      var due := (status == Created || status == Ready) && id !in b.scheduled;
      && (reply == Closed <==> b.closing)
      && (reply == Ignored <==> !b.closing && !due)
      && (reply == Full <==> !b.closing && due && |b.queue| >= capacity)
      && (reply == Scheduled <==> !b.closing && due && |b.queue| < capacity)
      && (if reply == Scheduled then PutLast(b, b', Job(id, false), version) else b' == b)
  {
  }

  /** `schedule_active`: an active task that is not scheduled is queued as claimed already; a newer version
   *  of a scheduled one is kept for the worker that has it. */
  lemma ScheduleActiveAnswers(b: Board, capacity: nat, id: Id, status: Status, version: nat)
    ensures var (b', reply) := ScheduleActive(b, capacity, id, status, version);
      var known := id in b.scheduled && id in b.versions && b.versions[id] >= version;
      && (reply == Closed <==> b.closing)
      && (reply == Ignored <==> !b.closing && (!Active(status) || known))
      && (reply == Full <==> !b.closing && Active(status) && id !in b.scheduled && |b.queue| >= capacity)
      && reply != ReadError
      && (if reply != Scheduled then b' == b
          else if id !in b.scheduled then PutLast(b, b', Job(id, true), version)
          else b' == b.(versions := b.versions[id := version], pending := b.pending[id := Resume(true, RecoverableFailed)]))
  {
  }

  /** `_schedule_resumed`, when the repository can be read. */
  lemma ScheduleResumedAnswers(b: Board, capacity: nat, id: Id, version: nat, resume: Resume)
    ensures var (b', reply) := ScheduleResumed(b, capacity, id, Some(version), resume);
      && (reply == Closed <==> b.closing)
      && (reply == Full <==> !b.closing && id !in b.scheduled && |b.queue| >= capacity)
      && (reply == Scheduled <==> !b.closing && (id in b.scheduled || |b.queue| < capacity))
      && (if reply != Scheduled then b' == b
          else if id !in b.scheduled then PutLast(b, b', Job(id, resume.preclaimed), version)
          else b' == b.(versions := b.versions[id := version], pending := b.pending[id := resume]))
  {
  }

  /** When a worker finishes: without a pending resume the task is no longer scheduled. A pending one is
   *  queued again if the executor is open and has room, and otherwise handed back for its rollback. */
  lemma FinishAnswers(b: Board, capacity: nat, id: Id)
    ensures var (b', back) := Finish(b, capacity, id);
      && b'.pending == b.pending - {id} && b'.closing == b.closing
      && (if id in b.pending && !b.closing && |b.queue| < capacity
          then b'.queue == b.queue + [Job(id, b.pending[id].preclaimed)] && b'.scheduled == b.scheduled + {id} && back == None
               && b'.versions == b.versions
          else b'.queue == b.queue && b'.scheduled == b.scheduled - {id} && b'.versions == b.versions - {id}
               && back == if id in b.pending then Some(b.pending[id]) else None)
  {
  }

  // ---------------------------------------------------------------- resuming

  /** A stopped task that may be resumed. */
  predicate MayResume(r: Repository, id: Id, from: Status, to: Status) {
    id in r && r[id][|r[id]| - 1] == Task(from, Some(to), false) && Stopped(from) && MayEnter(to, from) && !Giving(to)
  }

  /** `resume` puts it back where it stopped; only a task that waits for its user is not scheduled then. */
  lemma ResumeAnswers(c: Settings, s: State, caller: nat, id: Id, from: Status, to: Status)
    requires caller < |s.callers| && s.callers[caller].Away? && MayResume(s.repo, id, from, to)
    ensures var s' := Take(c, s, Resuming(caller, id));
      && Appends(s, s', id, Task(to, None, false)) && s'.board == s.board && s'.workers == s.workers
      && s'.callers == s.callers[caller := if to == WaitingForUser then Away else Resumed(id, |s.repo[id]|, to, from)]
  {
    TransitionAnswers(s.repo, id, to, |s.repo[id]| - 1);
  }

  /** Nothing else can be resumed. */
  lemma OthersDoNotResume(c: Settings, s: State, caller: nat, id: Id)
    requires forall from, to :: !MayResume(s.repo, id, from, to)
    requires id in s.repo ==>
      var t := s.repo[id][|s.repo[id]| - 1]; t.resume.Some? ==> !Giving(t.resume.value)
    ensures Take(c, s, Resuming(caller, id)) == s
  {
    if id in s.repo && s.repo[id][|s.repo[id]| - 1].resume.Some? {
      var t := s.repo[id][|s.repo[id]| - 1];
      assert !MayResume(s.repo, id, t.status, t.resume.value);
      EdgesAreThese(t.status, t.resume.value);
    }
  }

  /** The whole way back: a resumed task that had been active is queued as claimed, and the next idle
   *  worker goes on with its handler; one that had not begun is claimed anew. */
  lemma ResumedIsRun(c: Settings, s: State, caller: nat, n: nat, id: Id, from: Status, to: Status)
    requires caller < |s.callers| && s.callers[caller].Away? && MayResume(s.repo, id, from, to) && to != WaitingForUser
    requires n < |s.workers| && s.workers[n] == Idle
    requires !s.board.closing && s.board.queue == [] && id !in s.board.scheduled && c.capacity > 0
    ensures var v := Take(c, Take(c, s, Resuming(caller, id)), SchedulingResumed(caller, true));
      var s' := Take(c, v, Work(n));
      && PutLast(s.board, v.board, Job(id, Active(to)), |s.repo[id]|) && v.callers == s.callers
      && Appends(s, s', id, Task(to, None, false)) && s'.board.queue == []
      && s'.workers == s.workers[n := Got(id, Active(to))]
  {
    ResumeAnswers(c, s, caller, id, from, to);
    var s1 := Take(c, s, Resuming(caller, id));
    var resume := Resume(Active(to), from);
    ScheduleResumedAnswers(s1.board, c.capacity, id, |s.repo[id]|, resume);
    var v := Take(c, s1, SchedulingResumed(caller, true));
    assert v.board == ScheduleResumed(s1.board, c.capacity, id, Some(|s.repo[id]|), resume).0;
    assert v.callers == s.callers;
  }

  /** A closed or full executor: the task goes back to where the resume found it. */
  lemma RefusedIsUndone(c: Settings, s: State, caller: nat, id: Id, from: Status, to: Status)
    requires caller < |s.callers| && s.callers[caller].Away? && MayResume(s.repo, id, from, to) && to != WaitingForUser
    requires s.board.closing || (id !in s.board.scheduled && |s.board.queue| >= c.capacity)
    requires !Stopped(to) && to != Completed && MayEnter(from, to)
    ensures var s' := Take(c, Take(c, Take(c, s, Resuming(caller, id)), SchedulingResumed(caller, true)), Undo(caller));
      && s'.repo == s.repo[id := s.repo[id] + [Task(to, None, false)] + [Task(from, Some(to), false)]]
      && s'.board == s.board && s'.workers == s.workers && s'.callers == s.callers
  {
    ResumeAnswers(c, s, caller, id, from, to);
    var s1 := Take(c, s, Resuming(caller, id));
    ScheduleResumedAnswers(s1.board, c.capacity, id, |s.repo[id]|, Resume(Active(to), from));
    var s2 := Take(c, s1, SchedulingResumed(caller, true));
    assert s2 == s1.(callers := s.callers[caller := Undoing(id, |s.repo[id]|, to, from, 8)]);
    TransitionAnswers(s2.repo, id, from, |s.repo[id]|);
  }

  /** The recovery at a start: what had been active is RECOVERABLE_FAILED and resumes where it was. */
  lemma RecoveryAnswers(c: Settings, s: State, id: Id)
    requires id in s.repo
    ensures var t, s' := s.repo[id][|s.repo[id]| - 1], Take(c, s, Recovering(id, |s.repo[id]| - 1));
      if Active(t.status) && !t.cleanup
      then s' == s.(repo := s.repo[id := s.repo[id] + [Task(RecoverableFailed, Some(t.status), false)]]) else s' == s
  {
    TransitionAnswers(s.repo, id, RecoverableFailed, |s.repo[id]| - 1);
  }

  // ---------------------------------------------------------------- why a worker writes

  /** How the last handler of worker `n` ended. */
  function LastEnd(c: Settings, s: State, steps: seq<Step>, n: nat): Option<HandlerEnd>
    decreases |steps|
  {
    if steps == [] then None
    else
      var later := LastEnd(c, Take(c, s, steps[0]), steps[1..], n);
      if later.Some? then later
      else if steps[0].HandlerEnds? && steps[0].worker == n && n < |s.workers| && s.workers[n].Handling? then Some(steps[0].end)
      else None
  }

  /** What a worker is about to write, told from how its last handler ended. */
  predicate Explained(w: Worker, end: Option<HandlerEnd>) {
    && (w.Claiming? ==> w.target == Probing || w.target == Crawling)
    && (w.Returned? || w.Comparing? || w.Moving? ==> end == Some(Next(w.next)))
    && (w.Failing? || w.FailMoving? ==> w.target == RecoverableFailed || (w.target == TerminalFailed && end == Some(Fatal)))
    && (w.Reading? || w.RollingBack? ==> Stopped(w.target))
  }

  predicate RollbacksOk(b: Board) {
    forall id :: id in b.pending ==> Stopped(b.pending[id].rollback)
  }

  predicate CallersOk(callers: seq<Caller>) {
    forall n :: 0 <= n < |callers| && callers[n].Resumed? ==> Stopped(callers[n].from)
  }

  lemma RollbacksStay(c: Settings, s: State, step: Step)
    requires RollbacksOk(s.board) && CallersOk(s.callers)
    ensures RollbacksOk(Take(c, s, step).board) && CallersOk(Take(c, s, step).callers)
  {
    if step.SchedulingResumed? && step.caller < |s.callers| && s.callers[step.caller].Resumed? {
      ResumedRollbacks(c, s, step);
    } else if step.Work? && step.worker < |s.workers| {
      WorkerRollbacks(c, s, step.worker);
    }
  }

  lemma ResumedRollbacks(c: Settings, s: State, step: Step)
    requires RollbacksOk(s.board) && CallersOk(s.callers)
    requires step.SchedulingResumed? && step.caller < |s.callers| && s.callers[step.caller].Resumed?
    ensures RollbacksOk(Take(c, s, step).board) && CallersOk(Take(c, s, step).callers)
  {
  }

  lemma WorkerRollbacks(c: Settings, s: State, n: nat)
    requires RollbacksOk(s.board) && n < |s.workers|
    ensures RollbacksOk(Take(c, s, Work(n)).board) && Take(c, s, Work(n)).callers == s.callers
  {
    assert WorkerStep(c, s.repo, s.board, s.workers[n]).1.pending.Keys <= s.board.pending.Keys;
  }

  /** A worker that undoes a resume goes on with the same target, and the others never begin to. */
  lemma RollbackExplained(c: Settings, s: State, n: nat, end: Option<HandlerEnd>)
    requires RollbacksOk(s.board) && n < |s.workers| && Explained(s.workers[n], end)
    requires s.workers[n].Finishing? || s.workers[n].Reading? || s.workers[n].RollingBack?
    ensures Explained(WorkerStep(c, s.repo, s.board, s.workers[n]).2, end)
  {
  }

  lemma StepExplained(c: Settings, s: State, n: nat, end: Option<HandlerEnd>)
    requires RollbacksOk(s.board) && n < |s.workers| && Explained(s.workers[n], end)
    ensures Explained(WorkerStep(c, s.repo, s.board, s.workers[n]).2, end)
  {
    var w := s.workers[n];
    if w.Finishing? || w.Reading? || w.RollingBack? {
      RollbackExplained(c, s, n, end);
    } else {
      ForwardExplained(c, s.repo, s.board, w, end);
    }
  }

  lemma ForwardExplained(c: Settings, r: Repository, b: Board, w: Worker, end: Option<HandlerEnd>)
    requires Explained(w, end) && !w.Finishing? && !w.Reading? && !w.RollingBack?
    ensures Explained(WorkerStep(c, r, b, w).2, end)
  {
  }

  lemma TakeExplained(c: Settings, s: State, step: Step, n: nat, end: Option<HandlerEnd>)
    requires RollbacksOk(s.board) && n < |s.workers| && Explained(s.workers[n], end)
    ensures var handled := step.HandlerEnds? && step.worker == n && s.workers[n].Handling?;
      Explained(Take(c, s, step).workers[n], if handled then Some(step.end) else end)
  {
    if step == Work(n) {
      StepExplained(c, s, n, end);
    }
  }

  lemma {:induction false} PlayExplained(c: Settings, s: State, steps: seq<Step>, n: nat, end: Option<HandlerEnd>)
    requires RollbacksOk(s.board) && CallersOk(s.callers) && n < |s.workers| && Explained(s.workers[n], end)
    ensures |Play(c, s, steps).workers| == |s.workers| && RollbacksOk(Play(c, s, steps).board)
    ensures Explained(Play(c, s, steps).workers[n], if LastEnd(c, s, steps, n).Some? then LastEnd(c, s, steps, n) else end)
    decreases |steps|
  {
    if steps != [] {
      var handled := steps[0].HandlerEnds? && steps[0].worker == n && s.workers[n].Handling?;
      TakeExplained(c, s, steps[0], n, end);
      RollbacksStay(c, s, steps[0]);
      PlayExplained(c, Take(c, s, steps[0]), steps[1..], n, if handled then Some(steps[0].end) else end);
    }
  }

  /** A step of worker `n` writes this status for this task. */
  ghost predicate Writes(c: Settings, s: State, n: nat, id: Id, status: Status) {
    && id in s.repo && id in Take(c, s, Work(n)).repo
    && |Take(c, s, Work(n)).repo[id]| == |s.repo[id]| + 1
    && Take(c, s, Work(n)).repo[id][|s.repo[id]|].status == status
  }

  lemma WriteExplained(c: Settings, s: State, n: nat, id: Id, status: Status, end: Option<HandlerEnd>)
    requires n < |s.workers| && Explained(s.workers[n], end) && Writes(c, s, n, id, status)
    ensures status == TerminalFailed ==> end == Some(Fatal) || end == Some(Next(TerminalFailed))
    ensures !Stopped(status) && status != Probing && status != Crawling && status != TerminalFailed ==> end == Some(Next(status))
  {
  }

  /** Why a worker writes what it writes, over any run: TERMINAL_FAILED only after its handler ended with a
   *  fatal error or returned just that, and any status but those of claims, hand-overs and failures only
   *  because its handler returned it. */
  lemma WritesForAReason(c: Settings, s: State, steps: seq<Step>, n: nat, id: Id, status: Status)
    requires Fresh(s) && n < |s.workers| && Writes(c, Play(c, s, steps), n, id, status)
    ensures var end := LastEnd(c, s, steps, n);
      && (status == TerminalFailed ==> end == Some(Fatal) || end == Some(Next(TerminalFailed)))
      && (status == Completed || status == WaitingForUser || status == Validating || status == Ready || status == Created || status == Cancelled
          ==> end == Some(Next(status)))
  {
    PlayExplained(c, s, steps, n, None);
    WriteExplained(c, Play(c, s, steps), n, id, status, LastEnd(c, s, steps, n));
  }
}
