/** The background executor as interleaved steps: every step is one block under the executor's lock,
 *  one queue operation, or one repository call. */
module ExecutorMachine {
  import opened Basics
  import opened TaskRepository

  const Interrupted: set<Status> := {Probing, Validating, Crawling}
  const Submittable: set<Status> := {Created, Ready}

  datatype Settings = Settings(capacity: nat, handlers: set<Status>)

  datatype Job = Job(id: Id, preclaimed: bool)

  datatype Resume = Resume(preclaimed: bool, rollback: Status)

  /** What the executor's lock protects, and the queue. */
  datatype Board = Board(
    queue: seq<Job>, scheduled: set<Id>, versions: map<Id, nat>, pending: map<Id, Resume>, closing: bool)

  // ---------------------------------------------------------------- blocks under the lock

  datatype Reply = Scheduled | Ignored | Closed | Full | ReadError

  /** Marks the task as scheduled and puts it on the queue; a full queue undoes the marks. */
  function Enqueue(b: Board, capacity: nat, job: Job, version: nat): (Board, Reply) {
    if |b.queue| >= capacity then (b, Full)
    else (b.(queue := b.queue + [job], scheduled := b.scheduled + {job.id}, versions := b.versions[job.id := version]), Scheduled)
  }

  /** `submit`, for a task read some time before. */
  function Submit(b: Board, capacity: nat, id: Id, status: Status, version: nat): (Board, Reply) {
    if b.closing then (b, Closed)
    else if status !in Submittable || id in b.scheduled then (b, Ignored)
    else Enqueue(b, capacity, Job(id, false), version)
  }

  /** `schedule_active`: a newer generation of a task that is still scheduled becomes pending. */
  function ScheduleActive(b: Board, capacity: nat, id: Id, status: Status, version: nat): (Board, Reply) {
    if b.closing then (b, Closed)
    else if status !in Interrupted then (b, Ignored)
    else if id in b.scheduled then
      if id in b.versions && b.versions[id] >= version then (b, Ignored)
      else (b.(versions := b.versions[id := version], pending := b.pending[id := Resume(true, RecoverableFailed)]), Scheduled)
    else Enqueue(b, capacity, Job(id, true), version)
  }

  /** `_schedule_resumed`. `version` is None when the repository cannot be read at that moment:
   *  the task has been marked as scheduled before the read, and stays marked. */
  function ScheduleResumed(b: Board, capacity: nat, id: Id, version: Option<nat>, resume: Resume): (Board, Reply) {
    if b.closing then (b, Closed)
    else if id in b.scheduled then
      if version.None? then (b, ReadError)
      else (b.(versions := b.versions[id := version.value], pending := b.pending[id := resume]), Scheduled)
    else if version.None? then (b.(scheduled := b.scheduled + {id}), ReadError)
    else Enqueue(b, capacity, Job(id, resume.preclaimed), version.value)
  }

  /** The `finally` block of a worker: a pending resume is queued again or handed back for rollback. */
  function Finish(b: Board, capacity: nat, id: Id): (Board, Option<Resume>) {
    var freed := b.(scheduled := b.scheduled - {id}, versions := b.versions - {id}, pending := b.pending - {id});
    if id !in b.pending then (freed, None)
    else
      var resume := b.pending[id];
      if b.closing || |b.queue| >= capacity then (freed, Some(resume))
      else (b.(queue := b.queue + [Job(id, resume.preclaimed)], scheduled := b.scheduled + {id}, pending := b.pending - {id}), None)
  }

  // ---------------------------------------------------------------- threads

  /** Where a worker is. `version` and `status` are the task as the worker last read or made it. */
  datatype Worker =
    | Idle
    | Got(id: Id, preclaimed: bool)
    | Claiming(id: Id, version: nat, target: Status)
    | Checking(id: Id, version: nat, status: Status)
    | Handling(id: Id, version: nat, status: Status)
    | Returned(id: Id, version: nat, status: Status, next: Status)
    | Comparing(id: Id, version: nat, status: Status, next: Status)
    | Moving(id: Id, version: nat, status: Status, next: Status)
    | HandingOff(id: Id, version: nat)
    | Failing(id: Id, target: Status, attempts: nat)
    | FailMoving(id: Id, version: nat, target: Status, attempts: nat)
    | Finishing(id: Id, dying: bool)
    | Reading(id: Id, target: Status, dying: bool)
    | RollingBack(id: Id, version: nat, status: Status, target: Status, attempts: nat, dying: bool)
    | Gone

  /** A thread inside `resume`, after its transition. */
  datatype Caller =
    | Away
    | Resumed(id: Id, version: nat, status: Status, from: Status)
    | Undoing(id: Id, version: nat, status: Status, target: Status, attempts: nat)

  datatype State = State(repo: Repository, board: Board, workers: seq<Worker>, callers: seq<Caller>)

  /** How a handler ends. `Killed` is an exception that none of the handlers of exceptions catches. */
  datatype HandlerEnd = Next(status: Status) | NoChange | ControlSeen | Recoverable | Fatal | Killed

  /** One step of a run. `Outside` is any other client of the repository. */
  datatype Step =
    | Submitting(id: Id, version: nat)
    | SchedulingActive(id: Id)
    | Resuming(caller: nat, id: Id)
    | SchedulingResumed(caller: nat, readable: bool)
    | Undo(caller: nat)
    | Recovering(id: Id, version: nat)
    | Closing
    | Outside(id: Id, task: Task)
    | Work(worker: nat)
    | HandlerEnds(worker: nat, end: HandlerEnd)
    | RepositoryFails(worker: nat)

  /** Two reads of `check_control`, around the handler, and one just before the transition. */
  predicate Unchanged(r: Repository, id: Id, version: nat) {
    id in r && Version(r, id) == version && Current(r, id).status !in {Paused, Cancelled}
  }

  /** The head of the loop in `_run_claimed`. */
  function Onward(c: Settings, id: Id, version: nat, status: Status): Worker {
    if status in c.handlers then Checking(id, version, status) else Finishing(id, false)
  }

  /** The next thing a worker does, and what it does to repository and board. */
  function WorkerStep(c: Settings, r: Repository, b: Board, w: Worker): (Repository, Board, Worker) {
    match w
    case Idle =>
      if b.queue != [] then (r, b.(queue := b.queue[1..]), Got(b.queue[0].id, b.queue[0].preclaimed))
      else if b.closing then (r, b, Gone) else (r, b, Idle)
    case Got(id, preclaimed) =>
      if id !in r then (r, b, Finishing(id, false))
      else if preclaimed then (r, b, Onward(c, id, Version(r, id), Current(r, id).status))
      else if Current(r, id).status == Created then (r, b, Claiming(id, Version(r, id), Probing))
      else if Current(r, id).status == Ready then (r, b, Claiming(id, Version(r, id), Crawling))
      else (r, b, Finishing(id, false))
    case Claiming(id, version, target) =>
      var t := Transition(r, id, target, version);
      if t.Accepted? then (t.repo, b, Onward(c, id, version + 1, target)) else (r, b, Finishing(id, false))
    case Checking(id, version, status) =>
      (r, b, if Unchanged(r, id, version) then Handling(id, version, status) else Finishing(id, false))
    case Handling(_, _, _) => (r, b, w)
    case Returned(id, version, status, next) =>
      (r, b, if Unchanged(r, id, version) then Comparing(id, version, status, next) else Finishing(id, false))
    case Comparing(id, version, status, next) =>
      (r, b, if id in r && Version(r, id) == version && Current(r, id).status == status
             then Moving(id, version, status, next) else Finishing(id, false))
    case Moving(id, version, status, next) =>
      var t := Transition(r, id, next, version);
      if t.Accepted? then (t.repo, b, if next == Ready then HandingOff(id, version + 1) else Onward(c, id, version + 1, next))
      else (r, b, Failing(id, RecoverableFailed, 3))
    case HandingOff(id, version) =>
      var t := Transition(r, id, Crawling, version);
      if t.Accepted? then (t.repo, b, Onward(c, id, version + 1, Crawling)) else (r, b, Failing(id, RecoverableFailed, 3))
    case Failing(id, target, attempts) =>
      (r, b, if attempts == 0 || id !in r || Frozen(Current(r, id).status) then Finishing(id, false)
             else FailMoving(id, Version(r, id), target, attempts))
    case FailMoving(id, version, target, attempts) =>
      var t := Transition(r, id, target, version);
      if t.Accepted? then (t.repo, b, Finishing(id, false))
      else (r, b, if attempts == 0 then Finishing(id, false) else Failing(id, target, attempts - 1))
    case Finishing(id, dying) =>
      var (b', resume) := Finish(b, c.capacity, id);
      (r, b', if resume.Some? then Reading(id, resume.value.rollback, dying) else if dying then Gone else Idle)
    case Reading(id, target, dying) =>
      (r, b, if id in r then RollingBack(id, Version(r, id), Current(r, id).status, target, 8, dying) else Gone)
    case RollingBack(id, version, status, target, attempts, dying) =>
      if attempts == 0 then (r, b, Gone)
      else if Frozen(status) then (r, b, if dying then Gone else Idle)
      else (match Transition(r, id, target, version)
        case Accepted(r') => (r', b, if dying then Gone else Idle)
        case VersionConflict => (r, b, RollingBack(id, Version(r, id), Current(r, id).status, target, attempts - 1, dying))
        case _ => (r, b, Gone))
    case Gone => (r, b, Gone)
  }

  function HandlerReturns(w: Worker, end: HandlerEnd): Worker
    requires w.Handling?
  {
    match end
    case Next(next) => Returned(w.id, w.version, w.status, next)
    case NoChange => Finishing(w.id, false)
    case ControlSeen => Finishing(w.id, false)
    case Recoverable => Failing(w.id, RecoverableFailed, 3)
    case Fatal => Failing(w.id, TerminalFailed, 3)
    case Killed => Finishing(w.id, true)
  }

  /** A repository error that none of the handlers names ends the worker, after its `finally`. */
  function Broken(w: Worker): Worker {
    if w.Got? || w.Claiming? || w.Failing? || w.FailMoving? then Finishing(w.id, true)
    else if w.Checking? || w.Returned? || w.Comparing? || w.Moving? then Failing(w.id, RecoverableFailed, 3)
    else if w.HandingOff? then Failing(w.id, RecoverableFailed, 3)
    else if w.Reading? || w.RollingBack? then Gone
    else w
  }

  function CallerUndo(r: Repository, k: Caller): (Repository, Caller)
    requires k.Undoing?
  {
    if k.attempts == 0 || Frozen(k.status) then (r, Away)
    else match Transition(r, k.id, k.target, k.version)
      case Accepted(r') => (r', Away)
      case VersionConflict => (r, Undoing(k.id, Version(r, k.id), Current(r, k.id).status, k.target, k.attempts - 1))
      case _ => (r, Away)
  }

  /** `resume` up to and including its transition, in one read and one accepted write. */
  function Resumption(r: Repository, id: Id): Option<(Repository, Caller)> {
    if id !in r || !Resumable(Current(r, id).status) || Current(r, id).cleanup || Current(r, id).resume.None? then None
    else
      var target := Current(r, id).resume.value;
      var t := Transition(r, id, target, Version(r, id));
      if !t.Accepted? then None
      else Some((t.repo, if target == WaitingForUser then Away
                         else Resumed(id, Version(r, id) + 1, target, Current(r, id).status)))
  }

  function Take(c: Settings, s: State, step: Step): State {
    match step
    case Submitting(id, version) =>
      if id in s.repo && version <= Version(s.repo, id)
      then s.(board := Submit(s.board, c.capacity, id, s.repo[id][version].status, version).0) else s
    case SchedulingActive(id) =>
      if id in s.repo
      then s.(board := ScheduleActive(s.board, c.capacity, id, Current(s.repo, id).status, Version(s.repo, id)).0) else s
    case Resuming(n, id) =>
      if n < |s.callers| && s.callers[n].Away? && Resumption(s.repo, id).Some?
      then s.(repo := Resumption(s.repo, id).value.0, callers := s.callers[n := Resumption(s.repo, id).value.1]) else s
    case SchedulingResumed(n, readable) =>
      if n < |s.callers| && s.callers[n].Resumed?
      then
        var k := s.callers[n];
        var version := if readable && k.id in s.repo then Some(Version(s.repo, k.id)) else None;
        var (b, reply) := ScheduleResumed(s.board, c.capacity, k.id, version, Resume(k.status in Interrupted, k.from));
        s.(board := b,
           callers := s.callers[n := if reply.Closed? || reply.Full? then Undoing(k.id, k.version, k.status, k.from, 8) else Away])
      else s
    case Undo(n) =>
      if n < |s.callers| && s.callers[n].Undoing?
      then s.(repo := CallerUndo(s.repo, s.callers[n]).0, callers := s.callers[n := CallerUndo(s.repo, s.callers[n]).1]) else s
    case Recovering(id, version) =>
      if id in s.repo && version <= Version(s.repo, id) && s.repo[id][version].status in Interrupted
         && Transition(s.repo, id, RecoverableFailed, version).Accepted?
      then s.(repo := Transition(s.repo, id, RecoverableFailed, version).repo) else s
    case Closing => s.(board := s.board.(closing := true))
    case Outside(id, task) =>
      s.(repo := s.repo[id := if id in s.repo then s.repo[id] + [task] else [task]])
    case Work(n) =>
      if n < |s.workers|
      then
        var (r, b, w) := WorkerStep(c, s.repo, s.board, s.workers[n]);
        s.(repo := r, board := b, workers := s.workers[n := w])
      else s
    case HandlerEnds(n, end) =>
      if n < |s.workers| && s.workers[n].Handling?
      then s.(workers := s.workers[n := HandlerReturns(s.workers[n], end)]) else s
    case RepositoryFails(n) =>
      if n < |s.workers| then s.(workers := s.workers[n := Broken(s.workers[n])]) else s
  }

  function Play(c: Settings, s: State, steps: seq<Step>): State
    decreases |steps|
  {
    if steps == [] then s else Play(c, Take(c, s, steps[0]), steps[1..])
  }

  /** An executor that has just been built: nothing scheduled, all workers idle. */
  predicate Fresh(s: State) {
    && s.board == Board([], {}, map[], map[], false)
    && (forall n :: 0 <= n < |s.workers| ==> s.workers[n].Idle?)
    && (forall n :: 0 <= n < |s.callers| ==> s.callers[n].Away?)
  }
}
