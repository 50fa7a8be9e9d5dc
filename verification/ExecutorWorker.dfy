/** The loops that the executor's worker threads run, with other threads acting between any two of
 *  their calls, proved to take exactly the steps of `ExecutorMachine`. */
module ExecutorWorker {
  import opened Basics
  import opened TaskRepository
  import opened Machine = ExecutorMachine
  import Laws = ExecutorLaws
  import opened ExecutorObject

  /** The executor's shared state and the repository behind it. The ghost fields record the history:
   *  `state` is what playing `trace` from `origin` gives. */
  class Shared {
    const settings: Settings
    const executor: BackgroundTaskExecutor
    var repo: Repository
    ghost var origin: State
    ghost var trace: seq<Step>
    ghost var state: State

    constructor (settings: Settings, executor: BackgroundTaskExecutor, repo: Repository, ghost workers: nat)
      requires executor.Valid() && executor.capacity == settings.capacity
      ensures Valid() && this.settings == settings && this.executor == executor && this.repo == repo
      ensures trace == [] && |state.workers| == workers && forall n :: 0 <= n < workers ==> state.workers[n] == Idle
    {
      this.settings, this.executor, this.repo := settings, executor, repo;
      var start := State(repo, executor.Board(), seq(workers, _ => Idle), []);
      origin, trace, state := start, [], start;
    }

    ghost predicate Valid()
      reads this, executor
    {
      && executor.Valid() && executor.capacity == settings.capacity && state == Play(settings, origin, trace)
      && state.board == executor.Board() && state.repo == repo
    }

    /** Anything anybody else may do: other workers, callers of the executor, other clients of the
     *  repository. The body does nothing; callers know only that steps of others have been taken. */
    method Others(ghost n: nat)
      requires Valid() && n < |state.workers|
      modifies this, executor
      ensures Valid() && origin == old(origin) && old(trace) <= trace
      ensures n < |state.workers| && state.workers[n] == old(state.workers[n])
    {
    }

    /** One step of the machine has just been carried out on the concrete state. */
    ghost method Record(step: Step)
      requires executor.Valid() && executor.capacity == settings.capacity && state == Play(settings, origin, trace)
      requires Take(settings, state, step).board == executor.Board() && Take(settings, state, step).repo == repo
      modifies this`trace, this`state
      ensures Valid() && trace == old(trace) + [step] && state == old(Take(settings, state, step))
    {
      PlayMore(settings, origin, trace, step);
      trace := trace + [step];
      state := Take(settings, state, step);
    }

    /** The worker has just carried out its next step, and is now at `w`. */
    ghost method Advance(n: nat, w: Worker)
      requires executor.Valid() && executor.capacity == settings.capacity && state == Play(settings, origin, trace)
      requires n < |state.workers|
      requires WorkerStep(settings, state.repo, state.board, state.workers[n]) == (repo, executor.Board(), w)
      modifies this`trace, this`state
      ensures Valid() && old(trace) <= trace && n < |state.workers| && state.workers[n] == w
    {
      Record(Work(n));
    }

    /** The repository has just raised an error that nobody names. */
    ghost method Break(n: nat)
      requires Valid() && n < |state.workers|
      modifies this`trace, this`state
      ensures Valid() && old(trace) <= trace && n < |state.workers| && state.workers[n] == Broken(old(state.workers[n]))
    {
      Record(RepositoryFails(n));
    }

    /** The compare-and-swap of `transition`. */
    method Change(id: Id, to: Status, expected: nat) returns (outcome: Outcome)
      modifies this`repo
      ensures outcome == Transition(old(repo), id, to, expected)
      ensures repo == if outcome.Accepted? then outcome.repo else old(repo)
    {
      if id !in repo {
        return NotFound;
      }
      if Version(repo, id) != expected {
        return VersionConflict;
      }
      if !MayBecome(Current(repo, id), to) {
        return InvalidTransition;
      }
      repo := repo[id := repo[id] + [Moved(Current(repo, id), to)]];
      outcome := Accepted(repo);
    }
  }

  lemma {:induction false} PlayMore(c: Settings, s: State, steps: seq<Step>, last: Step)
    ensures Play(c, s, steps + [last]) == Take(c, Play(c, s, steps), last)
    decreases |steps|
  {
    if steps == [] {
      assert steps + [last] == [last] && [last][1..] == [];
    } else {
      PlayMore(c, Take(c, s, steps[0]), steps[1..], last);
      assert (steps + [last])[0] == steps[0] && (steps + [last])[1..] == steps[1..] + [last];
    }
  }

  class TaskWorker {
    const shared: Shared
    const n: nat

    constructor (shared: Shared, n: nat)
      ensures this.shared == shared && this.n == n
    {
      this.shared, this.n := shared, n;
    }

    /** The machine has this worker where the thread is, with the same local variables. */
    ghost predicate At(w: Worker)
      reads shared
    {
      n < |shared.state.workers| && shared.state.workers[n] == w
    }

    /** Whether the repository answers; an error nobody names is raised otherwise. */
    method Answers() returns (ok: bool) {
      ok := *;
    }

    /** A handler may do anything to the site it crawls; here only how it ends matters. */
    method RunHandler() returns (end: HandlerEnd) {
      end := *;
    }

    /** `_claim`, or the plain read of a task that has been claimed before. */
    method Claim(id: Id, preclaimed: bool) returns (w: Worker)
      requires shared.Valid() && At(Got(id, preclaimed))
      modifies shared, shared.executor
      ensures shared.Valid() && shared.origin == old(shared.origin) && old(shared.trace) <= shared.trace
      ensures At(w) && Laws.Held(w) == Some(id) && (w.Checking? || w.Finishing?)
    {
      shared.Others(n);
      var ok := Answers();
      if !ok {
        shared.Break(n);
        return Finishing(id, true);
      }
      w := Finishing(id, false);
      if id in shared.repo {
        var version, status := Version(shared.repo, id), Current(shared.repo, id).status;
        if preclaimed {
          w := Onward(shared.settings, id, version, status);
        } else if status == Created {
          w := Claiming(id, version, Probing);
        } else if status == Ready {
          w := Claiming(id, version, Crawling);
        }
      }
      shared.Advance(n, w);
      if w.Claiming? {
        w := TakeOver(w);
      }
    }

    /** The transition of `_claim`. */
    method TakeOver(w0: Worker) returns (w: Worker)
      requires shared.Valid() && w0.Claiming? && At(w0)
      modifies shared, shared.executor
      ensures shared.Valid() && shared.origin == old(shared.origin) && old(shared.trace) <= shared.trace
      ensures At(w) && Laws.Held(w) == Some(w0.id) && (w.Checking? || w.Finishing?)
    {
      shared.Others(n);
      var ok := Answers();
      if !ok {
        shared.Break(n);
        return Finishing(w0.id, true);
      }
      var outcome := shared.Change(w0.id, w0.target, w0.version);
      w := if outcome.Accepted? then Onward(shared.settings, w0.id, w0.version + 1, w0.target) else Finishing(w0.id, false);
      shared.Advance(n, w);
    }

    /** `check_control`, before the handler. */
    method CheckControl(w0: Worker) returns (w: Worker)
      requires shared.Valid() && w0.Checking? && At(w0)
      modifies shared, shared.executor
      ensures shared.Valid() && shared.origin == old(shared.origin) && old(shared.trace) <= shared.trace
      ensures At(w) && Laws.Held(w) == Some(w0.id)
      ensures w == Handling(w0.id, w0.version, w0.status) || w.Finishing? || w.Failing?
    {
      shared.Others(n);
      var ok := Answers();
      if !ok {
        shared.Break(n);
        return Failing(w0.id, RecoverableFailed, 3);
      }
      w := if Unchanged(shared.repo, w0.id, w0.version) then Handling(w0.id, w0.version, w0.status) else Finishing(w0.id, false);
      shared.Advance(n, w);
    }

    /** The handler, and `check_control` behind it. */
    method Handle(w0: Worker) returns (w: Worker)
      requires shared.Valid() && w0.Handling? && At(w0)
      modifies shared, shared.executor
      ensures shared.Valid() && shared.origin == old(shared.origin) && old(shared.trace) <= shared.trace
      ensures At(w) && Laws.Held(w) == Some(w0.id) && (w.Comparing? || w.Finishing? || w.Failing?)
    {
      shared.Others(n);
      var end := RunHandler();
      w := HandlerReturns(w0, end);
      shared.Record(HandlerEnds(n, end));
      if w.Returned? {
        shared.Others(n);
        var ok := Answers();
        if !ok {
          shared.Break(n);
          return Failing(w0.id, RecoverableFailed, 3);
        }
        w := if Unchanged(shared.repo, w.id, w.version) then Comparing(w.id, w.version, w.status, w.next) else Finishing(w.id, false);
        shared.Advance(n, w);
      }
    }

    /** The last look at the task before its result is written. */
    method Compare(w0: Worker) returns (w: Worker)
      requires shared.Valid() && w0.Comparing? && At(w0)
      modifies shared, shared.executor
      ensures shared.Valid() && shared.origin == old(shared.origin) && old(shared.trace) <= shared.trace
      ensures At(w) && Laws.Held(w) == Some(w0.id) && (w.Moving? || w.Finishing? || w.Failing?)
    {
      shared.Others(n);
      var ok := Answers();
      if !ok {
        shared.Break(n);
        return Failing(w0.id, RecoverableFailed, 3);
      }
      w := Finishing(w0.id, false);
      if w0.id in shared.repo && Version(shared.repo, w0.id) == w0.version && Current(shared.repo, w0.id).status == w0.status {
        w := Moving(w0.id, w0.version, w0.status, w0.next);
      }
      shared.Advance(n, w);
    }

    /** The handler's result, written on top of the version the handler was given. */
    method WriteResult(w0: Worker) returns (w: Worker)
      requires shared.Valid() && w0.Moving? && At(w0)
      modifies shared, shared.executor
      ensures shared.Valid() && shared.origin == old(shared.origin) && old(shared.trace) <= shared.trace
      ensures At(w) && Laws.Held(w) == Some(w0.id) && (w.Checking? || w.HandingOff? || w.Finishing? || w.Failing?)
    {
      shared.Others(n);
      w := Failing(w0.id, RecoverableFailed, 3);
      var ok := Answers();
      if !ok {
        shared.Break(n);
        return;
      }
      var outcome := shared.Change(w0.id, w0.next, w0.version);
      if outcome.Accepted? {
        w := if w0.next == Ready then HandingOff(w0.id, w0.version + 1) else Onward(shared.settings, w0.id, w0.version + 1, w0.next);
      }
      shared.Advance(n, w);
    }

    /** A task that is ready goes straight on to crawling. */
    method HandOff(w0: Worker) returns (w: Worker)
      requires shared.Valid() && w0.HandingOff? && At(w0)
      modifies shared, shared.executor
      ensures shared.Valid() && shared.origin == old(shared.origin) && old(shared.trace) <= shared.trace
      ensures At(w) && Laws.Held(w) == Some(w0.id) && (w.Checking? || w.Finishing? || w.Failing?)
    {
      shared.Others(n);
      w := Failing(w0.id, RecoverableFailed, 3);
      var ok := Answers();
      if !ok {
        shared.Break(n);
        return;
      }
      var outcome := shared.Change(w0.id, Crawling, w0.version);
      if outcome.Accepted? {
        w := Onward(shared.settings, w0.id, w0.version + 1, Crawling);
      }
      shared.Advance(n, w);
    }

    /** `_run_claimed`, for at most so many turns of its loop. */
    method RunClaimed(w0: Worker, turns: nat) returns (w: Worker)
      requires shared.Valid() && w0.Checking? && At(w0)
      modifies shared, shared.executor
      ensures shared.Valid() && shared.origin == old(shared.origin) && old(shared.trace) <= shared.trace
      ensures At(w) && Laws.Held(w) == Some(w0.id) && (w.Finishing? || w.Checking?)
    {
      w := w0;
      var left := turns;
      while w.Checking? && left > 0
        invariant shared.Valid() && shared.origin == old(shared.origin) && old(shared.trace) <= shared.trace
        invariant At(w) && Laws.Held(w) == Some(w0.id) && (w.Checking? || w.Finishing? || w.Failing?)
        decreases left
      {
        left := left - 1;
        w := CheckControl(w);
        if w.Handling? {
          w := Handle(w);
        }
        if w.Comparing? {
          w := Compare(w);
        }
        if w.Moving? {
          w := WriteResult(w);
        }
        if w.HandingOff? {
          w := HandOff(w);
        }
      }
      if w.Failing? {
        w := RecordFailure(w);
      }
    }

    /** `_record_failure`: three attempts, each reading the task anew. */
    method RecordFailure(w0: Worker) returns (w: Worker)
      requires shared.Valid() && w0.Failing? && At(w0)
      modifies shared, shared.executor
      ensures shared.Valid() && shared.origin == old(shared.origin) && old(shared.trace) <= shared.trace
      ensures At(w) && w.Finishing? && Laws.Held(w) == Some(w0.id)
    {
      w := w0;
      while w.Failing?
        invariant shared.Valid() && shared.origin == old(shared.origin) && old(shared.trace) <= shared.trace
        invariant At(w) && (w.Failing? || w.Finishing?) && Laws.Held(w) == Some(w0.id)
        decreases if w.Failing? then w.attempts + 1 else 0
      {
        shared.Others(n);
        var ok := Answers();
        if !ok {
          shared.Break(n);
          return Finishing(w0.id, true);
        }
        if w.attempts == 0 || w.id !in shared.repo || Frozen(Current(shared.repo, w.id).status) {
          w := Finishing(w.id, false);
          shared.Advance(n, w);
        } else {
          w := FailMoving(w.id, Version(shared.repo, w.id), w.target, w.attempts);
          shared.Advance(n, w);
          w := WriteFailure(w);
        }
      }
    }

    method WriteFailure(w0: Worker) returns (w: Worker)
      requires shared.Valid() && w0.FailMoving? && w0.attempts > 0 && At(w0)
      modifies shared, shared.executor
      ensures shared.Valid() && shared.origin == old(shared.origin) && old(shared.trace) <= shared.trace
      ensures At(w) && Laws.Held(w) == Some(w0.id) && (w.Finishing? || (w.Failing? && w.attempts == w0.attempts - 1))
    {
      shared.Others(n);
      var ok := Answers();
      if !ok {
        shared.Break(n);
        return Finishing(w0.id, true);
      }
      var outcome := shared.Change(w0.id, w0.target, w0.version);
      w := if outcome.Accepted? then Finishing(w0.id, false) else Failing(w0.id, w0.target, w0.attempts - 1);
      shared.Advance(n, w);
    }

    /** The `finally` block, and the rollback of a resume that found no place. */
    method Finish(w0: Worker) returns (w: Worker)
      requires shared.Valid() && w0.Finishing? && At(w0)
      modifies shared, shared.executor
      ensures shared.Valid() && shared.origin == old(shared.origin) && old(shared.trace) <= shared.trace
      ensures At(w) && (w.Idle? || w.Gone?)
    {
      shared.Others(n);
      var resume := shared.executor.Finish(w0.id);
      w := if resume.Some? then Reading(w0.id, resume.value.rollback, w0.dying) else if w0.dying then Gone else Idle;
      shared.Advance(n, w);
      if w.Reading? {
        w := ReadBack(w);
      }
    }

    method ReadBack(w0: Worker) returns (w: Worker)
      requires shared.Valid() && w0.Reading? && At(w0)
      modifies shared, shared.executor
      ensures shared.Valid() && shared.origin == old(shared.origin) && old(shared.trace) <= shared.trace
      ensures At(w) && (w.Idle? || w.Gone?)
    {
      shared.Others(n);
      var ok := Answers();
      if !ok {
        shared.Break(n);
        return Gone;
      }
      w := Gone;
      if w0.id in shared.repo {
        w := RollingBack(
          w0.id, Version(shared.repo, w0.id), Current(shared.repo, w0.id).status, w0.target, 8, w0.dying);
      }
      shared.Advance(n, w);
      if w.RollingBack? {
        w := RollbackResume(w);
      }
    }

    /** `_rollback_resume`: eight attempts, until somebody else has stopped the task. */
    method RollbackResume(w0: Worker) returns (w: Worker)
      requires shared.Valid() && w0.RollingBack? && At(w0)
      modifies shared, shared.executor
      ensures shared.Valid() && shared.origin == old(shared.origin) && old(shared.trace) <= shared.trace
      ensures At(w) && (w.Idle? || w.Gone?)
    {
      w := w0;
      while w.RollingBack?
        invariant shared.Valid() && shared.origin == old(shared.origin) && old(shared.trace) <= shared.trace
        invariant At(w) && (w.RollingBack? || w.Idle? || w.Gone?)
        decreases if w.RollingBack? then w.attempts + 1 else 0
      {
        w := TryRollback(w);
      }
    }

    method TryRollback(w0: Worker) returns (w: Worker)
      requires shared.Valid() && w0.RollingBack? && At(w0)
      modifies shared, shared.executor
      ensures shared.Valid() && shared.origin == old(shared.origin) && old(shared.trace) <= shared.trace
      ensures At(w) && (w.Idle? || w.Gone? || (w.RollingBack? && w.attempts < w0.attempts))
    {
      shared.Others(n);
      w := Gone;
      var ok := Answers();
      if !ok {
        shared.Break(n);
        return;
      }
      if w0.attempts > 0 {
        if Frozen(w0.status) {
          w := if w0.dying then Gone else Idle;
        } else {
          w := PutBack(w0);
        }
      }
      shared.Advance(n, w);
    }

    /** The transition of a rollback; a conflict means another try on what is there now. */
    method PutBack(w0: Worker) returns (w: Worker)
      requires w0.RollingBack? && w0.attempts > 0
      modifies shared`repo
      ensures match Transition(old(shared.repo), w0.id, w0.target, w0.version)
        case Accepted(r') => shared.repo == r' && w == if w0.dying then Gone else Idle
        case VersionConflict =>
          && shared.repo == old(shared.repo)
          && w == RollingBack(w0.id, Version(shared.repo, w0.id), Current(shared.repo, w0.id).status, w0.target, w0.attempts - 1, w0.dying)
        case _ => shared.repo == old(shared.repo) && w == Gone
    {
      var outcome := shared.Change(w0.id, w0.target, w0.version);
      match outcome {
        case Accepted(_) => w := if w0.dying then Gone else Idle;
        case VersionConflict =>
          w := RollingBack(
            w0.id, Version(shared.repo, w0.id), Current(shared.repo, w0.id).status, w0.target, w0.attempts - 1, w0.dying);
        case _ => w := Gone;
      }
    }

    /** One turn of `_worker`. It ends between two tasks, or dead, unless the handlers of one task
     *  have used up all turns of their own loop. */
    method Work(turns: nat) returns (w: Worker)
      requires shared.Valid() && At(Idle)
      modifies shared, shared.executor
      ensures shared.Valid() && shared.origin == old(shared.origin) && old(shared.trace) <= shared.trace
      ensures At(w) && (w.Idle? || w.Gone? || w.Checking?)
    {
      shared.Others(n);
      var job, stop := shared.executor.Get();
      w := if job.Some? then Got(job.value.id, job.value.preclaimed) else if stop then Gone else Idle;
      shared.Advance(n, w);
      if w.Got? {
        w := Claim(w.id, w.preclaimed);
        if w.Checking? {
          w := RunClaimed(w, turns);
        }
        if w.Finishing? {
          w := Finish(w);
        }
      }
    }

    /** However this turn goes, and whatever others do meanwhile: queue and marks are in order
     *  afterwards if and only if no mark has leaked. */
    method WorkInOrder(turns: nat) returns (w: Worker)
      requires shared.Valid() && At(Idle) && Laws.BoardOk(shared.settings, shared.origin.board, shared.origin.workers)
      modifies shared, shared.executor
      ensures shared.Valid() && At(w) && shared.origin == old(shared.origin) && old(shared.trace) <= shared.trace
      ensures Laws.NoLeak(shared.settings, shared.origin, shared.trace) <==>
        Laws.BoardOk(shared.settings, shared.executor.Board(), shared.state.workers)
    {
      w := Work(turns);
      Laws.PlayKeepsBoard(shared.settings, shared.origin, shared.trace);
    }
  }
}
