/** What holds in every reachable state of the executor, and what no worker and no recovery can do. */
module ExecutorLaws {
  import opened Basics
  import opened TaskRepository
  import opened ExecutorMachine

  // ---------------------------------------------------------------- who holds what

  /** The task a worker has taken off the queue and not yet finished with. */
  function Held(w: Worker): Option<Id> {
    match w
    case Idle => None
    case Gone => None
    case Reading(_, _, _) => None
    case RollingBack(_, _, _, _, _, _) => None
    case _ => Some(w.id)
  }

  ghost predicate Queued(b: Board, id: Id) {
    exists i :: 0 <= i < |b.queue| && b.queue[i].id == id
  }

  ghost predicate Running(workers: seq<Worker>, id: Id) {
    exists n :: 0 <= n < |workers| && Held(workers[n]) == Some(id)
  }

  /** No task sits in the queue twice. */
  ghost predicate QueueDistinct(b: Board) {
    forall i, j :: 0 <= i < j < |b.queue| ==> b.queue[i].id != b.queue[j].id
  }

  /** No two workers run the same task. */
  ghost predicate RunDistinct(workers: seq<Worker>) {
    forall m, n :: 0 <= m < n < |workers| && Held(workers[m]).Some? ==> Held(workers[m]) != Held(workers[n])
  }

  ghost predicate Apart(b: Board, workers: seq<Worker>) {
    forall i, n :: 0 <= i < |b.queue| && 0 <= n < |workers| ==> Held(workers[n]) != Some(b.queue[i].id)
  }

  /** A task is scheduled exactly when it sits in the queue once or is run by one worker, never
   *  both; versions are kept for exactly these tasks, resumes are pending only for these, and the
   *  queue stays within its bound. */
  ghost predicate BoardOk(c: Settings, b: Board, workers: seq<Worker>) {
    && QueueDistinct(b) && RunDistinct(workers) && Apart(b, workers)
    && (forall id :: id in b.scheduled <==> Queued(b, id) || Running(workers, id))
    && b.versions.Keys == b.scheduled && b.pending.Keys <= b.scheduled
    && |b.queue| <= c.capacity
  }

  // ---------------------------------------------------------------- blocks keep the board

  lemma EnqueueKeeps(c: Settings, b: Board, workers: seq<Worker>, job: Job, version: nat)
    requires BoardOk(c, b, workers) && job.id !in b.scheduled
    ensures BoardOk(c, Enqueue(b, c.capacity, job, version).0, workers)
  {
    var b' := Enqueue(b, c.capacity, job, version).0;
    if |b.queue| < c.capacity {
      forall i | 0 <= i < |b.queue| ensures b.queue[i].id != job.id {
        assert Queued(b, b.queue[i].id);
      }
      forall n | 0 <= n < |workers| ensures Held(workers[n]) != Some(job.id) {}
      forall id ensures Queued(b', id) <==> Queued(b, id) || id == job.id {
        QueuedAfterPush(b, job, id);
      }
    }
  }

  lemma QueuedAfterPush(b: Board, job: Job, id: Id)
    ensures Queued(b.(queue := b.queue + [job]), id) <==> Queued(b, id) || id == job.id
  {
    var b' := b.(queue := b.queue + [job]);
    assert b'.queue[|b.queue|] == job;
    if Queued(b, id) {
      var i :| 0 <= i < |b.queue| && b.queue[i].id == id;
      assert b'.queue[i].id == id;
    }
  }

  /** Submitting, scheduling an active task and scheduling a resumed one keep the board, as long as
   *  the last of them can read the repository or finds the task scheduled already. */
  lemma SchedulingKeeps(c: Settings, b: Board, workers: seq<Worker>, id: Id, status: Status, version: nat)
    requires BoardOk(c, b, workers)
    ensures BoardOk(c, Submit(b, c.capacity, id, status, version).0, workers)
    ensures BoardOk(c, ScheduleActive(b, c.capacity, id, status, version).0, workers)
  {
    if id !in b.scheduled {
      EnqueueKeeps(c, b, workers, Job(id, false), version);
      EnqueueKeeps(c, b, workers, Job(id, true), version);
    } else {
      SameQueue(c, b, Submit(b, c.capacity, id, status, version).0, workers);
      SameQueue(c, b, ScheduleActive(b, c.capacity, id, status, version).0, workers);
    }
  }

  lemma SameQueue(c: Settings, b: Board, b': Board, workers: seq<Worker>)
    requires BoardOk(c, b, workers) && b'.queue == b.queue && b'.scheduled == b.scheduled
    requires b'.versions.Keys == b'.scheduled && b'.pending.Keys <= b'.scheduled
    ensures BoardOk(c, b', workers)
  {
    forall id ensures Queued(b', id) <==> Queued(b, id) {}
  }

  /** Exactly when scheduling a resumed task keeps the board: a repository that cannot be read just
   *  then leaves the task marked as scheduled although nobody holds it. */
  lemma ResumedKeepsUnlessUnread(c: Settings, b: Board, workers: seq<Worker>, id: Id, version: Option<nat>, resume: Resume)
    requires BoardOk(c, b, workers)
    ensures BoardOk(c, ScheduleResumed(b, c.capacity, id, version, resume).0, workers)
      <==> b.closing || id in b.scheduled || version.Some?
  {
    var b' := ScheduleResumed(b, c.capacity, id, version, resume).0;
    if b.closing {
    } else if id in b.scheduled {
      SameQueue(c, b, b', workers);
    } else if version.Some? {
      EnqueueKeeps(c, b, workers, Job(id, resume.preclaimed), version.value);
    } else {
      assert b'.versions.Keys != b'.scheduled;
    }
  }

  // ---------------------------------------------------------------- workers keep the board

  lemma RunningAfter(workers: seq<Worker>, n: nat, w: Worker, id: Id)
    requires n < |workers| && RunDistinct(workers)
    ensures Running(workers[n := w], id) <==> Held(w) == Some(id) || (Running(workers, id) && Held(workers[n]) != Some(id))
  {
    var after := workers[n := w];
    if Running(workers, id) && Held(workers[n]) != Some(id) {
      var m :| 0 <= m < |workers| && Held(workers[m]) == Some(id);
      assert after[m] == workers[m];
    }
    if Held(w) == Some(id) {
      assert after[n] == w;
    }
    if Running(after, id) && Held(w) != Some(id) {
      var m :| 0 <= m < |after| && Held(after[m]) == Some(id);
      assert workers[m] == after[m];
    }
  }

  /** A worker that moves on without touching the queue. */
  lemma MoveOnKeeps(c: Settings, b: Board, workers: seq<Worker>, n: nat, w: Worker)
    requires BoardOk(c, b, workers) && n < |workers| && Held(w) == Held(workers[n])
    ensures BoardOk(c, b, workers[n := w])
  {
    forall id ensures Running(workers[n := w], id) <==> Running(workers, id) {
      RunningAfter(workers, n, w, id);
      assert Held(workers[n]) == Some(id) ==> Running(workers, id);
    }
  }

  lemma PopKeeps(c: Settings, b: Board, workers: seq<Worker>, n: nat, w: Worker)
    requires BoardOk(c, b, workers) && n < |workers| && Held(workers[n]).None? && b.queue != []
    requires Held(w) == Some(b.queue[0].id)
    ensures BoardOk(c, b.(queue := b.queue[1..]), workers[n := w])
  {
    var b', job := b.(queue := b.queue[1..]), b.queue[0];
    forall m | 0 <= m < |workers| ensures Held(workers[m]) != Some(job.id) {}
    forall i | 0 <= i < |b'.queue| ensures b'.queue[i] == b.queue[i + 1] && b'.queue[i].id != job.id {}
    assert Queued(b, job.id);
    forall id ensures id in b'.scheduled <==> Queued(b', id) || Running(workers[n := w], id) {
      QueuedAfterPop(b, id);
      RunningAfter(workers, n, w, id);
      assert id in b.scheduled <==> Queued(b, id) || Running(workers, id);
    }
  }

  lemma QueuedAfterPop(b: Board, id: Id)
    requires QueueDistinct(b) && b.queue != []
    ensures Queued(b.(queue := b.queue[1..]), id) <==> Queued(b, id) && id != b.queue[0].id
  {
    var b' := b.(queue := b.queue[1..]);
    if Queued(b, id) && id != b.queue[0].id {
      var i :| 0 <= i < |b.queue| && b.queue[i].id == id;
      assert b'.queue[i - 1].id == id;
    }
    if Queued(b', id) {
      var i :| 0 <= i < |b'.queue| && b'.queue[i].id == id;
      assert b.queue[i + 1].id == id;
    }
  }

  lemma ReleaseKeeps(c: Settings, b: Board, workers: seq<Worker>, n: nat, w: Worker, id: Id)
    requires BoardOk(c, b, workers) && n < |workers| && Held(workers[n]) == Some(id) && Held(w).None?
    ensures id in b.scheduled
    ensures BoardOk(c, b.(scheduled := b.scheduled - {id}, versions := b.versions - {id}, pending := b.pending - {id}),
                    workers[n := w])
  {
    assert Running(workers, id);
    var b' := b.(scheduled := b.scheduled - {id}, versions := b.versions - {id}, pending := b.pending - {id});
    forall x ensures Queued(b', x) <==> Queued(b, x) {}
    forall x ensures Running(workers[n := w], x) <==> Running(workers, x) && x != id {
      RunningAfter(workers, n, w, x);
    }
    assert !Queued(b, id);
  }

  lemma FinishKeeps(c: Settings, b: Board, workers: seq<Worker>, n: nat, w: Worker, id: Id)
    requires BoardOk(c, b, workers) && n < |workers| && Held(workers[n]) == Some(id) && Held(w).None?
    ensures BoardOk(c, Finish(b, c.capacity, id).0, workers[n := w])
  {
    ReleaseKeeps(c, b, workers, n, w, id);
    var freed := b.(scheduled := b.scheduled - {id}, versions := b.versions - {id}, pending := b.pending - {id});
    if id in b.pending && !b.closing && |b.queue| < c.capacity {
      var again := Enqueue(freed, c.capacity, Job(id, b.pending[id].preclaimed), b.versions[id]).0;
      EnqueueKeeps(c, freed, workers[n := w], Job(id, b.pending[id].preclaimed), b.versions[id]);
      SameQueue(c, again, Finish(b, c.capacity, id).0, workers[n := w]);
    }
  }

  lemma OnlyGettingAndFinishing(c: Settings, r: Repository, b: Board, w: Worker)
    requires !w.Finishing? && !(w.Idle? && b.queue != [])
    ensures WorkerStep(c, r, b, w).1 == b && Held(WorkerStep(c, r, b, w).2) == Held(w)
  {
  }

  lemma WorkerKeepsBoard(c: Settings, r: Repository, b: Board, workers: seq<Worker>, n: nat)
    requires BoardOk(c, b, workers) && n < |workers|
    ensures var (_, b', w) := WorkerStep(c, r, b, workers[n]); BoardOk(c, b', workers[n := w])
  {
    var w := workers[n];
    var (_, b', w') := WorkerStep(c, r, b, w);
    if w.Finishing? {
      FinishKeeps(c, b, workers, n, w', w.id);
    } else if w.Idle? && b.queue != [] {
      PopKeeps(c, b, workers, n, w');
    } else {
      OnlyGettingAndFinishing(c, r, b, w);
      MoveOnKeeps(c, b, workers, n, w');
    }
  }

  // ---------------------------------------------------------------- every run

  /** A resumed task is scheduled while the repository cannot be read. */
  predicate Leaks(s: State, step: Step) {
    && step.SchedulingResumed? && step.caller < |s.callers| && s.callers[step.caller].Resumed?
    && (!step.readable || s.callers[step.caller].id !in s.repo)
    && !s.board.closing && s.callers[step.caller].id !in s.board.scheduled
  }

  /** Every step keeps the bookkeeping, but for exactly one: `_schedule_resumed` marks the task
   *  before it reads the repository, and does not take the mark back when that read fails. */
  lemma TakeKeepsBoard(c: Settings, s: State, step: Step)
    requires BoardOk(c, s.board, s.workers)
    ensures BoardOk(c, Take(c, s, step).board, Take(c, s, step).workers) <==> !Leaks(s, step)
  {
    match step
    case Submitting(id, version) =>
      if id in s.repo && version <= Version(s.repo, id) {
        SchedulingKeeps(c, s.board, s.workers, id, s.repo[id][version].status, version);
      }
    case SchedulingActive(id) =>
      if id in s.repo {
        SchedulingKeeps(c, s.board, s.workers, id, Current(s.repo, id).status, Version(s.repo, id));
      }
    case SchedulingResumed(n, readable) =>
      if n < |s.callers| && s.callers[n].Resumed? {
        var k := s.callers[n];
        var version := if readable && k.id in s.repo then Some(Version(s.repo, k.id)) else None;
        ResumedKeepsUnlessUnread(c, s.board, s.workers, k.id, version, Resume(k.status in Interrupted, k.from));
      }
    case Work(n) =>
      if n < |s.workers| {
        WorkerKeepsBoard(c, s.repo, s.board, s.workers, n);
      }
    case HandlerEnds(n, end) =>
      if n < |s.workers| && s.workers[n].Handling? {
        MoveOnKeeps(c, s.board, s.workers, n, HandlerReturns(s.workers[n], end));
      }
    case RepositoryFails(n) =>
      if n < |s.workers| {
        MoveOnKeeps(c, s.board, s.workers, n, Broken(s.workers[n]));
      }
    case Closing => SameQueue(c, s.board, s.board.(closing := true), s.workers);
    case _ =>
  }

  predicate NoLeak(c: Settings, s: State, steps: seq<Step>)
    decreases |steps|
  {
    steps != [] ==> !Leaks(s, steps[0]) && NoLeak(c, Take(c, s, steps[0]), steps[1..])
  }

  lemma FreshIsOk(c: Settings, s: State)
    requires Fresh(s)
    ensures BoardOk(c, s.board, s.workers)
  {
  }

  // ---------------------------------------------------------------- a leaked mark

  ghost predicate Stuck(s: State, id: Id) {
    id in s.board.scheduled && !Queued(s.board, id) && !Running(s.workers, id)
  }

  /** A task whose mark has leaked is never queued or run again, whatever anybody does: submitting
   *  it is ignored, and resuming it only leaves a resume pending that nobody will pick up. */
  lemma StuckStays(c: Settings, s: State, step: Step, id: Id)
    requires Stuck(s, id)
    ensures Stuck(Take(c, s, step), id)
  {
    var s' := Take(c, s, step);
    if step.Work? && step.worker < |s.workers| {
      WorkerKeepsStuck(c, s, step.worker, id);
    } else {
      QueueOnlyGrowsByUnscheduled(c, s, step, id);
      forall n | 0 <= n < |s'.workers| ensures Held(s'.workers[n]) != Some(id) {
        assert Held(s'.workers[n]) == Held(s.workers[n]);
      }
    }
  }

  lemma {:induction false} StuckForGood(c: Settings, s: State, steps: seq<Step>, id: Id)
    requires Stuck(s, id)
    ensures Stuck(Play(c, s, steps), id)
    decreases |steps|
  {
    if steps != [] {
      StuckStays(c, s, steps[0], id);
      StuckForGood(c, Take(c, s, steps[0]), steps[1..], id);
    }
  }

  lemma LeakSticks(c: Settings, s: State, step: Step)
    requires BoardOk(c, s.board, s.workers) && Leaks(s, step)
    ensures Stuck(Take(c, s, step), s.callers[step.caller].id)
  {
    var id := s.callers[step.caller].id;
    assert !Queued(s.board, id) && !Running(s.workers, id);
  }

  /** Over whole runs: in the end a task is scheduled exactly when it sits in the queue once or is
   *  being run by one worker, if and only if no mark has leaked on the way. */
  lemma {:induction false} PlayKeepsBoard(c: Settings, s: State, steps: seq<Step>)
    requires BoardOk(c, s.board, s.workers)
    ensures BoardOk(c, Play(c, s, steps).board, Play(c, s, steps).workers) <==> NoLeak(c, s, steps)
    decreases |steps|
  {
    if steps != [] {
      TakeKeepsBoard(c, s, steps[0]);
      if Leaks(s, steps[0]) {
        LeakSticks(c, s, steps[0]);
        StuckForGood(c, Take(c, s, steps[0]), steps[1..], s.callers[steps[0].caller].id);
      } else {
        PlayKeepsBoard(c, Take(c, s, steps[0]), steps[1..]);
      }
    }
  }

  /** An executor that has just been built, and a task that was paused before it was ever run. */
  function PausedTask(id: Id): State {
    State(map[id := [Task(Created, None, false), Task(Paused, Some(Created), false)]],
          Board([], {}, map[], map[], false), [Idle], [Away])
  }

  /** Resuming that task while the repository cannot be read leaks its mark. */
  lemma LeakIsReached(c: Settings, id: Id)
    ensures var s := PausedTask(id);
      var steps := [Resuming(0, id), SchedulingResumed(0, false)];
      Fresh(s) && !NoLeak(c, s, steps) && Stuck(Play(c, s, steps), id)
  {
    var s := PausedTask(id);
    var steps := [Resuming(0, id), SchedulingResumed(0, false)];
    var s1 := Take(c, s, steps[0]);
    assert steps[1..] == [SchedulingResumed(0, false)] && steps[1..][1..] == [];
    assert Current(s.repo, id) == Task(Paused, Some(Created), false);
    assert s1.callers[0].Resumed? && s1.callers[0].id == id;
    assert Leaks(s1, steps[1]);
    LeakSticks(c, s1, steps[1]);
    assert Play(c, s, steps) == Play(c, s1, steps[1..]) == Take(c, s1, steps[1]);
  }

  lemma QueueOnlyGrowsByUnscheduled(c: Settings, s: State, step: Step, id: Id)
    requires (step.Work? ==> step.worker >= |s.workers|) && id in s.board.scheduled && !Queued(s.board, id)
    ensures var b := Take(c, s, step).board; id in b.scheduled && !Queued(b, id)
  {
    var b, b' := s.board, Take(c, s, step).board;
    assert b'.queue == b.queue || (b'.queue == b.queue + [b'.queue[|b.queue|]] && b'.queue[|b.queue|].id !in b.scheduled);
    forall i | 0 <= i < |b'.queue| ensures b'.queue[i].id != id {
      if i < |b.queue| {
        assert b'.queue[i] == b.queue[i];
      }
    }
  }

  lemma WorkerKeepsStuck(c: Settings, s: State, n: nat, id: Id)
    requires Stuck(s, id) && n < |s.workers|
    ensures Stuck(Take(c, s, Work(n)), id)
  {
    var b, w := s.board, s.workers[n];
    var (_, b', w') := WorkerStep(c, s.repo, b, w);
    assert Held(w) != Some(id);
    forall i | 0 <= i < |b'.queue| ensures b'.queue[i].id != id {
      if i < |b.queue| - 1 {
        assert b.queue[i].id != id && b.queue[i + 1].id != id;
      }
    }
    assert w.Idle? && b.queue != [] ==> b.queue[0].id != id;
    assert Held(w') != Some(id);
    var after := s.workers[n := w'];
    forall m | 0 <= m < |after| ensures Held(after[m]) != Some(id) {}
  }

  // ---------------------------------------------------------------- what a worker has seen

  /** The task had this status in this version. */
  predicate Was(r: Repository, id: Id, version: nat, status: Status) {
    id in r && version < |r[id]| && r[id][version].status == status
  }

  predicate WasNotFrozen(r: Repository, id: Id, version: nat) {
    id in r && version < |r[id]| && !Frozen(r[id][version].status)
  }

  /** What a worker carries along is a true reading of some version of its task. */
  predicate WorkerOk(c: Settings, r: Repository, w: Worker) {
    match w
    case Claiming(id, version, _) => WasNotFrozen(r, id, version)
    case Checking(id, version, status) => Was(r, id, version, status) && status in c.handlers
    case Handling(id, version, status) => Was(r, id, version, status) && status in c.handlers
    case Returned(id, version, status, _) => Was(r, id, version, status) && status in c.handlers
    case Comparing(id, version, status, _) => Was(r, id, version, status) && status in c.handlers
    case Moving(id, version, status, _) => Was(r, id, version, status) && status in c.handlers
    case HandingOff(id, version) => Was(r, id, version, Ready)
    case FailMoving(id, version, _, _) => WasNotFrozen(r, id, version)
    case RollingBack(id, version, status, _, _, _) => Was(r, id, version, status)
    case _ => true
  }

  predicate CallerOk(r: Repository, k: Caller) {
    match k
    case Away => true
    case Resumed(id, version, status, _) => Was(r, id, version, status)
    case Undoing(id, version, status, _, _) => Was(r, id, version, status)
  }

  ghost predicate ReadingsOk(c: Settings, s: State) {
    && c.handlers <= Interrupted
    && (forall n :: 0 <= n < |s.workers| ==> WorkerOk(c, s.repo, s.workers[n]))
    && (forall n :: 0 <= n < |s.callers| ==> CallerOk(s.repo, s.callers[n]))
  }

  /** Versions are only ever added. */
  ghost predicate Longer(r: Repository, r': Repository) {
    forall id :: id in r ==> id in r' && r[id] <= r'[id]
  }

  lemma ReadingsStay(c: Settings, r: Repository, r': Repository, w: Worker)
    requires Longer(r, r') && WorkerOk(c, r, w)
    ensures WorkerOk(c, r', w)
  {
    var id := Held(w);
    if w.RollingBack? {
      assert r[w.id] <= r'[w.id];
    } else if id.Some? && id.value in r {
      assert r[id.value] <= r'[id.value];
    }
  }

  lemma CallerReadingsStay(r: Repository, r': Repository, k: Caller)
    requires Longer(r, r') && CallerOk(r, k)
    ensures CallerOk(r', k)
  {
    if !k.Away? {
      assert r[k.id] <= r'[k.id];
    }
  }

  lemma AcceptedAppends(r: Repository, id: Id, to: Status, version: nat)
    requires Transition(r, id, to, version).Accepted?
    ensures var r' := Transition(r, id, to, version).repo;
      Longer(r, r') && Was(r', id, version + 1, to) && version + 1 == Version(r', id)
  {
  }

  lemma CasReads(c: Settings, r: Repository, b: Board, w: Worker, id: Id, to: Status, version: nat)
    requires c.handlers <= Interrupted && WorkerOk(c, r, w)
    requires match w
      case Claiming(i, v, t) => (id, version, to) == (i, v, t)
      case Moving(i, v, _, t) => (id, version, to) == (i, v, t)
      case HandingOff(i, v) => (id, version, to) == (i, v, Crawling)
      case FailMoving(i, v, t, _) => (id, version, to) == (i, v, t)
      case RollingBack(i, v, _, t, _, _) => (id, version, to) == (i, v, t)
      case _ => false
    ensures var (r', _, w') := WorkerStep(c, r, b, w); Longer(r, r') && WorkerOk(c, r', w')
  {
    if Transition(r, id, to, version).Accepted? {
      AcceptedAppends(r, id, to, version);
    }
  }

  lemma WorkerStepReads(c: Settings, r: Repository, b: Board, w: Worker)
    requires c.handlers <= Interrupted && WorkerOk(c, r, w)
    ensures var (r', _, w') := WorkerStep(c, r, b, w); Longer(r, r') && WorkerOk(c, r', w')
  {
    match w
    case Claiming(id, version, target) => CasReads(c, r, b, w, id, target, version);
    case Moving(id, version, _, next) => CasReads(c, r, b, w, id, next, version);
    case HandingOff(id, version) => CasReads(c, r, b, w, id, Crawling, version);
    case FailMoving(id, version, target, _) => CasReads(c, r, b, w, id, target, version);
    case RollingBack(id, version, _, target, _, _) => CasReads(c, r, b, w, id, target, version);
    case _ =>
  }

  lemma RepoGrows(c: Settings, s: State, step: Step)
    requires ReadingsOk(c, s)
    ensures Longer(s.repo, Take(c, s, step).repo)
  {
    if step.Work? && step.worker < |s.workers| {
      WorkerStepReads(c, s.repo, s.board, s.workers[step.worker]);
    }
  }

  lemma ActorsRead(c: Settings, s: State, step: Step)
    requires ReadingsOk(c, s)
    ensures forall n :: 0 <= n < |s.workers| ==>
      Take(c, s, step).workers[n] == s.workers[n] || WorkerOk(c, Take(c, s, step).repo, Take(c, s, step).workers[n])
    ensures forall n :: 0 <= n < |s.callers| ==>
      Take(c, s, step).callers[n] == s.callers[n] || CallerOk(Take(c, s, step).repo, Take(c, s, step).callers[n])
  {
    if step.Work? && step.worker < |s.workers| {
      WorkerStepReads(c, s.repo, s.board, s.workers[step.worker]);
    }
  }

  lemma TakeKeepsReadings(c: Settings, s: State, step: Step)
    requires ReadingsOk(c, s)
    ensures ReadingsOk(c, Take(c, s, step))
  {
    var s' := Take(c, s, step);
    RepoGrows(c, s, step);
    ActorsRead(c, s, step);
    forall n | 0 <= n < |s'.workers| ensures WorkerOk(c, s'.repo, s'.workers[n]) {
      if s'.workers[n] == s.workers[n] {
        ReadingsStay(c, s.repo, s'.repo, s.workers[n]);
      }
    }
    forall n | 0 <= n < |s'.callers| ensures CallerOk(s'.repo, s'.callers[n]) {
      if s'.callers[n] == s.callers[n] {
        CallerReadingsStay(s.repo, s'.repo, s.callers[n]);
      }
    }
  }

  // ---------------------------------------------------------------- what stays untouched

  /** Anything but an outside client writing this task, or somebody resuming it. */
  predicate Own(step: Step, id: Id) {
    !(step.Outside? && step.id == id) && !(step.Resuming? && step.id == id)
  }

  /** No worker and no recovery moves a task that is paused, failed or ended. */
  lemma FrozenStays(c: Settings, s: State, step: Step, id: Id)
    requires ReadingsOk(c, s) && id in s.repo && Frozen(Current(s.repo, id).status) && Own(step, id)
    ensures id in Take(c, s, step).repo && Take(c, s, step).repo[id] == s.repo[id]
  {
    match step
    case Work(n) =>
      if n < |s.workers| {
        WorkerLeavesFrozen(c, s.repo, s.board, s.workers[n], id);
      }
    case _ =>
  }

  lemma WorkerLeavesFrozen(c: Settings, r: Repository, b: Board, w: Worker, id: Id)
    requires c.handlers <= Interrupted && WorkerOk(c, r, w) && id in r && Frozen(Current(r, id).status)
    ensures var r' := WorkerStep(c, r, b, w).0; id in r' && r'[id] == r[id]
  {
  }

  /** So a pause or a cancellation that lands while a handler is running stays: however that
   *  handler ends, and whatever the executor does afterwards, the task keeps that very version
   *  until somebody outside the executor changes it or resumes it. */
  lemma {:induction false} PauseIsNeverOverwritten(c: Settings, s: State, steps: seq<Step>, id: Id)
    requires ReadingsOk(c, s) && id in s.repo && Frozen(Current(s.repo, id).status)
    requires forall k :: 0 <= k < |steps| ==> Own(steps[k], id)
    ensures id in Play(c, s, steps).repo && Play(c, s, steps).repo[id] == s.repo[id]
    decreases |steps|
  {
    if steps != [] {
      FrozenStays(c, s, steps[0], id);
      TakeKeepsReadings(c, s, steps[0]);
      PauseIsNeverOverwritten(c, Take(c, s, steps[0]), steps[1..], id);
    }
  }

  /** A handler's result is written on top of the version the handler was given, or not at all. */
  lemma ResultOnlyOnItsVersion(c: Settings, s: State, n: nat)
    requires ReadingsOk(c, s) && n < |s.workers| && s.workers[n].Moving?
    ensures var w, r' := s.workers[n], Take(c, s, Work(n)).repo;
      r' == s.repo || (Version(s.repo, w.id) == w.version && r'[w.id] == s.repo[w.id] + [Moved(s.repo[w.id][w.version], w.next)])
  {
  }

  // ---------------------------------------------------------------- closing

  function Busy(workers: seq<Worker>): nat {
    if workers == [] then 0
    else Busy(workers[..|workers| - 1]) + if Held(workers[|workers| - 1]).Some? then 1 else 0
  }

  lemma {:induction false} BusyAfter(workers: seq<Worker>, n: nat, w: Worker)
    requires n < |workers|
    ensures Busy(workers[n := w]) + (if Held(workers[n]).Some? then 1 else 0)
         == Busy(workers) + (if Held(w).Some? then 1 else 0)
  {
    var last := |workers| - 1;
    if n < last {
      BusyAfter(workers[..last], n, w);
      assert workers[n := w][..last] == workers[..last][n := w];
    } else {
      assert workers[n := w][..last] == workers[..last];
    }
  }

  /** Queued tasks and running workers together. */
  function Load(s: State): nat {
    |s.board.queue| + Busy(s.workers)
  }

  lemma WorkerDrains(c: Settings, r: Repository, b: Board, w: Worker)
    requires b.closing
    ensures var (_, b', w') := WorkerStep(c, r, b, w);
      && b'.closing
      && |b'.queue| + (if Held(w').Some? then 1 else 0) <= |b.queue| + (if Held(w).Some? then 1 else 0)
      && (w.Finishing? ==> |b'.queue| + (if Held(w').Some? then 1 else 0) < |b.queue| + 1)
      && (b'.queue == b.queue || (b.queue != [] && b'.queue == b.queue[1..]))
  {
  }

  /** Once closing, nothing enters the queue any more, and the load never rises; it falls with
   *  every task that a worker finishes. */
  lemma ClosingDrains(c: Settings, s: State, step: Step)
    requires s.board.closing
    ensures var s' := Take(c, s, step);
      && s'.board.closing && Load(s') <= Load(s)
      && (s'.board.queue == s.board.queue || (s.board.queue != [] && s'.board.queue == s.board.queue[1..]))
      && (step.Work? && step.worker < |s.workers| && s.workers[step.worker].Finishing? ==> Load(s') < Load(s))
  {
    match step
    case Work(n) =>
      if n < |s.workers| {
        WorkerDrains(c, s.repo, s.board, s.workers[n]);
        BusyAfter(s.workers, n, WorkerStep(c, s.repo, s.board, s.workers[n]).2);
      }
    case HandlerEnds(n, end) =>
      if n < |s.workers| && s.workers[n].Handling? {
        BusyAfter(s.workers, n, HandlerReturns(s.workers[n], end));
      }
    case RepositoryFails(n) =>
      if n < |s.workers| {
        BusyAfter(s.workers, n, Broken(s.workers[n]));
      }
    case _ =>
  }

  lemma {:induction false} ClosedRunDrains(c: Settings, s: State, steps: seq<Step>)
    requires s.board.closing
    ensures Play(c, s, steps).board.closing && Load(Play(c, s, steps)) <= Load(s)
    ensures forall k :: 0 <= k < |Play(c, s, steps).board.queue| ==> Play(c, s, steps).board.queue[k] in s.board.queue
    decreases |steps|
  {
    if steps != [] {
      ClosingDrains(c, s, steps[0]);
      ClosedRunDrains(c, Take(c, s, steps[0]), steps[1..]);
    }
  }

  // ---------------------------------------------------------------- pending resumes

  ghost predicate Requeued(b: Board, id: Id, resume: Resume) {
    Queued(b, id) && id in b.scheduled && Job(id, resume.preclaimed) in b.queue
  }

  lemma WorkerServes(c: Settings, r: Repository, b: Board, w: Worker, id: Id)
    requires id in b.pending
    ensures var (_, b', w') := WorkerStep(c, r, b, w); var resume := b.pending[id];
      || (id in b'.pending && b'.pending[id] == resume)
      || Requeued(b', id, resume)
      || (w'.Reading? && w'.id == id && w'.target == resume.rollback)
  {
    if w.Finishing? && w.id == id {
      var b' := WorkerStep(c, r, b, w).1;
      if !b.closing && |b.queue| < c.capacity {
        assert b'.queue[|b.queue|] == Job(id, b.pending[id].preclaimed);
      }
    }
  }

  /** A pending resume stays pending until the worker that runs its task finishes; that worker puts
   *  it back on the queue, or goes on to roll it back. It is never dropped. */
  lemma PendingIsServed(c: Settings, s: State, step: Step, id: Id)
    requires id in s.board.pending
    ensures var s' := Take(c, s, step); var resume := s.board.pending[id];
      || id in s'.board.pending
      || Requeued(s'.board, id, resume)
      || (step.Work? && step.worker < |s.workers| && s'.workers[step.worker].Reading?
          && s'.workers[step.worker].id == id && s'.workers[step.worker].target == resume.rollback)
  {
    if step.Work? && step.worker < |s.workers| {
      WorkerServes(c, s.repo, s.board, s.workers[step.worker], id);
    }
  }

  /** A rollback that ends without giving up leaves the task where the rollback wanted it, or finds
   *  that somebody else has taken it out of the executor's hands. */
  lemma RollbackLands(c: Settings, s: State, n: nat)
    requires ReadingsOk(c, s) && n < |s.workers| && s.workers[n].RollingBack? && s.workers[n].attempts > 0
    requires var w' := Take(c, s, Work(n)).workers[n]; w'.Idle?
    ensures var w, r' := s.workers[n], Take(c, s, Work(n)).repo;
      (w.id in r' && Current(r', w.id).status == w.target) || Frozen(r'[w.id][w.version].status)
  {
  }
}
