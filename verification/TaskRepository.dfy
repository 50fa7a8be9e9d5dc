/** The task repository as a compare-and-swap cell per task: a task is the history of its versions,
 *  and a transition appends one if the caller has seen the last and the edge is allowed. */
module TaskRepository {
  import opened Basics

  datatype Status =
    | Created | Probing | WaitingForUser | Validating | Ready | Crawling
    | Completed | Paused | RecoverableFailed | TerminalFailed | Cancelled

  predicate Terminal(s: Status) {
    s in {Completed, TerminalFailed, Cancelled}
  }

  function AllowedTransitions(s: Status): set<Status> {
    match s
    case Created => {Probing, Paused, Cancelled}
    case Probing => {WaitingForUser, Validating, RecoverableFailed, Paused, TerminalFailed, Cancelled}
    case WaitingForUser => {Validating, Crawling, RecoverableFailed, TerminalFailed, Paused, Cancelled}
    case Validating => {Probing, WaitingForUser, Ready, RecoverableFailed, Paused, TerminalFailed, Cancelled}
    case Ready => {Crawling, Paused, RecoverableFailed, TerminalFailed, Cancelled}
    case Crawling => {Completed, Paused, WaitingForUser, RecoverableFailed, TerminalFailed, Cancelled}
    case Paused => {Created, Probing, WaitingForUser, Validating, Ready, Crawling, Cancelled}
    case RecoverableFailed => {Probing, WaitingForUser, Validating, Ready, Crawling, TerminalFailed, Cancelled}
    case _ => {}
  }

  /** `cleanup` is the resume gate that only `complete_cleanup_gate` opens. */
  datatype Task = Task(status: Status, resume: Option<Status>, cleanup: bool)

  type Id = string

  /** The versions of a task; its version number is the index of the last. */
  type History = h: seq<Task> | h != [] witness [Task(Created, None, false)]

  type Repository = map<Id, History>

  function Version(r: Repository, id: Id): nat
    requires id in r
  {
    |r[id]| - 1
  }

  function Current(r: Repository, id: Id): Task
    requires id in r
  {
    r[id][|r[id]| - 1]
  }

  predicate Resumable(s: Status) {
    s in {Paused, RecoverableFailed}
  }

  /** The checks of `transition` once the version has matched. */
  predicate MayBecome(t: Task, to: Status) {
    && to in AllowedTransitions(t.status)
    && (t.cleanup ==> to in {TerminalFailed, Cancelled})
    && (Resumable(t.status) && to !in {TerminalFailed, Cancelled} ==> t.resume == Some(to))
  }

  function Moved(t: Task, to: Status): Task {
    Task(to, if Resumable(to) then Some(t.status) else None, t.cleanup && to !in {TerminalFailed, Cancelled})
  }

  datatype Outcome = Accepted(repo: Repository) | NotFound | VersionConflict | InvalidTransition

  function Transition(r: Repository, id: Id, to: Status, expected: nat): Outcome {
    if id !in r then NotFound
    else if Version(r, id) != expected then VersionConflict
    else if !MayBecome(Current(r, id), to) then InvalidTransition
    else Accepted(r[id := r[id] + [Moved(Current(r, id), to)]])
  }

  /** A task that a pause, a failure or an ending has taken out of the executor's hands. */
  predicate Frozen(s: Status) {
    Terminal(s) || Resumable(s)
  }

  /** Nothing leaves a terminal status. */
  lemma TerminalIsFinal(r: Repository, id: Id, to: Status, expected: nat)
    requires id in r && Terminal(Current(r, id).status)
    ensures !Transition(r, id, to, expected).Accepted?
  {
  }

  /** A paused or recoverably failed task comes back only to where it came from. */
  lemma {:induction false} ResumesWhereItStopped(r: Repository, id: Id, stop: Status, to: Status)
    requires id in r && Resumable(stop) && !Resumable(Current(r, id).status)
    requires to !in {TerminalFailed, Cancelled}
    ensures var stopped := Transition(r, id, stop, Version(r, id));
      stopped.Accepted? ==>
        var back := Transition(stopped.repo, id, to, Version(r, id) + 1);
        back.Accepted? ==> to == Current(r, id).status
  {
    var stopped := Transition(r, id, stop, Version(r, id));
    if stopped.Accepted? {
      assert Current(stopped.repo, id) == Moved(Current(r, id), stop);
    }
  }
}
