/** The verification coordinator as interleaved steps: every step is one block under the guard, one
 *  browser or lease call, or one ledger call.
 *
 *  Any number of threads run any calls in any order, also where a verification's own lock would
 *  hold one of them back. */
module CoordinatorMachine {
  import opened Basics

  datatype Status = Completed | Cancelled | TimedOut | Failed

  datatype Lifecycle = Pending | Active | Terminating | Quarantined | Released

  type Token = string

  /** The object behind a token; it outlives its entry in the coordinator's dictionaries. */
  datatype Verification = Verification(lifecycle: Lifecycle, cleanup: Option<Status>)

  /** A tombstone; `cleanup` is `cleanup_required`. */
  datatype Outcome = Outcome(status: Status, cleanup: bool)

  datatype Notice = Notice(status: Status, closed: bool)

  /** The coordinator's fields, and three records of what has happened: the tokens handed out, the
   *  status with which each was moved to terminating, and the settlements sent to the ledger. */
  datatype Desk = Desk(
    objects: map<Token, Verification>, active: set<Token>, failed: set<Token>, terminal: map<Token, Outcome>,
    early: map<Token, Notice>, reserved: nat,
    issued: set<Token>, won: map<Token, Status>, settled: seq<(Token, bool)>)

  predicate Over(l: Lifecycle) {
    l in {Terminating, Quarantined, Released}
  }

  // ---------------------------------------------------------------- threads

  datatype Thread =
    | Idle
    // begin
    | Reserving(token: Token)
    | Acquiring(token: Token)
    | Navigating(token: Token)
    // _finish, and what it shares with _worker_terminal
    | Ending(token: Token, status: Status, consumed: Option<bool>)
    | Closing(token: Token, status: Status, used: bool, notified: bool)
    | Releasing(token: Token, status: Status, used: bool)
    | Quarantining(token: Token, status: Status, used: bool, notified: bool)
    | Settling(token: Token, used: bool, andStore: Option<Status>)
    | Storing(token: Token, status: Status)
    // _worker_terminal
    | Notified(token: Token, notice: Notice)
    | StoringCleanup(token: Token, used: bool)
    // retry_cleanup
    | Clearing(token: Token)

  datatype State = State(desk: Desk, threads: seq<Thread>)

  /** `good` says whether the foreign call of a step succeeds. */
  datatype Step =
    | Begin(thread: nat, token: Token)
    | End(thread: nat, token: Token, status: Status, consumed: Option<bool>)
    | Notify(thread: nat, token: Token, notice: Notice)
    | Retry(thread: nat, token: Token)
    | Go(thread: nat, good: bool)
    | Forget(tokens: set<Token>)

  // ---------------------------------------------------------------- blocks under the guard

  function Used(d: Desk): nat {
    |d.active + d.failed|
  }

  function Admit(d: Desk, max: nat, token: Token): (Desk, Thread) {
    if Used(d) + d.reserved >= max || token in d.issued then (d, Idle)
    else (d.(reserved := d.reserved + 1, issued := d.issued + {token}), Reserving(token))
  }

  /** The slot is given back when the ledger refuses or the browser cannot be had. */
  function GiveBack(d: Desk): Desk {
    d.(reserved := if d.reserved > 0 then d.reserved - 1 else 0)
  }

  function Register(d: Desk, token: Token): (Desk, Thread) {
    var registered := GiveBack(d).(active := d.active + {token}, objects := d.objects[token := Verification(Pending, None)]);
    if token in d.early then (registered.(early := d.early - {token}), Notified(token, d.early[token]))
    else (registered, Navigating(token))
  }

  function SetLifecycle(d: Desk, token: Token, l: Lifecycle): Desk
    requires token in d.objects
  {
    d.(objects := d.objects[token := d.objects[token].(lifecycle := l)])
  }

  /** The compare-and-set that decides who terminates a verification. */
  function Win(d: Desk, token: Token, status: Status): Desk
    requires token in d.objects
  {
    SetLifecycle(d, token, Terminating).(won := d.won[token := status])
  }

  function Store(d: Desk, token: Token, outcome: Outcome): Desk {
    d.(terminal := d.terminal[token := outcome])
  }

  function Release(d: Desk, token: Token, status: Status): Desk
    requires token in d.objects
  {
    SetLifecycle(Store(d, token, Outcome(status, false)), token, Released).(active := d.active - {token})
  }

  function Quarantine(d: Desk, token: Token, status: Status): Desk
    requires token in d.objects
  {
    d.(objects := d.objects[token := Verification(Quarantined, Some(status))], failed := d.failed + {token})
  }

  function CleanupStatus(d: Desk, token: Token): Status {
    if token in d.objects && d.objects[token].cleanup.Some? then d.objects[token].cleanup.value else Failed
  }

  /** The end of `retry_cleanup`. */
  function Clear(d: Desk, token: Token): Desk
    requires token in d.objects
  {
    Release(d, token, CleanupStatus(d, token)).(failed := d.failed - {token})
  }

  // ---------------------------------------------------------------- steps

  function Advance(d: Desk, t: Thread, good: bool): (Desk, Thread) {
    match t
    case Idle => (d, Idle)
    case Reserving(token) => if good then (d, Acquiring(token)) else (GiveBack(d), Idle)
    case Acquiring(token) => if good then Register(d, token) else (GiveBack(d), Settling(token, false, None))
    case Navigating(token) =>
      if token !in d.objects then (d, Idle)
      else if good then
        if d.objects[token].lifecycle.Pending? then (SetLifecycle(d, token, Active), Idle) else (d, Idle)
      else if token in d.active && token !in d.failed && !Over(d.objects[token].lifecycle)
      then (d, Ending(token, Failed, Some(false))) else (d, Idle)
    case Ending(token, status, consumed) =>
      if token !in d.objects || Over(d.objects[token].lifecycle) then (d, Idle)
      else (Win(d, token, status), Closing(token, status, if consumed.Some? then consumed.value else status != Completed, false))
    case Closing(token, status, used, notified) =>
      (d, if good then Releasing(token, status, used) else Quarantining(token, status, used, notified))
    case Releasing(token, status, used) =>
      if token !in d.objects then (d, Idle) else (Release(d, token, status), Settling(token, used, None))
    case Quarantining(token, status, used, notified) =>
      if token !in d.objects then (d, Idle)
      else (Quarantine(d, token, status), if notified then StoringCleanup(token, used) else Settling(token, used, Some(status)))
    case Settling(token, used, andStore) =>
      (d.(settled := d.settled + [(token, used)]), if andStore.Some? then Storing(token, andStore.value) else Idle)
    case Storing(token, status) => (Store(d, token, Outcome(status, true)), Idle)
    case Notified(token, notice) =>
      if token !in d.active || token !in d.objects then (d.(early := d.early[token := notice]), Idle)
      else if Over(d.objects[token].lifecycle) then (d, Idle)
      else
        var used := !d.objects[token].lifecycle.Pending?;
        (Win(d, token, notice.status),
         if notice.closed then Closing(token, notice.status, used, true) else Quarantining(token, notice.status, used, true))
    case StoringCleanup(token, used) =>
      (Store(d, token, Outcome(CleanupStatus(d, token), true)), Settling(token, used, None))
    case Clearing(token) => if good && token in d.objects then (Clear(d, token), Idle) else (d, Idle)
  }

  function Put(s: State, n: nat, result: (Desk, Thread)): State
    requires n < |s.threads|
  {
    State(result.0, s.threads[n := result.1])
  }

  function Take(max: nat, s: State, step: Step): State {
    match step
    case Begin(n, token) => if n < |s.threads| && s.threads[n].Idle? then Put(s, n, Admit(s.desk, max, token)) else s
    case End(n, token, status, consumed) =>
      if n < |s.threads| && s.threads[n].Idle? then Put(s, n, (s.desk, Ending(token, status, consumed))) else s
    case Notify(n, token, notice) =>
      if n < |s.threads| && s.threads[n].Idle? then Put(s, n, (s.desk, Notified(token, notice))) else s
    case Retry(n, token) =>
      if n < |s.threads| && s.threads[n].Idle? && token in s.desk.failed then Put(s, n, (s.desk, Clearing(token))) else s
    case Go(n, good) => if n < |s.threads| then Put(s, n, Advance(s.desk, s.threads[n], good)) else s
    case Forget(tokens) =>
      s.(desk := s.desk.(terminal := s.desk.terminal - tokens, early := s.desk.early - tokens))
  }

  function Play(max: nat, s: State, steps: seq<Step>): State
    decreases |steps|
  {
    if steps == [] then s else Play(max, Take(max, s, steps[0]), steps[1..])
  }

  predicate Fresh(s: State) {
    && s.desk == Desk(map[], {}, {}, map[], map[], 0, {}, map[], [])
    && forall n :: 0 <= n < |s.threads| ==> s.threads[n].Idle?
  }
}
