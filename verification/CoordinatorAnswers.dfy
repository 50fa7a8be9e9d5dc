/** What the coordinator's calls leave when nobody interferes: who is admitted, how a verification ends,
 *  is charged and is recorded, and what a retried cleanup puts right. */
module CoordinatorAnswers {
  import opened Basics
  import opened CoordinatorMachine
  import opened CoordinatorObject

  // ---------------------------------------------------------------- begin

  /** A verification is admitted while those that are live or quarantined, and the slots held for others
   *  that are being begun, are fewer than allowed. */
  lemma AdmittedIff(d: Desk, max: nat, token: Token)
    requires token !in d.issued
    ensures var (d', t') := Admit(d, max, token);
      if |d.active + d.failed| + d.reserved < max
      then t' == Reserving(token) && d' == d.(reserved := d.reserved + 1, issued := d.issued + {token})
      else t' == Idle && d' == d
  {
  }

  /** An admitted verification, begun without trouble, is active; its slot is no longer held separately. */
  lemma BegunIsActive(d: Desk, max: nat, token: Token)
    requires token !in d.issued && |d.active + d.failed| + d.reserved < max && token !in d.early
    ensures var d1 := Admit(d, max, token).0;
      Steps(d1, Reserving(token), true, 3)
        == (d.(issued := d.issued + {token}, active := d.active + {token}, objects := d.objects[token := Verification(Active, None)]), Idle)
  {
    var d1 := Admit(d, max, token).0;
    var (d2, t2) := Advance(d1, Reserving(token), true);
    var (d3, t3) := Advance(d2, t2, true);
    var (d4, t4) := Advance(d3, t3, true);
    StepsThree(d1, Reserving(token), true, d2, t2, d3, t3);
    assert d4.objects == d.objects[token := Verification(Active, None)];
  }

  lemma StepsThree(d: Desk, t: Thread, good: bool, d1: Desk, t1: Thread, d2: Desk, t2: Thread)
    requires Advance(d, t, good) == (d1, t1) && Advance(d1, t1, good) == (d2, t2)
    ensures Steps(d, t, good, 3) == Advance(d2, t2, good)
  {
    assert Steps(d2, t2, good, 1) == Steps(Advance(d2, t2, good).0, Advance(d2, t2, good).1, good, 0);
    assert Steps(d1, t1, good, 2) == Steps(d2, t2, good, 1);
    assert Steps(d, t, good, 3) == Steps(d1, t1, good, 2);
  }

  /** When the ledger refuses, the slot is given back and nothing has been charged. When the browser cannot
   *  be had, the slot is given back and the attempt is settled as not used. */
  lemma RefusedGivesBack(d: Desk, max: nat, token: Token)
    requires token !in d.issued && |d.active + d.failed| + d.reserved < max
    ensures var d1 := Admit(d, max, token).0;
      && Advance(d1, Reserving(token), false) == (d.(issued := d.issued + {token}), Idle)
      && Advance(d1, Reserving(token), true) == (d1, Acquiring(token))
      && Advance(d1, Acquiring(token), false) == (d.(issued := d.issued + {token}), Settling(token, false, None))
      && Steps(d1, Acquiring(token), false, 2) == (d.(issued := d.issued + {token}, settled := d.settled + [(token, false)]), Idle)
  {
    var d1 := Admit(d, max, token).0;
    var (d2, t2) := Advance(d1, Acquiring(token), false);
    assert Steps(d2, t2, false, 1) == Steps(Advance(d2, t2, false).0, Advance(d2, t2, false).1, false, 0);
    assert Steps(d1, Acquiring(token), false, 2) == Steps(d2, t2, false, 1);
  }

  /** A notice from the worker that came before the verification was registered is handed on then. */
  lemma EarlyNoticeIsHandedOn(d: Desk, token: Token, notice: Notice)
    requires token in d.early && d.early[token] == notice && d.reserved > 0
    ensures Register(d, token)
      == (d.(reserved := d.reserved - 1, active := d.active + {token}, objects := d.objects[token := Verification(Pending, None)],
             early := d.early - {token}),
          Notified(token, notice))
  {
  }

  // ---------------------------------------------------------------- the end

  predicate IsLive(d: Desk, token: Token) {
    token in d.objects && (d.objects[token].lifecycle == Pending || d.objects[token].lifecycle == Active)
  }

  /** Released: out of the active ones, with its status recorded as clean, and charged. */
  ghost predicate ReleasedAs(d: Desk, d': Desk, token: Token, status: Status, used: bool)
    requires token in d.objects
  {
    d' == Desk(d.objects[token := Verification(Released, d.objects[token].cleanup)], d.active - {token}, d.failed,
               d.terminal[token := Outcome(status, false)], d.early, d.reserved, d.issued, d.won[token := status],
               d.settled + [(token, used)])
  }

  /** Quarantined: it keeps its slot, is to be cleaned up, is recorded as such, and charged. */
  ghost predicate QuarantinedAs(d: Desk, d': Desk, token: Token, status: Status, used: bool)
    requires token in d.objects
  {
    d' == Desk(d.objects[token := Verification(Quarantined, Some(status))], d.active, d.failed + {token},
               d.terminal[token := Outcome(status, true)], d.early, d.reserved, d.issued, d.won[token := status],
               d.settled + [(token, used)])
  }

  /** `_finish`: a live verification whose browser closes is released, any other is quarantined. Unless the
   *  caller says otherwise, every end but a completion uses up the attempt. One that is over stays so. */
  lemma EndAnswers(d: Desk, token: Token, status: Status, consumed: Option<bool>, closes: bool)
    requires token in d.objects
    ensures var d' := EndAlone(d, token, status, consumed, closes);
      var used := if consumed.Some? then consumed.value else status != Completed;
      && (IsLive(d, token) && closes ==> ReleasedAs(d, d', token, status, used))
      && (IsLive(d, token) && !closes ==> QuarantinedAs(d, d', token, status, used))
      && (!IsLive(d, token) ==> d' == d)
  {
  }

  /** Its steps end in just that. */
  lemma EndInSteps(d: Desk, token: Token, status: Status, consumed: Option<bool>, closes: bool)
    requires IsLive(d, token)
    ensures var (d', t') := Steps(d, Ending(token, status, consumed), closes, 5);
      var used := if consumed.Some? then consumed.value else status != Completed;
      t' == Idle && if closes then ReleasedAs(d, d', token, status, used) else QuarantinedAs(d, d', token, status, used)
  {
    EndAloneIsItsSteps(d, token, status, consumed, closes);
    EndAnswers(d, token, status, consumed, closes);
  }

  /** `_worker_terminal`: a notice that the browser has closed, and whose own closing succeeds, releases the
   *  verification, any other quarantines it. The attempt is used up unless nothing had been done yet. A
   *  notice for one that is not active waits. */
  lemma NotifyAnswers(d: Desk, token: Token, notice: Notice, closes: bool)
    requires token in d.active ==> token in d.objects
    ensures var d' := NotifyAlone(d, token, notice, closes);
      && (token !in d.active ==> d' == d.(early := d.early[token := notice]))
      && (token in d.active && !IsLive(d, token) ==> d' == d)
      && (token in d.active && IsLive(d, token) ==>
           var used := d.objects[token].lifecycle == Active;
           if notice.closed && closes then ReleasedAs(d, d', token, notice.status, used)
           else QuarantinedAs(d, d', token, notice.status, used))
  {
  }

  lemma NotifyInSteps(d: Desk, token: Token, notice: Notice, closes: bool)
    requires token in d.active && IsLive(d, token)
    ensures var (d', t') := Steps(d, Notified(token, notice), closes, 5);
      var used := d.objects[token].lifecycle == Active;
      t' == Idle && if notice.closed && closes then ReleasedAs(d, d', token, notice.status, used)
                    else QuarantinedAs(d, d', token, notice.status, used)
  {
    NotifyAloneIsItsSteps(d, token, notice, closes);
    NotifyAnswers(d, token, notice, closes);
  }

  /** A page that cannot be opened ends a live verification as failed, without using up the attempt. */
  lemma FailedNavigationEnds(d: Desk, token: Token)
    requires token in d.active && token !in d.failed && IsLive(d, token)
    ensures Advance(d, Navigating(token), false) == (d, Ending(token, Failed, Some(false)))
  {
  }

  // ---------------------------------------------------------------- cleaning up

  /** A retried cleanup that succeeds frees the slot and records the status as clean; nothing is charged
   *  again. One that fails changes nothing. */
  lemma CleanupAnswers(d: Desk, token: Token, good: bool)
    requires token in d.objects
    ensures Advance(d, Clearing(token), good) ==
      if good
      then
        var status := if d.objects[token].cleanup.Some? then d.objects[token].cleanup.value else Failed;
        (Desk(d.objects[token := Verification(Released, d.objects[token].cleanup)], d.active - {token}, d.failed - {token},
              d.terminal[token := Outcome(status, false)], d.early, d.reserved, d.issued, d.won, d.settled),
         Idle)
      else (d, Idle)
  {
  }

  /** From quarantine to release: the status that was recorded stays, and only the need for cleanup goes. */
  lemma CleanupKeepsStatus(d: Desk, token: Token, status: Status, consumed: Option<bool>)
    requires IsLive(d, token) && token !in d.failed
    ensures var d1 := EndAlone(d, token, status, consumed, false);
      token in d1.objects
      && var d2 := Advance(d1, Clearing(token), true).0;
         && token in d1.terminal && d1.terminal[token] == Outcome(status, true)
         && token in d2.terminal && d2.terminal[token] == Outcome(status, false)
         && d2.settled == d1.settled && d2.failed == d.failed && d2.active == d.active - {token}
  {
  }

  /** Only what is to be cleaned up is. */
  lemma OnlyFailedIsRetried(max: nat, s: State, n: nat, token: Token)
    requires n < |s.threads| && s.threads[n] == Idle
    ensures Take(max, s, Retry(n, token)) == if token in s.desk.failed then State(s.desk, s.threads[n := Clearing(token)]) else s
  {
  }
}
