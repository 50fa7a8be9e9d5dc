/** The `VerificationCoordinator` object: what it does under its guard, and the two ways in which a
 *  verification is brought to its end, as calls that run on their own. */
module CoordinatorObject {
  import opened Basics
  import opened CoordinatorMachine

  class VerificationCoordinator {
    var objects: map<Token, Verification>
    var active: set<Token>
    var failedClosures: set<Token>
    var terminal: map<Token, Outcome>
    var early: map<Token, Notice>
    var reserved: nat
    ghost var issued: set<Token>
    ghost var won: map<Token, Status>
    ghost var settled: seq<(Token, bool)>
    const maxActive: nat

    constructor (maxActive: nat)
      requires maxActive > 0
      ensures Desk() == CoordinatorMachine.Desk(map[], {}, {}, map[], map[], 0, {}, map[], []) && this.maxActive == maxActive
    {
      objects, active, failedClosures, terminal, early, reserved := map[], {}, {}, map[], map[], 0;
      issued, won, settled, this.maxActive := {}, map[], [], maxActive;
    }

    ghost function Desk(): Desk
      reads this
    {
      CoordinatorMachine.Desk(objects, active, failedClosures, terminal, early, reserved, issued, won, settled)
    }

    /** The capacity check of `begin`. */
    method ReserveSlot(token: Token) returns (ok: bool)
      requires token !in issued
      modifies this
      ensures (Desk(), if ok then Reserving(token) else Idle) == Admit(old(Desk()), maxActive, token)
    {
      ok := |active + failedClosures| + reserved < maxActive;
      if ok {
        reserved, issued := reserved + 1, issued + {token};
      }
    }

    /** The new verification takes over its slot; a notice that came too early is handed back. */
    method Enter(token: Token) returns (notice: Option<Notice>)
      requires reserved > 0
      modifies this
      ensures (Desk(), if notice.Some? then Notified(token, notice.value) else Navigating(token)) == Register(old(Desk()), token)
    {
      reserved := reserved - 1;
      active, objects := active + {token}, objects[token := Verification(Pending, None)];
      notice := None;
      if token in early {
        notice, early := Some(early[token]), early - {token};
      }
    }

    /** The compare-and-set of `_finish`. */
    method TryEnd(token: Token, status: Status) returns (first: bool)
      requires token in objects
      modifies this
      ensures first <==> !Over(old(objects)[token].lifecycle)
      ensures Desk() == if first then Win(old(Desk()), token, status) else old(Desk())
    {
      first := !Over(objects[token].lifecycle);
      if first {
        objects, won := objects[token := objects[token].(lifecycle := Terminating)], won[token := status];
      }
    }

    method MoveToQuarantine(token: Token, status: Status)
      requires token in objects
      modifies this
      ensures Desk() == Quarantine(old(Desk()), token, status)
    {
      objects, failedClosures := objects[token := Verification(Quarantined, Some(status))], failedClosures + {token};
    }

    method StoreTerminal(token: Token, outcome: Outcome)
      modifies this`terminal
      ensures Desk() == Store(old(Desk()), token, outcome)
    {
      terminal := terminal[token := outcome];
    }

    method MoveToReleased(token: Token, status: Status)
      requires token in objects
      modifies this
      ensures Desk() == Release(old(Desk()), token, status)
    {
      terminal := terminal[token := Outcome(status, false)];
      active, objects := active - {token}, objects[token := objects[token].(lifecycle := Released)];
    }

    method SettleLedger(token: Token, used: bool)
      modifies this`settled
      ensures Desk() == old(Desk()).(settled := old(settled) + [(token, used)])
    {
      settled := settled + [(token, used)];
    }

    /** `_finish` running on its own: it does what its steps do one after the other. */
    method Finish(token: Token, status: Status, consumed: Option<bool>, closes: bool) returns (first: bool)
      requires token in objects
      modifies this
      ensures first <==> !Over(old(objects)[token].lifecycle)
      ensures Desk() == EndAlone(old(Desk()), token, status, consumed, closes)
    {
      first := TryEnd(token, status);
      if first {
        var used := if consumed.Some? then consumed.value else status != Completed;
        if closes {
          MoveToReleased(token, status);
          SettleLedger(token, used);
        } else {
          MoveToQuarantine(token, status);
          SettleLedger(token, used);
          StoreTerminal(token, Outcome(status, true));
        }
      }
    }

    /** `_worker_terminal` running on its own. */
    method WorkerTerminal(token: Token, notice: Notice, closes: bool)
      requires token in active ==> token in objects
      modifies this
      ensures Desk() == NotifyAlone(old(Desk()), token, notice, closes)
    {
      if token !in active {
        early := early[token := notice];
        return;
      }
      var pending := objects[token].lifecycle.Pending?;
      var first := TryEnd(token, notice.status);
      if first {
        if notice.closed && closes {
          MoveToReleased(token, notice.status);
        } else {
          MoveToQuarantine(token, notice.status);
          StoreTerminal(token, Outcome(objects[token].cleanup.value, true));
        }
        SettleLedger(token, !pending);
      }
    }

    /** The end of `retry_cleanup`, after worker and lease have been closed. */
    method FinishCleanup(token: Token)
      requires token in objects
      modifies this
      ensures Desk() == Clear(old(Desk()), token)
    {
      var status := if objects[token].cleanup.Some? then objects[token].cleanup.value else Failed;
      MoveToReleased(token, status);
      failedClosures := failedClosures - {token};
    }
  }

  function Charge(d: Desk, token: Token, used: bool): Desk {
    d.(settled := d.settled + [(token, used)])
  }

  /** `_finish` without interference: released and settled, or quarantined, settled and recorded. */
  function EndAlone(d: Desk, token: Token, status: Status, consumed: Option<bool>, closes: bool): Desk
    requires token in d.objects
  {
    var used := if consumed.Some? then consumed.value else status != Completed;
    if Over(d.objects[token].lifecycle) then d
    else if closes then Charge(Release(Win(d, token, status), token, status), token, used)
    else Store(Charge(Quarantine(Win(d, token, status), token, status), token, used), token, Outcome(status, true))
  }

  function NotifyAlone(d: Desk, token: Token, notice: Notice, closes: bool): Desk
    requires token in d.active ==> token in d.objects
  {
    if token !in d.active then d.(early := d.early[token := notice])
    else if Over(d.objects[token].lifecycle) then d
    else
      var used := !d.objects[token].lifecycle.Pending?;
      if notice.closed && closes then Charge(Release(Win(d, token, notice.status), token, notice.status), token, used)
      else Charge(Store(Quarantine(Win(d, token, notice.status), token, notice.status), token, Outcome(notice.status, true)), token, used)
  }

  /** A thread's next steps, one after the other and without interference; `closes` is the outcome
   *  of the closing calls. */
  function Steps(d: Desk, t: Thread, closes: bool, n: nat): (Desk, Thread)
    decreases n
  {
    if n == 0 then (d, t)
    else
      var (d', t') := Advance(d, t, closes);
      Steps(d', t', closes, n - 1)
  }

  /** The whole call is what the machine's steps make of it when nobody interferes. */
  lemma {:induction false} EndAloneIsItsSteps(d: Desk, token: Token, status: Status, consumed: Option<bool>, closes: bool)
    requires token in d.objects
    ensures Steps(d, Ending(token, status, consumed), closes, 5) == (EndAlone(d, token, status, consumed, closes), Idle)
  {
    var (d1, t1) := Advance(d, Ending(token, status, consumed), closes);
    var (d2, t2) := Advance(d1, t1, closes);
    var (d3, t3) := Advance(d2, t2, closes);
    var (d4, t4) := Advance(d3, t3, closes);
    var (d5, t5) := Advance(d4, t4, closes);
    FiveSteps(d, Ending(token, status, consumed), closes, d1, t1, d2, t2, d3, t3, d4, t4);
  }

  lemma {:induction false} NotifyAloneIsItsSteps(d: Desk, token: Token, notice: Notice, closes: bool)
    requires token in d.active ==> token in d.objects
    ensures Steps(d, Notified(token, notice), closes, 5) == (NotifyAlone(d, token, notice, closes), Idle)
  {
    var (d1, t1) := Advance(d, Notified(token, notice), closes);
    var (d2, t2) := Advance(d1, t1, closes);
    var (d3, t3) := Advance(d2, t2, closes);
    var (d4, t4) := Advance(d3, t3, closes);
    FiveSteps(d, Notified(token, notice), closes, d1, t1, d2, t2, d3, t3, d4, t4);
  }

  lemma {:induction false} FiveSteps(
    d: Desk, t: Thread, closes: bool, d1: Desk, t1: Thread, d2: Desk, t2: Thread, d3: Desk, t3: Thread, d4: Desk, t4: Thread)
    requires Advance(d, t, closes) == (d1, t1) && Advance(d1, t1, closes) == (d2, t2)
    requires Advance(d2, t2, closes) == (d3, t3) && Advance(d3, t3, closes) == (d4, t4)
    ensures Steps(d, t, closes, 5) == Advance(d4, t4, closes)
  {
    assert Steps(d4, t4, closes, 1) == Steps(Advance(d4, t4, closes).0, Advance(d4, t4, closes).1, closes, 0);
    assert Steps(d3, t3, closes, 2) == Steps(d4, t4, closes, 1);
    assert Steps(d2, t2, closes, 3) == Steps(d3, t3, closes, 2);
    assert Steps(d1, t1, closes, 4) == Steps(d2, t2, closes, 3);
    assert Steps(d, t, closes, 5) == Steps(d1, t1, closes, 4);
  }
}
