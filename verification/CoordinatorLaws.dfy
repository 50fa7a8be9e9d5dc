/** What holds of every verification in every reachable state: one winner, one settlement, one
 *  terminal status, and slots that are bounded and freed once. */
module CoordinatorLaws {
  import opened Basics
  import opened CoordinatorMachine

  // ---------------------------------------------------------------- one desk, one thread

  predicate SettledToken(d: Desk, token: Token) {
    exists i :: 0 <= i < |d.settled| && d.settled[i].0 == token
  }

  predicate Live(d: Desk, token: Token) {
    token in d.objects && !Over(d.objects[token].lifecycle)
  }

  /** A verification is in `_active` until it is released, in `_failed_closures` while it is
   *  quarantined, has one winning status from the moment it is over, and every status kept for it
   *  is that one. */
  ghost predicate TokenOk(d: Desk, token: Token) {
    && (token in d.active <==> token in d.objects && !d.objects[token].lifecycle.Released?)
    && (token in d.failed <==> token in d.objects && d.objects[token].lifecycle.Quarantined?)
    && (token in d.won <==> token in d.objects && Over(d.objects[token].lifecycle))
    && (token in d.objects ==> token in d.issued)
    && (token in d.objects && d.objects[token].cleanup.Some? ==> token in d.won && d.objects[token].cleanup.value == d.won[token])
    && (token in d.objects && d.objects[token].lifecycle.Quarantined? ==> d.objects[token].cleanup.Some?)
    && (token in d.terminal ==> token in d.won && d.terminal[token].status == d.won[token])
    && (SettledToken(d, token) ==> token in d.issued && !Live(d, token))
  }

  ghost predicate DeskOk(d: Desk) {
    && (forall token :: TokenOk(d, token))
    && (forall i, j :: 0 <= i < j < |d.settled| ==> d.settled[i].0 != d.settled[j].0)
  }

  /** The token a thread will still settle. */
  function Owes(t: Thread): Option<Token> {
    match t
    case Reserving(token) => Some(token)
    case Acquiring(token) => Some(token)
    case Closing(token, _, _, _) => Some(token)
    case Releasing(token, _, _) => Some(token)
    case Quarantining(token, _, _, _) => Some(token)
    case Settling(token, _, _) => Some(token)
    case StoringCleanup(token, _) => Some(token)
    case _ => None
  }

  predicate HasStatus(d: Desk, token: Token, status: Status) {
    token in d.won && d.won[token] == status
  }

  predicate Ended(d: Desk, token: Token, status: Status) {
    token in d.objects && d.objects[token].lifecycle.Terminating? && HasStatus(d, token, status)
  }

  predicate NeedsCleanup(d: Desk, token: Token) {
    token in d.objects && d.objects[token].lifecycle in {Quarantined, Released} && d.objects[token].cleanup.Some?
  }

  ghost predicate ThreadOk(d: Desk, t: Thread) {
    && (Owes(t).Some? ==> Owes(t).value in d.issued && !SettledToken(d, Owes(t).value) && !Live(d, Owes(t).value))
    && match t
       case Reserving(token) => token !in d.objects
       case Acquiring(token) => token !in d.objects
       case Closing(token, status, _, _) => Ended(d, token, status)
       case Releasing(token, status, _) => Ended(d, token, status)
       case Quarantining(token, status, _, _) => Ended(d, token, status)
       case Settling(token, _, andStore) => andStore.Some? ==> HasStatus(d, token, andStore.value)
       case Storing(token, status) => HasStatus(d, token, status)
       case StoringCleanup(token, _) => NeedsCleanup(d, token)
       case Clearing(token) => NeedsCleanup(d, token)
       case _ => true
  }

  /** What may happen to a token behind the back of a thread that does not owe it. */
  ghost predicate Gentle(d: Desk, d': Desk, token: Token) {
    && (token in d.issued ==> token in d'.issued)
    && (token in d.issued && token !in d.objects ==> token !in d'.objects)
    && (token in d.objects ==> token in d'.objects)
    && (token in d.won ==> token in d'.won && d'.won[token] == d.won[token])
    && (token in d.objects && d.objects[token].lifecycle.Terminating? ==> d'.objects[token].lifecycle.Terminating?)
    && (NeedsCleanup(d, token) ==> NeedsCleanup(d', token))
    && (SettledToken(d', token) ==> SettledToken(d, token))
    && (Live(d', token) && token in d.issued ==> Live(d, token))
  }

  // ---------------------------------------------------------------- one step

  /** Nothing about the token has changed. */
  ghost predicate Same(d: Desk, d': Desk, x: Token) {
    && (x in d.objects <==> x in d'.objects) && (x in d.objects ==> d'.objects[x] == d.objects[x])
    && (x in d.active <==> x in d'.active) && (x in d.failed <==> x in d'.failed)
    && (x in d.won <==> x in d'.won) && (x in d.won ==> d'.won[x] == d.won[x])
    && (x in d'.terminal ==> x in d.terminal && d'.terminal[x] == d.terminal[x])
    && (x in d.issued ==> x in d'.issued)
    && (SettledToken(d, x) <==> SettledToken(d', x))
  }

  lemma SameIsFine(d: Desk, d': Desk, x: Token)
    requires Same(d, d', x)
    ensures TokenOk(d, x) ==> TokenOk(d', x)
    ensures Gentle(d, d', x)
  {
  }

  /** A step that touches one token keeps the desk if it keeps that token. */
  lemma OneTokenStep(d: Desk, d': Desk, y: Token)
    requires DeskOk(d) && d'.settled == d.settled && TokenOk(d', y)
    requires forall x :: x != y ==> Same(d, d', x)
    ensures DeskOk(d') && forall x :: x != y ==> Gentle(d, d', x)
  {
    forall x ensures TokenOk(d', x) {
      if x != y {
        SameIsFine(d, d', x);
      }
    }
    forall x | x != y ensures Gentle(d, d', x) {
      SameIsFine(d, d', x);
    }
  }

  ghost predicate Proceeds(d: Desk, t: Thread, d': Desk, t': Thread) {
    && DeskOk(d') && ThreadOk(d', t') && d.settled <= d'.settled
    && (forall x :: Owes(t) != Some(x) ==> Gentle(d, d', x))
    && (Owes(t').Some? ==> Owes(t') == Owes(t) || Live(d, Owes(t').value) || Owes(t').value !in d.issued)
    && (Owes(t).Some? && Owes(t') != Owes(t) ==> SettledToken(d', Owes(t).value) || Owes(t).value !in d'.won)
    && (forall x :: x in d'.won && x !in d.won ==> Owes(t') == Some(x))
    && (forall x :: x in d.won ==> x in d'.won && d'.won[x] == d.won[x])
    && (forall x :: NeedsCleanup(d, x) ==> NeedsCleanup(d', x))
  }

  lemma Quiet(d: Desk, t: Thread, d': Desk, t': Thread)
    requires DeskOk(d) && ThreadOk(d, t) && ThreadOk(d', t') && (forall x :: Same(d, d', x)) && d'.settled == d.settled
    requires Owes(t') == Owes(t) || (Owes(t').None? && Owes(t).value !in d.won)
    ensures Proceeds(d, t, d', t')
  {
    forall x ensures TokenOk(d', x) && Gentle(d, d', x) && (x in d'.won <==> x in d.won) {
      assert Same(d, d', x);
      SameIsFine(d, d', x);
    }
  }

  lemma Single(d: Desk, t: Thread, d': Desk, t': Thread, y: Token)
    requires DeskOk(d) && d'.settled == d.settled && TokenOk(d', y) && ThreadOk(d', t')
    requires forall x :: x != y ==> Same(d, d', x)
    requires Owes(t) != Some(y) ==> Gentle(d, d', y)
    requires Owes(t').Some? ==> Owes(t') == Owes(t) || Live(d, Owes(t').value)
    requires Owes(t).Some? && Owes(t') != Owes(t) ==> Owes(t).value !in d'.won
    requires y in d'.won && y !in d.won ==> Owes(t') == Some(y)
    requires y in d.won ==> y in d'.won && d'.won[y] == d.won[y]
    requires NeedsCleanup(d, y) ==> NeedsCleanup(d', y)
    ensures Proceeds(d, t, d', t')
  {
    OneTokenStep(d, d', y);
    forall x | x in d.won ensures x in d'.won && d'.won[x] == d.won[x] {
      assert x != y ==> Same(d, d', x);
    }
    forall x | NeedsCleanup(d, x) ensures NeedsCleanup(d', x) {
      assert x != y ==> Same(d, d', x);
    }
    forall x | x in d'.won && x !in d.won ensures x == y {
      assert x != y ==> Same(d, d', x);
    }
  }

  lemma RegisterProceeds(d: Desk, token: Token)
    requires DeskOk(d) && ThreadOk(d, Acquiring(token))
    ensures var (d', t') := Register(d, token); Proceeds(d, Acquiring(token), d', t')
  {
    var (d', t') := Register(d, token);
    assert TokenOk(d, token);
    Single(d, Acquiring(token), d', t', token);
  }

  lemma NavigatingProceeds(d: Desk, token: Token, good: bool)
    requires DeskOk(d)
    ensures var (d', t') := Advance(d, Navigating(token), good); Proceeds(d, Navigating(token), d', t')
  {
    var (d', t') := Advance(d, Navigating(token), good);
    assert TokenOk(d, token);
    Single(d, Navigating(token), d', t', token);
  }

  lemma WinProceeds(d: Desk, t: Thread, token: Token, status: Status, t': Thread)
    requires DeskOk(d) && Owes(t).None? && Live(d, token)
    requires Owes(t') == Some(token) && (t'.Closing? || t'.Quarantining?) && t'.status == status
    ensures Proceeds(d, t, Win(d, token, status), t')
  {
    assert TokenOk(d, token);
    Single(d, t, Win(d, token, status), t', token);
  }

  lemma EndingProceeds(d: Desk, token: Token, status: Status, consumed: Option<bool>, good: bool)
    requires DeskOk(d)
    ensures var (d', t') := Advance(d, Ending(token, status, consumed), good); Proceeds(d, Ending(token, status, consumed), d', t')
  {
    var (d', t') := Advance(d, Ending(token, status, consumed), good);
    if Live(d, token) {
      WinProceeds(d, Ending(token, status, consumed), token, status, t');
    } else {
      Quiet(d, Ending(token, status, consumed), d', t');
    }
  }

  lemma NotifiedProceeds(d: Desk, token: Token, notice: Notice, good: bool)
    requires DeskOk(d)
    ensures var (d', t') := Advance(d, Notified(token, notice), good); Proceeds(d, Notified(token, notice), d', t')
  {
    var (d', t') := Advance(d, Notified(token, notice), good);
    assert TokenOk(d, token);
    if Live(d, token) {
      WinProceeds(d, Notified(token, notice), token, notice.status, t');
    } else {
      Quiet(d, Notified(token, notice), d', t');
    }
  }

  lemma ReleasingProceeds(d: Desk, token: Token, status: Status, used: bool, good: bool)
    requires DeskOk(d) && ThreadOk(d, Releasing(token, status, used))
    ensures var (d', t') := Advance(d, Releasing(token, status, used), good); Proceeds(d, Releasing(token, status, used), d', t')
  {
    var (d', t') := Advance(d, Releasing(token, status, used), good);
    assert TokenOk(d, token);
    Single(d, Releasing(token, status, used), d', t', token);
  }

  lemma QuarantiningProceeds(d: Desk, token: Token, status: Status, used: bool, notified: bool, good: bool)
    requires DeskOk(d) && ThreadOk(d, Quarantining(token, status, used, notified))
    ensures var (d', t') := Advance(d, Quarantining(token, status, used, notified), good);
      Proceeds(d, Quarantining(token, status, used, notified), d', t')
  {
    var (d', t') := Advance(d, Quarantining(token, status, used, notified), good);
    assert TokenOk(d, token);
    Single(d, Quarantining(token, status, used, notified), d', t', token);
  }

  lemma StoringProceeds(d: Desk, token: Token, status: Status, t: Thread, t': Thread)
    requires DeskOk(d) && HasStatus(d, token, status) && ThreadOk(d, t) && ThreadOk(d, t') && Owes(t') == Owes(t)
    ensures Proceeds(d, t, Store(d, token, Outcome(status, true)), t')
  {
    assert TokenOk(d, token);
    Single(d, t, Store(d, token, Outcome(status, true)), t', token);
  }

  lemma ClearingProceeds(d: Desk, token: Token, good: bool)
    requires DeskOk(d) && ThreadOk(d, Clearing(token))
    ensures var (d', t') := Advance(d, Clearing(token), good); Proceeds(d, Clearing(token), d', t')
  {
    var (d', t') := Advance(d, Clearing(token), good);
    assert TokenOk(d, token);
    Single(d, Clearing(token), d', t', token);
  }

  lemma SettlingProceeds(d: Desk, token: Token, used: bool, andStore: Option<Status>, good: bool)
    requires DeskOk(d) && ThreadOk(d, Settling(token, used, andStore))
    ensures var (d', t') := Advance(d, Settling(token, used, andStore), good);
      Proceeds(d, Settling(token, used, andStore), d', t')
  {
    var t := Settling(token, used, andStore);
    var (d', t') := Advance(d, t, good);
    assert d'.settled[|d.settled|].0 == token;
    forall x ensures SettledToken(d', x) <==> SettledToken(d, x) || x == token {
      SettledAfter(d, token, used, x);
    }
    forall x ensures TokenOk(d', x) {
      assert TokenOk(d, x);
    }
  }

  lemma SettledAfter(d: Desk, token: Token, used: bool, x: Token)
    ensures SettledToken(d.(settled := d.settled + [(token, used)]), x) <==> SettledToken(d, x) || x == token
  {
    var d' := d.(settled := d.settled + [(token, used)]);
    assert d'.settled[|d.settled|].0 == token;
    if SettledToken(d, x) {
      var i :| 0 <= i < |d.settled| && d.settled[i].0 == x;
      assert d'.settled[i].0 == x;
    }
    if SettledToken(d', x) && x != token {
      var i :| 0 <= i < |d'.settled| && d'.settled[i].0 == x;
      assert d.settled[i].0 == x;
    }
  }

  lemma AdvanceProceeds(d: Desk, t: Thread, good: bool)
    requires DeskOk(d) && ThreadOk(d, t)
    ensures var (d', t') := Advance(d, t, good); Proceeds(d, t, d', t')
  {
    var (d', t') := Advance(d, t, good);
    match t
    case Acquiring(token) =>
      if good {
        RegisterProceeds(d, token);
      } else {
        Quiet(d, t, d', t');
      }
    case Navigating(token) => NavigatingProceeds(d, token, good);
    case Ending(token, status, consumed) => EndingProceeds(d, token, status, consumed, good);
    case Releasing(token, status, used) => ReleasingProceeds(d, token, status, used, good);
    case Quarantining(token, status, used, notified) => QuarantiningProceeds(d, token, status, used, notified, good);
    case Settling(token, used, andStore) => SettlingProceeds(d, token, used, andStore, good);
    case Storing(token, status) => StoringProceeds(d, token, status, t, t');
    case Notified(token, notice) => NotifiedProceeds(d, token, notice, good);
    case StoringCleanup(token, used) =>
      assert TokenOk(d, token);
      StoringProceeds(d, token, CleanupStatus(d, token), t, t');
    case Clearing(token) => ClearingProceeds(d, token, good);
    case Reserving(token) =>
      assert TokenOk(d, token);
      Quiet(d, t, d', t');
    case _ => Quiet(d, t, d', t');
  }

  // ---------------------------------------------------------------- all threads

  ghost predicate OweApart(threads: seq<Thread>) {
    forall m, n :: 0 <= m < n < |threads| && Owes(threads[m]).Some? ==> Owes(threads[m]) != Owes(threads[n])
  }

  ghost predicate SomebodyOwes(threads: seq<Thread>, token: Token) {
    exists n :: 0 <= n < |threads| && Owes(threads[n]) == Some(token)
  }

  /** Every verification that is over has been settled, or exactly one thread is about to. */
  ghost predicate StateOk(s: State) {
    && DeskOk(s.desk)
    && (forall n :: 0 <= n < |s.threads| ==> ThreadOk(s.desk, s.threads[n]))
    && OweApart(s.threads)
    && (forall token :: token in s.desk.won ==> SettledToken(s.desk, token) || SomebodyOwes(s.threads, token))
  }

  lemma OthersStay(d: Desk, t: Thread, d': Desk, t': Thread, u: Thread)
    requires Proceeds(d, t, d', t') && ThreadOk(d, u) && (Owes(u).Some? ==> Owes(u) != Owes(t))
    ensures ThreadOk(d', u)
  {
    if Owes(u).Some? {
      assert Gentle(d, d', Owes(u).value);
    }
  }

  lemma OwesAfter(threads: seq<Thread>, n: nat, t: Thread, token: Token)
    requires n < |threads| && OweApart(threads)
    ensures SomebodyOwes(threads[n := t], token)
      <==> Owes(t) == Some(token) || (SomebodyOwes(threads, token) && Owes(threads[n]) != Some(token))
  {
    var after := threads[n := t];
    if Owes(t) == Some(token) {
      assert after[n] == t;
    }
    if SomebodyOwes(threads, token) && Owes(threads[n]) != Some(token) {
      var m :| 0 <= m < |threads| && Owes(threads[m]) == Some(token);
      assert after[m] == threads[m];
    }
    if SomebodyOwes(after, token) && Owes(t) != Some(token) {
      var m :| 0 <= m < |after| && Owes(after[m]) == Some(token);
      assert threads[m] == after[m];
    }
  }

  /** A thread that proceeds leaves the others, and the debts, in order. */
  lemma PutKeeps(s: State, n: nat, d': Desk, t': Thread)
    requires StateOk(s) && n < |s.threads| && Proceeds(s.desk, s.threads[n], d', t')
    ensures StateOk(State(d', s.threads[n := t']))
  {
    var t, after := s.threads[n], s.threads[n := t'];
    forall m | 0 <= m < |after| ensures ThreadOk(d', after[m]) {
      if m != n {
        OthersStay(s.desk, t, d', t', s.threads[m]);
      }
    }
    NewDebtIsNew(s, n, d', t');
    DebtsServed(s, n, d', t');
  }

  lemma NewDebtIsNew(s: State, n: nat, d': Desk, t': Thread)
    requires StateOk(s) && n < |s.threads| && Proceeds(s.desk, s.threads[n], d', t')
    ensures OweApart(s.threads[n := t'])
  {
    forall m | 0 <= m < |s.threads| && m != n && Owes(s.threads[m]).Some? ensures Owes(s.threads[m]) != Owes(t') {
      assert ThreadOk(s.desk, s.threads[m]);
    }
  }

  lemma DebtsServed(s: State, n: nat, d': Desk, t': Thread)
    requires StateOk(s) && n < |s.threads| && Proceeds(s.desk, s.threads[n], d', t')
    ensures forall token :: token in d'.won ==> SettledToken(d', token) || SomebodyOwes(s.threads[n := t'], token)
  {
    forall token | token in d'.won ensures SettledToken(d', token) || SomebodyOwes(s.threads[n := t'], token) {
      OwesAfter(s.threads, n, t', token);
      if SettledToken(s.desk, token) {
        SettledStays(s.desk, s.threads[n], d', t', token);
      }
    }
  }

  lemma SettledStays(d: Desk, t: Thread, d': Desk, t': Thread, token: Token)
    requires Proceeds(d, t, d', t') && SettledToken(d, token)
    ensures SettledToken(d', token)
  {
    var i :| 0 <= i < |d.settled| && d.settled[i].0 == token;
    assert d'.settled[i] == d.settled[i];
  }

  lemma AdmitProceeds(d: Desk, max: nat, token: Token)
    requires DeskOk(d)
    ensures var (d', t') := Admit(d, max, token); Proceeds(d, Idle, d', t')
  {
    var (d', t') := Admit(d, max, token);
    assert TokenOk(d, token);
    if t'.Idle? {
      Quiet(d, Idle, d', t');
    } else {
      forall x ensures Same(d, d', x) {}
      forall x ensures TokenOk(d', x) && Gentle(d, d', x) && (x in d'.won <==> x in d.won) {
        SameIsFine(d, d', x);
      }
    }
  }

  lemma ForgetKeeps(s: State, tokens: set<Token>)
    requires StateOk(s)
    ensures StateOk(s.(desk := s.desk.(terminal := s.desk.terminal - tokens, early := s.desk.early - tokens)))
  {
    var d' := s.desk.(terminal := s.desk.terminal - tokens, early := s.desk.early - tokens);
    forall x ensures TokenOk(d', x) {
      assert Same(s.desk, d', x) && TokenOk(s.desk, x);
      SameIsFine(s.desk, d', x);
    }
    forall n | 0 <= n < |s.threads| ensures ThreadOk(d', s.threads[n]) {}
    forall token | token in d'.won ensures SettledToken(d', token) || SomebodyOwes(s.threads, token) {
      assert SettledToken(s.desk, token) <==> SettledToken(d', token);
    }
  }

  /** One step of a thread, with what it does to the desk and to the thread. */
  function Effect(max: nat, s: State, step: Step): (Desk, Thread)
    requires !step.Forget? && step.thread < |s.threads|
  {
    var t := s.threads[step.thread];
    match step
    case Begin(_, token) => if t.Idle? then Admit(s.desk, max, token) else (s.desk, t)
    case End(_, token, status, consumed) => (s.desk, if t.Idle? then Ending(token, status, consumed) else t)
    case Notify(_, token, notice) => (s.desk, if t.Idle? then Notified(token, notice) else t)
    case Retry(_, token) => (s.desk, if t.Idle? && token in s.desk.failed then Clearing(token) else t)
    case Go(_, good) => Advance(s.desk, t, good)
  }

  lemma TakeIsEffect(max: nat, s: State, step: Step)
    requires !step.Forget? && step.thread < |s.threads|
    ensures Take(max, s, step) == Put(s, step.thread, Effect(max, s, step))
  {
    assert s.threads[step.thread := s.threads[step.thread]] == s.threads;
  }

  lemma EffectProceeds(max: nat, s: State, step: Step)
    requires StateOk(s) && !step.Forget? && step.thread < |s.threads|
    ensures var (d', t') := Effect(max, s, step); Proceeds(s.desk, s.threads[step.thread], d', t')
  {
    var d, t := s.desk, s.threads[step.thread];
    match step
    case Go(_, good) => AdvanceProceeds(d, t, good);
    case Begin(_, token) =>
      if t.Idle? {
        AdmitProceeds(d, max, token);
      } else {
        Quiet(d, t, d, t);
      }
    case Retry(_, token) =>
      assert TokenOk(d, token);
      Quiet(d, t, d, Effect(max, s, step).1);
    case End(_, _, _, _) => Quiet(d, t, d, Effect(max, s, step).1);
    case Notify(_, _, _) => Quiet(d, t, d, Effect(max, s, step).1);
  }

  lemma TakeKeepsState(max: nat, s: State, step: Step)
    requires StateOk(s)
    ensures StateOk(Take(max, s, step))
  {
    if step.Forget? {
      ForgetKeeps(s, step.tokens);
    } else if step.thread < |s.threads| {
      EffectProceeds(max, s, step);
      TakeIsEffect(max, s, step);
      PutKeeps(s, step.thread, Effect(max, s, step).0, Effect(max, s, step).1);
    }
  }

  lemma {:induction false} PlayKeepsState(max: nat, s: State, steps: seq<Step>)
    requires StateOk(s)
    ensures StateOk(Play(max, s, steps))
    decreases |steps|
  {
    if steps != [] {
      TakeKeepsState(max, s, steps[0]);
      PlayKeepsState(max, Take(max, s, steps[0]), steps[1..]);
    }
  }

  lemma FreshIsOk(s: State)
    requires Fresh(s)
    ensures StateOk(s)
  {
  }

  // ---------------------------------------------------------------- the winner and its settlement

  lemma TakeKeepsWinners(max: nat, s: State, step: Step, token: Token)
    requires StateOk(s) && token in s.desk.won
    ensures var s' := Take(max, s, step); token in s'.desk.won && s'.desk.won[token] == s.desk.won[token]
  {
    if !step.Forget? && step.thread < |s.threads| {
      EffectProceeds(max, s, step);
      TakeIsEffect(max, s, step);
    }
  }

  /** Exactly one call wins the move to terminating: after any run a verification that has been won
   *  still has that one winning status, and is over, so that the guard of the compare-and-set turns
   *  everybody away who tries to end it. */
  lemma {:induction false} WonOnce(max: nat, s: State, steps: seq<Step>, token: Token)
    requires StateOk(s) && token in s.desk.won
    ensures var d := Play(max, s, steps).desk;
      && token in d.won && d.won[token] == s.desk.won[token]
      && token in d.objects && Over(d.objects[token].lifecycle)
    decreases |steps|
  {
    assert TokenOk(s.desk, token);
    if steps != [] {
      TakeKeepsWinners(max, s, steps[0], token);
      TakeKeepsState(max, s, steps[0]);
      WonOnce(max, Take(max, s, steps[0]), steps[1..], token);
    }
  }

  /** The status that is kept for a verification never changes: whenever there is one, now or after
   *  any further steps, it is the status with which the verification was won. */
  lemma TerminalStatusIsStable(max: nat, s: State, steps: seq<Step>, token: Token)
    requires StateOk(s) && token in s.desk.terminal && token in Play(max, s, steps).desk.terminal
    ensures Play(max, s, steps).desk.terminal[token].status == s.desk.terminal[token].status
  {
    assert TokenOk(s.desk, token);
    WonOnce(max, s, steps, token);
    PlayKeepsState(max, s, steps);
    assert TokenOk(Play(max, s, steps).desk, token);
  }

  /** Once all threads have come to rest, every verification that was won has been settled with the
   *  ledger exactly once. */
  lemma SettledExactlyOnce(max: nat, s: State, steps: seq<Step>, token: Token)
    requires Fresh(s)
    requires var s' := Play(max, s, steps); token in s'.desk.won && forall n :: 0 <= n < |s'.threads| ==> s'.threads[n].Idle?
    ensures var log := Play(max, s, steps).desk.settled;
      exists i :: 0 <= i < |log| && log[i].0 == token && forall j :: 0 <= j < |log| && log[j].0 == token ==> j == i
  {
    FreshIsOk(s);
    PlayKeepsState(max, s, steps);
    var s' := Play(max, s, steps);
    assert SettledToken(s'.desk, token);
    var i :| 0 <= i < |s'.desk.settled| && s'.desk.settled[i].0 == token;
    forall j | 0 <= j < |s'.desk.settled| && s'.desk.settled[j].0 == token ensures j == i {}
  }

  /** What a thread is going to tell the ledger. */
  function Flag(t: Thread): Option<bool> {
    match t
    case Closing(_, _, used, _) => Some(used)
    case Releasing(_, _, used) => Some(used)
    case Quarantining(_, _, used, _) => Some(used)
    case Settling(_, used, _) => Some(used)
    case StoringCleanup(_, used) => Some(used)
    case _ => None
  }

  /** What it has to tell: whoever ends a verification may say so, and otherwise only a completed one
   *  is not charged; a worker's notice charges one that had become active. */
  function Charge(d: Desk, t: Thread): bool
    requires t.Ending? || t.Notified?
  {
    match t
    case Ending(_, status, consumed) => if consumed.Some? then consumed.value else status != Completed
    case Notified(token, _) => token in d.objects && !d.objects[token].lifecycle.Pending?
  }

  predicate CarriesFlag(s: State, n: nat, token: Token, used: bool) {
    n < |s.threads| && Owes(s.threads[n]) == Some(token) && Flag(s.threads[n]) == Some(used)
  }

  lemma WinCarriesFlag(max: nat, s: State, step: Step, token: Token)
    requires token !in s.desk.won && token in Take(max, s, step).desk.won
    ensures step.Go? && step.thread < |s.threads| && (s.threads[step.thread].Ending? || s.threads[step.thread].Notified?)
    ensures CarriesFlag(Take(max, s, step), step.thread, token, Charge(s.desk, s.threads[step.thread]))
  {
  }

  lemma StepCarriesFlag(max: nat, s: State, step: Step, n: nat, token: Token, used: bool)
    requires StateOk(s) && CarriesFlag(s, n, token, used)
    ensures CarriesFlag(Take(max, s, step), n, token, used) || (token, used) in Take(max, s, step).desk.settled
  {
    assert ThreadOk(s.desk, s.threads[n]);
  }

  lemma LogGrows(max: nat, s: State, step: Step)
    ensures s.desk.settled <= Take(max, s, step).desk.settled
  {
  }

  lemma {:induction false} LogOnlyGrows(max: nat, s: State, steps: seq<Step>, x: (Token, bool))
    requires x in s.desk.settled
    ensures x in Play(max, s, steps).desk.settled
    decreases |steps|
  {
    if steps != [] {
      LogGrows(max, s, steps[0]);
      LogOnlyGrows(max, Take(max, s, steps[0]), steps[1..], x);
    }
  }

  /** The flag is carried to the ledger. */
  lemma {:induction false} FlagIsCarried(max: nat, s: State, steps: seq<Step>, n: nat, token: Token, used: bool)
    requires StateOk(s) && CarriesFlag(s, n, token, used)
    ensures CarriesFlag(Play(max, s, steps), n, token, used) || (token, used) in Play(max, s, steps).desk.settled
    decreases |steps|
  {
    if steps != [] {
      var s1 := Take(max, s, steps[0]);
      StepCarriesFlag(max, s, steps[0], n, token, used);
      TakeKeepsState(max, s, steps[0]);
      if (token, used) in s1.desk.settled {
        LogOnlyGrows(max, s1, steps[1..], (token, used));
      } else {
        FlagIsCarried(max, s1, steps[1..], n, token, used);
      }
    }
  }

  /** The one settlement of a verification charges it as the call did that won it. */
  lemma SettledAsCharged(max: nat, s: State, win: Step, steps: seq<Step>, token: Token)
    requires StateOk(s) && token !in s.desk.won && token in Take(max, s, win).desk.won
    requires var s' := Play(max, Take(max, s, win), steps); forall n :: 0 <= n < |s'.threads| ==> s'.threads[n].Idle?
    ensures win.Go? && win.thread < |s.threads| && (s.threads[win.thread].Ending? || s.threads[win.thread].Notified?)
    ensures var log := Play(max, Take(max, s, win), steps).desk.settled;
      exists i :: 0 <= i < |log| && log[i] == (token, Charge(s.desk, s.threads[win.thread]))
        && forall j :: 0 <= j < |log| && log[j].0 == token ==> j == i
  {
    WinCarriesFlag(max, s, win, token);
    var used := Charge(s.desk, s.threads[win.thread]);
    TakeKeepsState(max, s, win);
    FlagIsCarried(max, Take(max, s, win), steps, win.thread, token, used);
    PlayKeepsState(max, Take(max, s, win), steps);
    var s' := Play(max, Take(max, s, win), steps);
    assert (token, used) in s'.desk.settled;
    var i :| 0 <= i < |s'.desk.settled| && s'.desk.settled[i] == (token, used);
    forall j | 0 <= j < |s'.desk.settled| && s'.desk.settled[j].0 == token ensures j == i {}
  }

  // ---------------------------------------------------------------- slots

  predicate HoldsSlot(t: Thread) {
    t.Reserving? || t.Acquiring?
  }

  function Slots(threads: seq<Thread>): nat {
    if threads == [] then 0
    else Slots(threads[..|threads| - 1]) + if HoldsSlot(threads[|threads| - 1]) then 1 else 0
  }

  lemma {:induction false} SlotsAfter(threads: seq<Thread>, n: nat, t: Thread)
    requires n < |threads|
    ensures Slots(threads[n := t]) + (if HoldsSlot(threads[n]) then 1 else 0)
         == Slots(threads) + (if HoldsSlot(t) then 1 else 0)
  {
    var last := |threads| - 1;
    if n < last {
      SlotsAfter(threads[..last], n, t);
      assert threads[n := t][..last] == threads[..last][n := t];
    } else {
      assert threads[n := t][..last] == threads[..last];
    }
  }

  /** Reserved slots are held by just as many threads, and together with the live and quarantined
   *  verifications they stay within the bound. */
  ghost predicate SlotsOk(max: nat, s: State) {
    s.desk.reserved == Slots(s.threads) && Used(s.desk) + s.desk.reserved <= max
  }

  /** A thread's effect on the number of slots. */
  ghost predicate Charges(max: nat, d: Desk, t: Thread, d': Desk, t': Thread) {
    && d'.reserved + (if HoldsSlot(t) then 1 else 0) == d.reserved + (if HoldsSlot(t') then 1 else 0)
    && (Used(d') + d'.reserved <= Used(d) + d.reserved || Used(d') + d'.reserved <= max)
  }

  lemma UsedOf(d: Desk, d': Desk)
    requires d'.active + d'.failed <= d.active + d.failed
    ensures Used(d') <= Used(d)
  {
    Subset(d'.active + d'.failed, d.active + d.failed);
  }

  lemma UsedByOne(d: Desk, d': Desk, token: Token)
    requires d'.active + d'.failed <= d.active + d.failed + {token}
    ensures Used(d') <= Used(d) + 1
  {
    Subset(d'.active + d'.failed, d.active + d.failed + {token});
  }

  lemma AdvanceUses(d: Desk, t: Thread, good: bool)
    requires DeskOk(d) && ThreadOk(d, t) && !(t.Acquiring? && good)
    ensures Used(Advance(d, t, good).0) <= Used(d)
  {
    var d' := Advance(d, t, good).0;
    if t.Quarantining? {
      assert TokenOk(d, t.token);
    }
    assert d'.failed <= d.active + d.failed && d'.active <= d.active;
    UsedOf(d, d');
  }

  lemma AdvanceCharges(max: nat, d: Desk, t: Thread, good: bool)
    requires DeskOk(d) && ThreadOk(d, t) && (HoldsSlot(t) ==> d.reserved > 0)
    ensures var (d', t') := Advance(d, t, good); Charges(max, d, t, d', t')
  {
    if t.Acquiring? && good {
      UsedByOne(d, Register(d, t.token).0, t.token);
    } else {
      AdvanceUses(d, t, good);
    }
  }

  lemma {:induction false} SlotHeld(threads: seq<Thread>, n: nat)
    requires n < |threads| && HoldsSlot(threads[n])
    ensures Slots(threads) > 0
  {
    if n < |threads| - 1 {
      SlotHeld(threads[..|threads| - 1], n);
    }
  }

  lemma EffectCharges(max: nat, s: State, step: Step)
    requires StateOk(s) && SlotsOk(max, s) && !step.Forget? && step.thread < |s.threads|
    ensures var (d', t') := Effect(max, s, step); Charges(max, s.desk, s.threads[step.thread], d', t')
  {
    if HoldsSlot(s.threads[step.thread]) {
      SlotHeld(s.threads, step.thread);
    }
    if step.Go? {
      AdvanceCharges(max, s.desk, s.threads[step.thread], step.good);
    }
  }

  lemma TakeKeepsSlots(max: nat, s: State, step: Step)
    requires StateOk(s) && SlotsOk(max, s)
    ensures SlotsOk(max, Take(max, s, step))
  {
    if !step.Forget? && step.thread < |s.threads| {
      EffectCharges(max, s, step);
      TakeIsEffect(max, s, step);
      SlotsAfter(s.threads, step.thread, Effect(max, s, step).1);
    }
  }

  /** Live, quarantined and reserved slots never exceed the bound, over any run. */
  lemma {:induction false} SlotsBounded(max: nat, s: State, steps: seq<Step>)
    requires StateOk(s) && SlotsOk(max, s)
    ensures SlotsOk(max, Play(max, s, steps))
    decreases |steps|
  {
    if steps != [] {
      TakeKeepsSlots(max, s, steps[0]);
      TakeKeepsState(max, s, steps[0]);
      SlotsBounded(max, Take(max, s, steps[0]), steps[1..]);
    }
  }

  lemma {:induction false} FreshSlots(max: nat, s: State, threads: seq<Thread>)
    requires Fresh(s) && threads <= s.threads
    ensures Slots(threads) == 0
    decreases |threads|
  {
    if threads != [] {
      FreshSlots(max, s, threads[..|threads| - 1]);
    }
  }

  /** A coordinator that has just been built is within its bound. */
  lemma FreshSlotsOk(max: nat, s: State)
    requires Fresh(s)
    ensures SlotsOk(max, s)
  {
    FreshSlots(max, s, s.threads);
    assert s.desk.active + s.desk.failed == {};
  }

  /** A slot is freed once: a verification that has left never takes a slot again. */
  lemma {:induction false} ReleasedForever(max: nat, s: State, steps: seq<Step>, token: Token)
    requires StateOk(s) && token in s.desk.objects && s.desk.objects[token].lifecycle.Released?
    ensures var d := Play(max, s, steps).desk; token !in d.active && token !in d.failed
    decreases |steps|
  {
    assert TokenOk(s.desk, token);
    if steps != [] {
      TakeKeepsState(max, s, steps[0]);
      ReleasedStays(max, s, steps[0], token);
      ReleasedForever(max, Take(max, s, steps[0]), steps[1..], token);
    }
  }

  lemma ReleasedStays(max: nat, s: State, step: Step, token: Token)
    requires StateOk(s) && token in s.desk.objects && s.desk.objects[token].lifecycle.Released?
    ensures var d := Take(max, s, step).desk; token in d.objects && d.objects[token].lifecycle.Released?
  {
    if !step.Forget? && step.thread < |s.threads| {
      TakeIsEffect(max, s, step);
      if step.Go? {
        AdvanceKeepsReleased(s.desk, s.threads[step.thread], step.good, token);
      }
    }
  }

  lemma AdvanceKeepsReleased(d: Desk, t: Thread, good: bool, token: Token)
    requires ThreadOk(d, t) && token in d.objects && d.objects[token].lifecycle.Released?
    ensures var d' := Advance(d, t, good).0; token in d'.objects && d'.objects[token].lifecycle.Released?
  {
  }

  // ---------------------------------------------------------------- what does regress

  /** Whatever is recorded as still to be cleaned up can be cleaned up. */
  predicate FlagsTrue(d: Desk) {
    forall x :: x in d.terminal && d.terminal[x].cleanup ==> x in d.failed
  }

  predicate InQuarantine(d: Desk, token: Token) {
    token in d.objects && d.objects[token].lifecycle.Quarantined?
  }

  predicate Recording(t: Thread) {
    t.Storing? || t.StoringCleanup?
  }

  /** A failed closing is recorded after the cleanup of that verification has succeeded. */
  predicate Late(s: State, step: Step) {
    && step.Go? && step.thread < |s.threads| && Recording(s.threads[step.thread])
    && !InQuarantine(s.desk, s.threads[step.thread].token)
  }

  lemma AdvanceKeepsFlags(d: Desk, t: Thread, good: bool)
    requires DeskOk(d) && FlagsTrue(d) && !Recording(t)
    ensures FlagsTrue(Advance(d, t, good).0)
  {
  }

  lemma RecordingIsTrueIff(d: Desk, t: Thread, good: bool)
    requires DeskOk(d) && FlagsTrue(d) && Recording(t)
    ensures FlagsTrue(Advance(d, t, good).0) <==> InQuarantine(d, t.token)
  {
    assert TokenOk(d, t.token);
    var d' := Advance(d, t, good).0;
    assert t.token in d'.terminal && d'.terminal[t.token].cleanup && d'.failed == d.failed;
  }

  /** Exactly which steps make a record of required cleanup untrue. */
  lemma TakeKeepsFlagsIff(max: nat, s: State, step: Step)
    requires StateOk(s) && FlagsTrue(s.desk)
    ensures FlagsTrue(Take(max, s, step).desk) <==> !Late(s, step)
  {
    if step.Go? && step.thread < |s.threads| {
      if Recording(s.threads[step.thread]) {
        RecordingIsTrueIff(s.desk, s.threads[step.thread], step.good);
      } else {
        AdvanceKeepsFlags(s.desk, s.threads[step.thread], step.good);
      }
    }
  }

  predicate NeverLate(max: nat, s: State, steps: seq<Step>)
    decreases |steps|
  {
    steps != [] ==> !Late(s, steps[0]) && NeverLate(max, Take(max, s, steps[0]), steps[1..])
  }

  predicate FlagsAlwaysTrue(max: nat, s: State, steps: seq<Step>)
    decreases |steps|
  {
    FlagsTrue(s.desk) && (steps != [] ==> FlagsAlwaysTrue(max, Take(max, s, steps[0]), steps[1..]))
  }

  /** Over whole runs: the records tell the truth all along if and only if none is late. */
  lemma {:induction false} FlagsTrueIffNeverLate(max: nat, s: State, steps: seq<Step>)
    requires StateOk(s) && FlagsTrue(s.desk)
    ensures FlagsAlwaysTrue(max, s, steps) <==> NeverLate(max, s, steps)
    decreases |steps|
  {
    if steps != [] {
      TakeKeepsState(max, s, steps[0]);
      TakeKeepsFlagsIff(max, s, steps[0]);
      if FlagsTrue(Take(max, s, steps[0]).desk) {
        FlagsTrueIffNeverLate(max, Take(max, s, steps[0]), steps[1..]);
      }
    }
  }

  /** A call of `_finish` that has not closed the browser and has yet to record it. Those who make
   *  such calls hold the verification's lock, or nobody else knows its token yet. */
  predicate FinishingUp(t: Thread, token: Token) {
    || (t.Quarantining? && t.token == token && !t.notified)
    || (t.Settling? && t.token == token && t.andStore.Some?)
    || (t.Storing? && t.token == token)
  }

  /** A retried cleanup waits for that lock. */
  predicate Orderly(s: State, step: Step) {
    step.Go? && step.thread < |s.threads| && s.threads[step.thread].Clearing? ==>
      forall n :: 0 <= n < |s.threads| ==> !FinishingUp(s.threads[n], s.threads[step.thread].token)
  }

  /** What a call of `_finish` has quarantined is still in quarantine when it is recorded. */
  ghost predicate FinishersTrue(s: State) {
    forall n :: 0 <= n < |s.threads| ==> FinisherTrue(s.desk, s.threads[n])
  }

  predicate FinisherTrue(d: Desk, t: Thread) {
    (t.Storing? || (t.Settling? && t.andStore.Some?)) ==> InQuarantine(d, t.token)
  }

  lemma QuarantineStays(d: Desk, t: Thread, good: bool, token: Token)
    requires DeskOk(d) && ThreadOk(d, t) && InQuarantine(d, token) && !(t.Clearing? && t.token == token)
    ensures InQuarantine(Advance(d, t, good).0, token)
  {
    assert TokenOk(d, token);
  }

  lemma OwnFinisherTrue(d: Desk, t: Thread, good: bool)
    requires DeskOk(d) && ThreadOk(d, t) && FinisherTrue(d, t)
    ensures var (d', t') := Advance(d, t, good); FinisherTrue(d', t')
  {
  }

  lemma OrderlyKeepsFinishers(max: nat, s: State, step: Step)
    requires StateOk(s) && FinishersTrue(s) && Orderly(s, step)
    ensures FinishersTrue(Take(max, s, step))
  {
    if step.Go? && step.thread < |s.threads| {
      var t := s.threads[step.thread];
      OwnFinisherTrue(s.desk, t, step.good);
      forall n | 0 <= n < |s.threads| && n != step.thread ensures FinisherTrue(Advance(s.desk, t, step.good).0, s.threads[n]) {
        var u := s.threads[n];
        if u.Storing? || (u.Settling? && u.andStore.Some?) {
          assert FinishingUp(u, u.token);
          QuarantineStays(s.desk, t, step.good, u.token);
        }
      }
    }
  }

  predicate OrderlyRun(max: nat, s: State, steps: seq<Step>)
    decreases |steps|
  {
    steps != [] ==> Orderly(s, steps[0]) && OrderlyRun(max, Take(max, s, steps[0]), steps[1..])
  }

  /** So with the verification's lock only the notice of a worker can be recorded too late. */
  lemma {:induction false} OnlyNoticesAreLate(max: nat, s: State, steps: seq<Step>, last: Step)
    requires StateOk(s) && FinishersTrue(s) && OrderlyRun(max, s, steps) && Late(Play(max, s, steps), last)
    ensures Play(max, s, steps).threads[last.thread].StoringCleanup?
    decreases |steps|
  {
    if steps != [] {
      TakeKeepsState(max, s, steps[0]);
      OrderlyKeepsFinishers(max, s, steps[0]);
      OnlyNoticesAreLate(max, Take(max, s, steps[0]), steps[1..], last);
    }
  }

  // ---------------------------------------------------------------- a record that is too late

  /** A verification is begun and becomes active; its worker reports that the browser could not be
   *  closed; a retried cleanup succeeds before that has been recorded. */
  function Regression(token: Token, status: Status): seq<Step> {
    [Begin(0, token), Go(0, true), Go(0, true), Go(0, true), Notify(0, token, Notice(status, false)),
     Go(0, true), Go(0, true), Retry(1, token), Go(1, true)]
  }

  lemma PlayOne(max: nat, s: State, step: Step, rest: seq<Step>)
    ensures Play(max, s, [step] + rest) == Play(max, Take(max, s, step), rest)
  {
    assert ([step] + rest)[0] == step && ([step] + rest)[1..] == rest;
  }

  /** The desk after the cleanup: nothing is left of the verification but its last record. */
  function CleanedUp(token: Token, status: Status): Desk {
    Desk(map[token := Verification(Released, Some(status))], {}, {}, map[token := Outcome(status, false)],
         map[], 0, {token}, map[token := status], [])
  }

  lemma RegressionPlays(max: nat, s: State, token: Token, status: Status)
    requires Fresh(s) && |s.threads| >= 2 && max >= 1
    ensures Play(max, s, Regression(token, status))
      == State(CleanedUp(token, status), s.threads[0 := StoringCleanup(token, true)])
  {
    var s3 := QuarantinePrefix(max, s, token, status);
    var rest := [Retry(1, token), Go(1, true)];
    assert rest == [Retry(1, token)] + [Go(1, true)] && [Go(1, true)] == [Go(1, true)] + [];
    var s4 := Take(max, s3, Retry(1, token));
    var s5 := Take(max, s4, Go(1, true));
    PlayOne(max, s3, Retry(1, token), [Go(1, true)]);
    PlayOne(max, s4, Go(1, true), []);
    assert s4.threads[1] == Clearing(token);
    assert s5.desk == CleanedUp(token, status);
    assert s5.threads == s.threads[0 := StoringCleanup(token, true)];
  }

  /** Up to the quarantine. */
  lemma QuarantinePrefix(max: nat, s: State, token: Token, status: Status) returns (s3: State)
    requires Fresh(s) && |s.threads| >= 2 && max >= 1
    ensures s3.threads == s.threads[0 := StoringCleanup(token, true)]
    ensures s3.desk == Desk(map[token := Verification(Quarantined, Some(status))], {token}, {token}, map[],
                            map[], 0, {token}, map[token := status], [])
    ensures Play(max, s, Regression(token, status)) == Play(max, s3, [Retry(1, token), Go(1, true)])
  {
    var s1 := ActivePrefix(max, s, token, status);
    var rest := [Notify(0, token, Notice(status, false)), Go(0, true), Go(0, true), Retry(1, token), Go(1, true)];
    assert rest == [Notify(0, token, Notice(status, false))] + [Go(0, true), Go(0, true), Retry(1, token), Go(1, true)];
    assert rest[1..] == [Go(0, true)] + [Go(0, true), Retry(1, token), Go(1, true)];
    assert rest[2..] == [Go(0, true)] + [Retry(1, token), Go(1, true)];
    var a := Take(max, s1, Notify(0, token, Notice(status, false)));
    var b := Take(max, a, Go(0, true));
    s3 := Take(max, b, Go(0, true));
    PlayOne(max, s1, Notify(0, token, Notice(status, false)), rest[1..]);
    PlayOne(max, a, Go(0, true), rest[2..]);
    PlayOne(max, b, Go(0, true), [Retry(1, token), Go(1, true)]);
    assert a.threads[0] == Notified(token, Notice(status, false));
    assert b.threads[0] == Quarantining(token, status, true, true);
    assert s3.threads[0] == StoringCleanup(token, true);
  }

  /** Up to the moment when the verification is active. */
  lemma ActivePrefix(max: nat, s: State, token: Token, status: Status) returns (s1: State)
    requires Fresh(s) && |s.threads| >= 2 && max >= 1
    ensures s1.threads == s.threads
    ensures s1.desk == Desk(map[token := Verification(Active, None)], {token}, {}, map[], map[], 0, {token}, map[], [])
    ensures Play(max, s, Regression(token, status))
      == Play(max, s1, [Notify(0, token, Notice(status, false)), Go(0, true), Go(0, true), Retry(1, token), Go(1, true)])
  {
    var tail := [Notify(0, token, Notice(status, false)), Go(0, true), Go(0, true), Retry(1, token), Go(1, true)];
    assert Regression(token, status) == [Begin(0, token)] + ([Go(0, true)] + ([Go(0, true)] + ([Go(0, true)] + tail)));
    var a := Take(max, s, Begin(0, token));
    var b := Take(max, a, Go(0, true));
    var c := Take(max, b, Go(0, true));
    s1 := Take(max, c, Go(0, true));
    PlayOne(max, s, Begin(0, token), [Go(0, true)] + ([Go(0, true)] + ([Go(0, true)] + tail)));
    PlayOne(max, a, Go(0, true), [Go(0, true)] + ([Go(0, true)] + tail));
    PlayOne(max, b, Go(0, true), [Go(0, true)] + tail);
    PlayOne(max, c, Go(0, true), tail);
    assert a.threads[0] == Reserving(token) && b.threads[0] == Acquiring(token) && c.threads[0] == Navigating(token);
  }

  /** From a coordinator that has just been built to a record that asks for a cleanup which has
   *  already been made, and which can no longer be asked for. The status is unaffected. */
  lemma CleanupFlagRegresses(max: nat, s: State, token: Token, status: Status)
    requires Fresh(s) && |s.threads| >= 2 && max >= 1
    ensures var s1 := Play(max, s, Regression(token, status));
      var s2 := Take(max, s1, Go(0, true));
      && Late(s1, Go(0, true)) && FlagsTrue(s1.desk) && token in s1.desk.terminal && !s1.desk.terminal[token].cleanup
      && token in s2.desk.terminal && s2.desk.terminal[token] == Outcome(status, true)
      && token !in s2.desk.failed && token in s2.desk.objects && s2.desk.objects[token].lifecycle.Released?
  {
    RegressionPlays(max, s, token, status);
  }
}
