/** What the ledger never exceeds, and what a reservation that is not consumed leaves behind. */
module LedgerLaws {
  import opened Basics
  import opened Tallies
  import opened Ledger

  // ---------------------------------------------------------------- bounds

  /** Everything the file holds, expired or not, is within the limits. */
  ghost predicate Bounded(f: LedgerFile, limits: Limits, maximum: nat) {
    f.Stored? ==> Fits(f.values, limits) && PerKey(f.values, maximum)
  }

  lemma {:induction false} LiveIsShorter(attempts: seq<Attempt>, now: int)
    ensures |Live(attempts, now)| <= |attempts|
  {
    if attempts != [] {
      LiveIsShorter(attempts[..|attempts| - 1], now);
    }
  }

  lemma {:induction false} SettleIsShorter(attempts: seq<Attempt>, id: string, consumed: bool)
    ensures |Settle(attempts, id, consumed)| <= |attempts|
  {
    if attempts != [] {
      SettleIsShorter(attempts[1..], id, consumed);
    }
  }

  lemma {:induction false} WithoutIsShorter(attempts: seq<Attempt>, id: string)
    ensures |Without(attempts, id)| <= |attempts|
  {
    if attempts != [] {
      WithoutIsShorter(attempts[..|attempts| - 1], id);
    }
  }

  ghost predicate PerKey(m: Values, maximum: nat) {
    forall k :: k in m ==> |m[k]| <= maximum
  }

  lemma PrunedPerKey(m: Values, now: int, maximum: nat)
    requires PerKey(m, maximum)
    ensures PerKey(Pruned(m, now), maximum)
  {
    forall k | k in Pruned(m, now) ensures |Pruned(m, now)[k]| <= maximum {
      LiveIsShorter(m[k], now);
    }
  }

  lemma WithFits(m: Values, key: string, attempts: seq<Attempt>, limits: Limits)
    requires Fits(m, limits) && |attempts| <= |AttemptsOf(m, key)|
    ensures Fits(With(m, key, attempts), limits)
  {
    TotalAfter(m, key, attempts);
    if attempts == [] {
      if key in m {
        TotalWithout(m, key);
        assert (m - {key}).Keys == m.Keys - {key};
      } else {
        assert m - {key} == m;
      }
    } else {
      assert m[key := attempts].Keys == m.Keys;
    }
  }

  lemma GrownFits(m: Values, key: string, a: Attempt, limits: Limits)
    requires HasRoom(m, limits, key)
    ensures Fits(m[key := AttemptsOf(m, key) + [a]], limits)
  {
    TotalAfter(m, key, AttemptsOf(m, key) + [a]);
    assert m[key := AttemptsOf(m, key) + [a]].Keys == m.Keys + {key};
  }

  lemma WithPerKey(m: Values, key: string, attempts: seq<Attempt>, maximum: nat)
    requires PerKey(m, maximum) && |attempts| <= maximum
    ensures PerKey(With(m, key, attempts), maximum) && PerKey(m[key := attempts], maximum)
  {
  }

  lemma ReadingBounded(f: LedgerFile, limits: Limits, now: int, maximum: nat)
    requires Bounded(f, limits, maximum) && ReadFile(f, limits, now).Read?
    ensures var m := ReadFile(f, limits, now).values; Fits(m, limits) && PerKey(m, maximum)
  {
    if f.Stored? {
      PrunedPerKey(f.values, now, maximum);
    }
  }

  /** The two ledgers that a reservation writes: with the new attempt, and with it taken out again. */
  lemma ReservedBounded(m: Values, key: string, a: Attempt, limits: Limits, maximum: nat)
    requires Fits(m, limits) && PerKey(m, maximum)
    requires |AttemptsOf(m, key)| < maximum && HasRoom(m, limits, key)
    ensures var more := AttemptsOf(m, key) + [a];
      && Fits(m[key := more], limits) && PerKey(m[key := more], maximum)
      && Fits(With(m, key, Without(more, a.reservation)), limits)
      && PerKey(With(m, key, Without(more, a.reservation)), maximum)
  {
    var more := AttemptsOf(m, key) + [a];
    GrownFits(m, key, a, limits);
    WithPerKey(m, key, more, maximum);
    UndoneFits(m, key, a.reservation, a, limits);
    WithoutIsShorter(more, a.reservation);
    WithPerKey(m, key, Without(more, a.reservation), maximum);
  }

  lemma AttachBounded(f: LedgerFile, m: Values, limits: Limits, q: ReserveRequest)
    requires Bounded(f, limits, q.maximum) && Fits(m, limits) && PerKey(m, q.maximum)
    requires |AttemptsOf(m, q.key)| < q.maximum && HasRoom(m, limits, q.key)
    ensures Bounded(Attach(f, m, q).0, limits, q.maximum)
  {
    ReservedBounded(m, q.key, Attempt(q.id, false, q.expires), limits, q.maximum);
  }

  /** However reserving ends, a bounded ledger stays bounded. */
  lemma ReserveKeepsBounds(f: LedgerFile, limits: Limits, q: ReserveRequest)
    requires Bounded(f, limits, q.maximum)
    ensures Bounded(Reserve(f, limits, q).0, limits, q.maximum)
  {
    var reading := ReadFile(f, limits, q.now);
    if reading.Read? {
      var m := reading.values;
      ReadingBounded(f, limits, q.now, q.maximum);
      if |AttemptsOf(m, q.key)| < q.maximum && HasRoom(m, limits, q.key) {
        AttachBounded(f, m, limits, q);
      }
    }
  }

  /** Taking the new attempt out again after a failed write. */
  lemma UndoneFits(m: Values, key: string, id: string, a: Attempt, limits: Limits)
    requires a.reservation == id && Fits(m, limits)
    ensures Fits(With(m, key, Without(AttemptsOf(m, key) + [a], id)), limits)
  {
    var attempts := AttemptsOf(m, key);
    assert (attempts + [a])[..|attempts|] == attempts;
    assert Without(attempts + [a], id) == Without(attempts, id);
    WithoutIsShorter(attempts, id);
    WithFits(m, key, Without(attempts, id), limits);
  }

  lemma FinishKeepsBounds(f: LedgerFile, limits: Limits, key: string, id: string, consumed: bool, now: int, end: WriteEnd, maximum: nat)
    requires Bounded(f, limits, maximum)
    ensures Bounded(Finish(f, limits, key, id, consumed, now, end).0, limits, maximum)
  {
    var reading := ReadFile(f, limits, now);
    if reading.Read? {
      var m := reading.values;
      ReadingBounded(f, limits, now, maximum);
      SettledBounded(m, key, id, consumed, limits, maximum);
    }
  }

  lemma SettledBounded(m: Values, key: string, id: string, consumed: bool, limits: Limits, maximum: nat)
    requires Fits(m, limits) && PerKey(m, maximum)
    ensures Fits(With(m, key, Settle(AttemptsOf(m, key), id, consumed)), limits)
    ensures PerKey(With(m, key, Settle(AttemptsOf(m, key), id, consumed)), maximum)
  {
    SettleIsShorter(AttemptsOf(m, key), id, consumed);
    WithFits(m, key, Settle(AttemptsOf(m, key), id, consumed), limits);
    WithPerKey(m, key, Settle(AttemptsOf(m, key), id, consumed), maximum);
  }

  datatype Call = Reserving(q: ReserveRequest) | Finishing(key: string, id: string, consumed: bool, now: int, end: WriteEnd)

  function After(f: LedgerFile, limits: Limits, c: Call): LedgerFile {
    match c
    case Reserving(q) => Reserve(f, limits, q).0
    case Finishing(key, id, consumed, now, end) => Finish(f, limits, key, id, consumed, now, end).0
  }

  function Run(f: LedgerFile, limits: Limits, calls: seq<Call>): LedgerFile
    decreases |calls|
  {
    if calls == [] then f else Run(After(f, limits, calls[0]), limits, calls[1..])
  }

  /** Over any run of reserving and finishing, with any clock and any failing writes, the ledger
   *  holds at most `maximum` attempts per key, and no more attempts and keys than its limits. */
  lemma {:induction false} RunsStayBounded(f: LedgerFile, limits: Limits, calls: seq<Call>, maximum: nat)
    requires Bounded(f, limits, maximum)
    requires forall k :: 0 <= k < |calls| && calls[k].Reserving? ==> calls[k].q.maximum == maximum
    ensures Bounded(Run(f, limits, calls), limits, maximum)
    decreases |calls|
  {
    if calls != [] {
      match calls[0] {
        case Reserving(q) => ReserveKeepsBounds(f, limits, q);
        case Finishing(key, id, consumed, now, end) => FinishKeepsBounds(f, limits, key, id, consumed, now, end, maximum);
      }
      RunsStayBounded(After(f, limits, calls[0]), limits, calls[1..], maximum);
    }
  }

  // ---------------------------------------------------------------- giving a reservation back

  lemma {:induction false} LiveTwice(attempts: seq<Attempt>, now: int, later: int)
    requires now <= later
    ensures Live(Live(attempts, now), later) == Live(attempts, later)
  {
    if attempts != [] {
      var rest, last := attempts[..|attempts| - 1], attempts[|attempts| - 1];
      LiveTwice(rest, now, later);
      LiveAppend(Live(rest, now), if last.expires > now then [last] else [], later);
    }
  }

  lemma {:induction false} LiveAppend(a: seq<Attempt>, b: seq<Attempt>, now: int)
    requires |b| <= 1
    ensures Live(a + b, now) == Live(a, now) + Live(b, now)
  {
    if b != [] {
      assert (a + b)[..|a + b| - 1] == a;
      assert b[..0] == [];
    } else {
      assert a + b == a;
    }
  }

  /** Pruning again at a later time is pruning at that time. */
  lemma PrunedTwice(m: Values, now: int, later: int)
    requires now <= later
    ensures Pruned(Pruned(m, now), later) == Pruned(m, later)
  {
    forall k | k in m ensures Live(Live(m[k], now), later) == Live(m[k], later) {
      LiveTwice(m[k], now, later);
    }
    forall k | k in m && Live(m[k], now) == [] ensures Live(m[k], later) == [] {
      LiveTwice(m[k], now, later);
    }
  }

  lemma {:induction false} SettleAfterAll(attempts: seq<Attempt>, a: Attempt)
    requires !Has(attempts, a.reservation)
    ensures Settle(attempts + [a], a.reservation, false) == attempts
  {
    if attempts != [] {
      assert attempts[0].reservation != a.reservation;
      assert (attempts + [a])[1..] == attempts[1..] + [a];
      assert forall i :: 0 <= i < |attempts| - 1 ==> attempts[1..][i] == attempts[i + 1];
      SettleAfterAll(attempts[1..], a);
    }
  }

  lemma PrunedFits(m: Values, now: int, limits: Limits)
    requires Fits(m, limits)
    ensures Fits(Pruned(m, now), limits)
  {
    var p := Pruned(m, now);
    forall k | k in p ensures |p[k]| <= |m[k]| {
      LiveIsShorter(m[k], now);
    }
    Subset(Positions(p), Positions(m));
    Subset(p.Keys, m.Keys);
  }

  /** The values a ledger file stands for at a time. */
  function ValuesAt(f: LedgerFile, now: int): Values {
    if f.Stored? then Pruned(f.values, now) else map[]
  }

  /** The id is new to the key. */
  predicate NewTo(f: LedgerFile, key: string, id: string) {
    f.Stored? && key in f.values ==> !Has(f.values[key], id)
  }

  lemma {:induction false} LiveHasLess(a: seq<Attempt>, id: string, now: int)
    requires !Has(a, id)
    ensures !Has(Live(a, now), id)
  {
    if a != [] {
      assert a[|a| - 1].reservation != id;
      assert forall i :: 0 <= i < |a| - 1 ==> a[..|a| - 1][i] == a[i];
      LiveHasLess(a[..|a| - 1], id, now);
    }
  }

  /** The list a reservation was added to, read at a later time and settled without consuming it. */
  lemma SettledLive(attempts: seq<Attempt>, a: Attempt, later: int)
    requires !Has(attempts, a.reservation)
    ensures Settle(Live(attempts + [a], later), a.reservation, false) == Live(attempts, later)
  {
    LiveAppend(attempts, [a], later);
    assert [a][..0] == [];
    LiveHasLess(attempts, a.reservation, later);
    if a.expires > later {
      assert Live([a], later) == [a];
      SettleAfterAll(Live(attempts, later), a);
    } else {
      assert Live([a], later) == [] && Live(attempts, later) + [] == Live(attempts, later);
      SettleNobody(Live(attempts, later), a.reservation, false);
    }
  }

  lemma PrunedKeepsOthers(m: Values, key: string, more: seq<Attempt>, later: int)
    ensures With(Pruned(m[key := more], later), key, Live(AttemptsOf(m, key), later)) == Pruned(m, later)
  {
    var a, b := With(Pruned(m[key := more], later), key, Live(AttemptsOf(m, key), later)), Pruned(m, later);
    assert Live([], later) == [];
    forall k ensures (k in a <==> k in b) && (k in a ==> a[k] == b[k]) {}
    assert a == b;
  }

  /** What a reservation that was made has written. */
  lemma ReservedIsStored(f: LedgerFile, limits: Limits, q: ReserveRequest)
    requires Reserve(f, limits, q).1.Reserved? && NewTo(f, q.key, q.id)
    ensures var m := ValuesAt(f, q.now);
      && Reserve(f, limits, q).0 == Stored(m[q.key := AttemptsOf(m, q.key) + [Attempt(q.id, false, q.expires)]])
      && HasRoom(m, limits, q.key) && !Has(AttemptsOf(m, q.key), q.id)
  {
    if f.Stored? && q.key in f.values {
      LiveHasLess(f.values[q.key], q.id, q.now);
    }
  }

  lemma ValuesLater(f: LedgerFile, now: int, later: int)
    requires now <= later
    ensures Pruned(ValuesAt(f, now), later) == ValuesAt(f, later)
  {
    if f.Stored? {
      PrunedTwice(f.values, now, later);
    } else {
      assert Pruned(map[], later) == map[];
    }
  }

  /** Reserving and then finishing without having consumed the reservation restores the ledger, up
   *  to what has expired in the meantime. */
  lemma UnusedReservationLeavesNoTrace(f: LedgerFile, limits: Limits, q: ReserveRequest, later: int)
    requires Reserve(f, limits, q).1.Reserved? && NewTo(f, q.key, q.id) && q.now <= later
    ensures var f1 := Reserve(f, limits, q).0;
      && ReadFile(f1, limits, later).Read?
      && ValuesAt(Finish(f1, limits, q.key, q.id, false, later, Done).0, later) == ValuesAt(f, later)
  {
    var m := ValuesAt(f, q.now);
    var a := Attempt(q.id, false, q.expires);
    var before := AttemptsOf(m, q.key);
    ReservedIsStored(f, limits, q);
    GrownFits(m, q.key, a, limits);
    PrunedFits(m[q.key := before + [a]], later, limits);
    FinishedValues(m, q.key, before, a, limits, later);
    ValuesLater(f, q.now, later);
  }

  lemma FinishedValues(m: Values, key: string, before: seq<Attempt>, a: Attempt, limits: Limits, later: int)
    requires before == AttemptsOf(m, key) && !Has(before, a.reservation)
    ensures var f1 := Stored(m[key := before + [a]]);
      ReadFile(f1, limits, later).Read?
      ==> ValuesAt(Finish(f1, limits, key, a.reservation, false, later, Done).0, later) == Pruned(m, later)
  {
    var more := m[key := before + [a]];
    var read := Pruned(more, later);
    SettledLive(before, a, later);
    assert Live([], later) == [] && Settle([], a.reservation, false) == [];
    assert AttemptsOf(read, key) == Live(before + [a], later);
    PrunedKeepsOthers(m, key, before + [a], later);
    PrunedTwice(more, later, later);
    PrunedTwice(m, later, later);
    if !Has(AttemptsOf(read, key), a.reservation) && !Outdated(more, later) {
      SettleNobody(AttemptsOf(read, key), a.reservation, false);
      WithItself(read, key);
    }
  }

  lemma WithItself(m: Values, key: string)
    requires key in m ==> m[key] != []
    ensures With(m, key, AttemptsOf(m, key)) == m
  {
    if key !in m {
      assert m - {key} == m;
    }
  }

  // ---------------------------------------------------------------- settling once

  lemma {:induction false} SettleTwice(a: seq<Attempt>, id: string)
    ensures Settle(Settle(a, id, true), id, true) == Settle(a, id, true)
  {
    if a != [] && a[0].reservation != id {
      SettleTwice(a[1..], id);
    }
  }

  predicate AllLive(a: seq<Attempt>, now: int) {
    forall i :: 0 <= i < |a| ==> a[i].expires > now
  }

  lemma {:induction false} LiveIsLive(a: seq<Attempt>, now: int)
    ensures AllLive(Live(a, now), now)
  {
    if a != [] {
      LiveIsLive(a[..|a| - 1], now);
    }
  }

  lemma {:induction false} AllLiveStay(a: seq<Attempt>, now: int)
    requires AllLive(a, now)
    ensures Live(a, now) == a
  {
    if a != [] {
      AllLiveStay(a[..|a| - 1], now);
      assert a == a[..|a| - 1] + [a[|a| - 1]];
    }
  }

  /** Settling a consumed reservation twice at one time changes nothing the second time. */
  lemma SettlingAgainStands(f: LedgerFile, limits: Limits, key: string, id: string, now: int)
    requires Finish(f, limits, key, id, true, now, Done).1.Settled?
    ensures var f1 := Finish(f, limits, key, id, true, now, Done).0;
      Finish(f1, limits, key, id, true, now, Done).0 == f1
  {
    var reading := ReadFile(f, limits, now);
    var m := reading.values;
    if Has(AttemptsOf(m, key), id) || reading.changed {
      var m1 := With(m, key, Settle(AttemptsOf(m, key), id, true));
      ReadingIsLive(f, limits, now);
      SettledIsLive(m, key, id, now);
      SettleAgain(m, key, id);
      FinishStands(m1, limits, key, id, now);
    }
  }

  ghost predicate LiveValues(m: Values, now: int) {
    forall k :: k in m ==> m[k] != [] && AllLive(m[k], now)
  }

  lemma ReadingIsLive(f: LedgerFile, limits: Limits, now: int)
    requires ReadFile(f, limits, now).Read?
    ensures LiveValues(ReadFile(f, limits, now).values, now)
  {
    var m := ReadFile(f, limits, now).values;
    forall k | k in m ensures m[k] != [] && AllLive(m[k], now) {
      LiveIsLive(f.values[k], now);
    }
  }

  lemma SettledIsLive(m: Values, key: string, id: string, now: int)
    requires LiveValues(m, now)
    ensures LiveValues(With(m, key, Settle(AttemptsOf(m, key), id, true)), now)
  {
    SettledStaysLive(AttemptsOf(m, key), id, true, now);
  }

  lemma SettleAgain(m: Values, key: string, id: string)
    ensures var m1 := With(m, key, Settle(AttemptsOf(m, key), id, true));
      Settle(AttemptsOf(m1, key), id, true) == AttemptsOf(m1, key)
  {
    SettleTwice(AttemptsOf(m, key), id);
  }

  lemma LiveValuesStay(m: Values, now: int)
    requires LiveValues(m, now)
    ensures Pruned(m, now) == m
  {
    forall k | k in m ensures Live(m[k], now) == m[k] {
      AllLiveStay(m[k], now);
    }
  }

  lemma FinishStands(m: Values, limits: Limits, key: string, id: string, now: int)
    requires LiveValues(m, now) && Settle(AttemptsOf(m, key), id, true) == AttemptsOf(m, key)
    ensures Finish(Stored(m), limits, key, id, true, now, Done).0 == Stored(m)
  {
    LiveValuesStay(m, now);
    WithItself(m, key);
  }

  // ---------------------------------------------------------------- repairing a failed settlement

  lemma LiveFront(x: Attempt, rest: seq<Attempt>, now: int)
    ensures Live([x] + rest, now) == (if x.expires > now then [x] else []) + Live(rest, now)
    decreases |rest|
  {
    if rest == [] {
      assert [x] + rest == [x] && [x][..0] == [];
    } else {
      var n := |rest| - 1;
      LiveFront(x, rest[..n], now);
      assert ([x] + rest)[..|rest|] == [x] + rest[..n] && ([x] + rest)[|rest|] == rest[n];
    }
  }

  /** No two attempts have this id; ids are drawn at random. */
  predicate AtMostOne(a: seq<Attempt>, id: string) {
    forall i, j :: 0 <= i < j < |a| ==> !(a[i].reservation == id && a[j].reservation == id)
  }

  lemma RestHasNone(a: seq<Attempt>, id: string)
    requires a != [] && a[0].reservation == id && AtMostOne(a, id)
    ensures !Has(a[1..], id)
  {
    forall i | 0 <= i < |a| - 1 ensures a[1..][i].reservation != id {
      assert a[1..][i] == a[i + 1];
    }
  }

  lemma RestAtMostOne(a: seq<Attempt>, id: string)
    requires a != [] && AtMostOne(a, id)
    ensures AtMostOne(a[1..], id)
  {
    assert forall i :: 0 <= i < |a| - 1 ==> a[1..][i] == a[i + 1];
  }

  /** Settling an attempt, letting time pass, and settling it again is settling it then. An attempt that
   *  was not consumed must be the only one with its id, or the second time would remove another. */
  lemma {:induction false} SettleLater(a: seq<Attempt>, id: string, consumed: bool, later: int)
    requires consumed || AtMostOne(a, id)
    ensures Settle(Live(Settle(a, id, consumed), later), id, consumed) == Settle(Live(a, later), id, consumed)
  {
    if a != [] {
      var x, rest := a[0], a[1..];
      assert a == [x] + rest;
      if x.reservation != id {
        if !consumed {
          RestAtMostOne(a, id);
        }
        SettleLater(rest, id, consumed, later);
        PassedLater(x, rest, Settle(rest, id, consumed), id, consumed, later);
      } else if consumed {
        MarkedLater(x, rest, id, later);
      } else {
        RestHasNone(a, id);
        RemovedLater(x, rest, id, later);
      }
    }
  }

  lemma PassedLater(x: Attempt, rest: seq<Attempt>, settled: seq<Attempt>, id: string, consumed: bool, later: int)
    requires x.reservation != id && Settle(Live(settled, later), id, consumed) == Settle(Live(rest, later), id, consumed)
    ensures Settle(Live([x] + settled, later), id, consumed) == Settle(Live([x] + rest, later), id, consumed)
  {
    LiveFront(x, rest, later);
    LiveFront(x, settled, later);
    if x.expires > later {
      SettleFront(x, Live(settled, later), id, consumed);
      SettleFront(x, Live(rest, later), id, consumed);
    } else {
      assert [] + Live(rest, later) == Live(rest, later) && [] + Live(settled, later) == Live(settled, later);
    }
  }

  lemma MarkedLater(x: Attempt, rest: seq<Attempt>, id: string, later: int)
    requires x.reservation == id
    ensures Settle(Live([x.(used := true)] + rest, later), id, true) == Settle(Live([x] + rest, later), id, true)
  {
    var y := x.(used := true);
    LiveFront(x, rest, later);
    LiveFront(y, rest, later);
    if x.expires > later {
      SettleFront(x, Live(rest, later), id, true);
      SettleFront(y, Live(rest, later), id, true);
    } else {
      assert [] + Live(rest, later) == Live(rest, later);
    }
  }

  lemma RemovedLater(x: Attempt, rest: seq<Attempt>, id: string, later: int)
    requires x.reservation == id && !Has(rest, id)
    ensures Settle(Live(rest, later), id, false) == Settle(Live([x] + rest, later), id, false)
  {
    LiveFront(x, rest, later);
    LiveHasLess(rest, id, later);
    SettleNobody(Live(rest, later), id, false);
    if x.expires > later {
      SettleFront(x, Live(rest, later), id, false);
    } else {
      assert [] + Live(rest, later) == Live(rest, later);
    }
  }

  lemma SettleFront(x: Attempt, rest: seq<Attempt>, id: string, consumed: bool)
    ensures Settle([x] + rest, id, consumed)
      == if x.reservation != id then [x] + Settle(rest, id, consumed)
         else if consumed then [x.(used := true)] + rest else rest
  {
    assert ([x] + rest)[0] == x && ([x] + rest)[1..] == rest;
  }

  lemma {:induction false} SettleNobody(a: seq<Attempt>, id: string, consumed: bool)
    requires !Has(a, id)
    ensures Settle(a, id, consumed) == a
  {
    if a != [] {
      assert a[0].reservation != id;
      assert forall i :: 0 <= i < |a| - 1 ==> a[1..][i] == a[i + 1];
      SettleNobody(a[1..], id, consumed);
    }
  }

  lemma {:induction false} LiveAtMostOne(a: seq<Attempt>, id: string, now: int)
    requires AtMostOne(a, id)
    ensures AtMostOne(Live(a, now), id)
    decreases |a|
  {
    if a != [] {
      var x, rest := a[0], a[1..];
      assert a == [x] + rest;
      RestAtMostOne(a, id);
      LiveAtMostOne(rest, id, now);
      LiveFront(x, rest, now);
      if x.reservation == id {
        RestHasNone(a, id);
        LiveHasLess(rest, id, now);
      }
    }
  }

  function SettledValues(m: Values, key: string, id: string, consumed: bool): Values {
    With(m, key, Settle(AttemptsOf(m, key), id, consumed))
  }

  lemma {:induction false} SettledStaysLive(a: seq<Attempt>, id: string, consumed: bool, now: int)
    requires AllLive(a, now)
    ensures AllLive(Settle(a, id, consumed), now)
  {
    if a != [] && a[0].reservation != id {
      SettledStaysLive(a[1..], id, consumed, now);
    }
  }

  /** What a settlement that is written leaves the ledger standing for. */
  lemma SettlementStandsFor(f: LedgerFile, limits: Limits, key: string, id: string, consumed: bool, now: int)
    requires ReadFile(f, limits, now).Read?
    ensures ValuesAt(Finish(f, limits, key, id, consumed, now, Done).0, now) == SettledValues(ValuesAt(f, now), key, id, consumed)
  {
    var m := ReadFile(f, limits, now).values;
    ReadingIsLive(f, limits, now);
    SettledStaysLive(AttemptsOf(m, key), id, consumed, now);
    LiveValuesStay(SettledValues(m, key, id, consumed), now);
    if !Has(AttemptsOf(m, key), id) {
      SettleNobody(AttemptsOf(m, key), id, consumed);
      WithItself(m, key);
    }
  }

  lemma LivesOfPruned(m: Values, key: string, now: int)
    ensures AttemptsOf(Pruned(m, now), key) == Live(AttemptsOf(m, key), now)
  {
    assert Live([], now) == [];
  }

  /** Two dictionaries that differ at most in one list. */
  ghost predicate SameBut(a: Values, b: Values, key: string) {
    forall k :: k != key ==> (k in a <==> k in b) && (k in a ==> a[k] == b[k])
  }

  lemma SameWith(a: Values, b: Values, key: string, attempts: seq<Attempt>)
    requires SameBut(a, b, key)
    ensures With(a, key, attempts) == With(b, key, attempts)
  {
    var u, v := With(a, key, attempts), With(b, key, attempts);
    forall k ensures (k in u <==> k in v) && (k in u ==> u[k] == v[k]) {}
    assert u == v;
  }

  lemma WithIsSameBut(m: Values, key: string, attempts: seq<Attempt>, later: int)
    ensures SameBut(Pruned(With(m, key, attempts), later), Pruned(m, later), key)
    ensures AttemptsOf(With(m, key, attempts), key) == attempts
  {
  }

  /** Whether the first settlement reached the file or not makes no difference to the second. */
  lemma SettledValuesLater(m: Values, key: string, id: string, consumed: bool, now: int, later: int)
    requires now <= later && (consumed || AtMostOne(AttemptsOf(m, key), id))
    ensures SettledValues(Pruned(SettledValues(Pruned(m, now), key, id, consumed), later), key, id, consumed)
      == SettledValues(Pruned(m, later), key, id, consumed)
  {
    var m0 := Pruned(m, now);
    var before := AttemptsOf(m0, key);
    var m1 := SettledValues(m0, key, id, consumed);
    PrunedTwice(m, now, later);
    LivesOfPruned(m, key, now);
    LivesOfPruned(m1, key, later);
    LivesOfPruned(m0, key, later);
    if !consumed {
      LiveAtMostOne(AttemptsOf(m, key), id, now);
    }
    SettleLater(before, id, consumed, later);
    WithIsSameBut(m0, key, Settle(before, id, consumed), later);
    SameWith(Pruned(m1, later), Pruned(m0, later), key, Settle(Live(before, later), id, consumed));
  }

  lemma SettledReads(
    f: LedgerFile, limits: Limits, key: string, id: string, consumed: bool, now: int, end: WriteEnd, later: int)
    requires ReadFile(f, limits, now).Read? && now <= later
    ensures ReadFile(f, limits, later).Read?
    ensures ReadFile(Finish(f, limits, key, id, consumed, now, end).0, limits, later).Read?
  {
    var m := ReadFile(f, limits, now).values;
    if f.Stored? {
      PrunedTwice(f.values, now, later);
      PrunedFits(m, later, limits);
    }
    SettleIsShorter(AttemptsOf(m, key), id, consumed);
    assert Fits(m, limits) || f.NoFile?;
    if f.Stored? {
      WithFits(m, key, Settle(AttemptsOf(m, key), id, consumed), limits);
      PrunedFits(SettledValues(m, key, id, consumed), later, limits);
    }
  }

  /** A settlement whose write may have failed, before or after the file was replaced, is settled again
   *  later, consumed or not: that leaves the ledger as if it had been settled only then. */
  lemma RepairIsIdempotent(
    f: LedgerFile, limits: Limits, key: string, id: string, consumed: bool, now: int, end: WriteEnd, later: int)
    requires ReadFile(f, limits, now).Read? && now <= later
    requires !consumed && f.Stored? ==> AtMostOne(AttemptsOf(f.values, key), id)
    ensures var f1 := Finish(f, limits, key, id, consumed, now, end).0;
      && ReadFile(f, limits, later).Read? && ReadFile(f1, limits, later).Read?
      && ValuesAt(Finish(f1, limits, key, id, consumed, later, Done).0, later)
        == ValuesAt(Finish(f, limits, key, id, consumed, later, Done).0, later)
  {
    var f1 := Finish(f, limits, key, id, consumed, now, end).0;
    SettledReads(f, limits, key, id, consumed, now, end, later);
    SettlementStandsFor(f, limits, key, id, consumed, later);
    SettlementStandsFor(f1, limits, key, id, consumed, later);
    if f.Stored? && f1 != f {
      SettledValuesLater(f.values, key, id, consumed, now, later);
    }
  }
}
