/** What the ledger answers: which attempts count, when one more is allowed, and what the file holds after
 *  a reservation and after a settlement. */
module LedgerAnswers {
  import opened Basics
  import opened Tallies
  import opened Ledger

  // ---------------------------------------------------------------- which attempts count

  /** The places of the attempts that have not expired. */
  function Unexpired(attempts: seq<Attempt>, now: int): set<int> {
    set i | 0 <= i < |attempts| && attempts[i].expires > now
  }

  lemma {:induction false} LiveConcat(a: seq<Attempt>, b: seq<Attempt>, now: int)
    ensures Live(a + b, now) == Live(a, now) + Live(b, now)
  {
    if b == [] {
      assert a + b == a && Live(a, now) + [] == Live(a, now);
    } else {
      var n := |b| - 1;
      assert (a + b)[..|a + b| - 1] == a + b[..n] && (a + b)[|a + b| - 1] == b[n];
      LiveConcat(a, b[..n], now);
      ConcatAssociative(Live(a, now), Live(b[..n], now), if b[n].expires > now then [b[n]] else []);
    }
  }

  lemma LiveOne(x: Attempt, now: int)
    ensures Live([x], now) == if x.expires > now then [x] else []
  {
    assert [x][..0] == [] && Live([], now) == [];
  }

  /** As many attempts count as have not expired, used or not. */
  lemma {:induction false} LiveCount(attempts: seq<Attempt>, now: int)
    ensures |Live(attempts, now)| == |Unexpired(attempts, now)|
  {
    if attempts == [] {
      assert Unexpired(attempts, now) == {};
    } else {
      var n := |attempts| - 1;
      LiveCount(attempts[..n], now);
      var before := Unexpired(attempts[..n], now);
      assert n !in before;
      assert Unexpired(attempts, now) == if attempts[n].expires > now then before + {n} else before;
    }
  }

  lemma {:induction false} LiveMembers(attempts: seq<Attempt>, now: int, a: Attempt)
    ensures a in Live(attempts, now) <==> a in attempts && a.expires > now
  {
    if attempts != [] {
      var n := |attempts| - 1;
      LiveMembers(attempts[..n], now, a);
      assert attempts == attempts[..n] + [attempts[n]];
    }
  }

  lemma {:induction false} LiveWhenNoneExpired(attempts: seq<Attempt>, now: int)
    requires forall i :: 0 <= i < |attempts| ==> attempts[i].expires > now
    ensures Live(attempts, now) == attempts
  {
    if attempts != [] {
      var n := |attempts| - 1;
      LiveWhenNoneExpired(attempts[..n], now);
      assert attempts == attempts[..n] + [attempts[n]];
    }
  }

  /** The keys with an attempt that has not expired. */
  function Busy(m: Values, now: int): set<string> {
    set k | k in m && Unexpired(m[k], now) != {}
  }

  lemma PrunedAnswers(m: Values, now: int)
    ensures Pruned(m, now).Keys == Busy(m, now)
    ensures forall k :: k in Busy(m, now) ==> Pruned(m, now)[k] == Live(m[k], now)
  {
    forall k | k in m ensures Live(m[k], now) != [] <==> Unexpired(m[k], now) != {} {
      LiveCount(m[k], now);
    }
  }

  function InFile(m: Values, key: string): seq<Attempt> {
    if key in m then m[key] else []
  }

  /** What the file is read as, when it is a ledger. */
  predicate Readable(m: Values, limits: Limits, now: int) {
    Total(Pruned(m, now)) <= limits.records && |Busy(m, now)| <= limits.keys
  }

  lemma ReadAnswers(m: Values, limits: Limits, now: int)
    ensures Readable(m, limits, now) <==> ReadFile(Stored(m), limits, now).Read?
    ensures Readable(m, limits, now) ==> ReadFile(Stored(m), limits, now).values == Pruned(m, now)
    ensures !Readable(m, limits, now) ==> ReadFile(Stored(m), limits, now) == OverCapacity
  {
    PrunedAnswers(m, now);
    assert |Pruned(m, now)| == |Pruned(m, now).Keys|;
  }

  lemma KeptUnderKey(m: Values, key: string, now: int)
    ensures AttemptsOf(Pruned(m, now), key) == Live(InFile(m, key), now)
    ensures key in Pruned(m, now) <==> key in Busy(m, now)
  {
    PrunedAnswers(m, now);
  }

  /** There is room for one more attempt: among the records, and among the keys if its key is new. */
  predicate RoomFor(m: Values, key: string, limits: Limits, now: int) {
    && Total(Pruned(m, now)) < limits.records
    && |Busy(m, now) + {key}| <= limits.keys
  }

  lemma RoomIff(m: Values, key: string, limits: Limits, now: int)
    ensures HasRoom(Pruned(m, now), limits, key) <==> RoomFor(m, key, limits, now)
  {
    PrunedAnswers(m, now);
    assert |Pruned(m, now)| == |Pruned(m, now).Keys|;
    if key in Busy(m, now) {
      assert Busy(m, now) + {key} == Busy(m, now);
    }
  }

  // ---------------------------------------------------------------- reserving

  /** The ledger `v` is `m` without what has expired, but for the attempts of one key. */
  ghost predicate OnlyKey(m: Values, v: Values, now: int, key: string, attempts: seq<Attempt>) {
    && v.Keys == (Busy(m, now) - {key}) + (if attempts == [] then {} else {key})
    && (forall k :: k in v && k != key ==> v[k] == Live(m[k], now))
    && (key in v ==> v[key] == attempts)
  }

  lemma WithIsOnlyKey(m: Values, now: int, key: string, attempts: seq<Attempt>)
    ensures OnlyKey(m, With(Pruned(m, now), key, attempts), now, key, attempts)
    ensures attempts != [] ==> OnlyKey(m, Pruned(m, now)[key := attempts], now, key, attempts)
  {
    PrunedAnswers(m, now);
  }

  /** What a reservation does with a file that can be read. */
  lemma ReserveOn(f: LedgerFile, limits: Limits, q: ReserveRequest, p: Values)
    requires ReadFile(f, limits, q.now).Read? && ReadFile(f, limits, q.now).values == p
    ensures var (f', reply) := Reserve(f, limits, q);
      if |AttemptsOf(p, q.key)| >= q.maximum then (f', reply) == (f, Exhausted)
      else if !HasRoom(p, limits, q.key) then (f', reply) == (f, Capacity)
      else (f', reply) == Attach(f, p, q)
  {
  }

  /** When an attempt may be reserved: fewer than the maximum of this key have not expired, and there is
   *  room. It is then added behind them, unused, with its own expiry, and what has expired is dropped. */
  lemma ReserveAnswers(m: Values, limits: Limits, q: ReserveRequest)
    requires q.first == Done
    ensures var (f', reply) := Reserve(Stored(m), limits, q);
      var few := |Unexpired(InFile(m, q.key), q.now)| < q.maximum;
      && (reply == Reserved(q.id) <==> Readable(m, limits, q.now) && few && RoomFor(m, q.key, limits, q.now))
      && (reply == Exhausted <==> Readable(m, limits, q.now) && !few)
      && (reply == Capacity <==> !Readable(m, limits, q.now) || (few && !RoomFor(m, q.key, limits, q.now)))
      && (if reply == Reserved(q.id)
          then f'.Stored? && OnlyKey(m, f'.values, q.now, q.key, Live(InFile(m, q.key), q.now) + [Attempt(q.id, false, q.expires)])
          else f' == Stored(m))
  {
    ReadAnswers(m, limits, q.now);
    if Readable(m, limits, q.now) {
      ReserveOn(Stored(m), limits, q, Pruned(m, q.now));
      KeptUnderKey(m, q.key, q.now);
      LiveCount(InFile(m, q.key), q.now);
      RoomIff(m, q.key, limits, q.now);
      WithIsOnlyKey(m, q.now, q.key, Live(InFile(m, q.key), q.now) + [Attempt(q.id, false, q.expires)]);
    }
  }

  /** Without a file it is the same as with an empty one. */
  lemma NoFileIsEmpty(limits: Limits, q: ReserveRequest)
    requires q.first == Done
    ensures Reserve(NoFile, limits, q).1 == Reserve(Stored(map[]), limits, q).1
    ensures Reserve(NoFile, limits, q).1 == Reserved(q.id) ==> Reserve(NoFile, limits, q).0 == Reserve(Stored(map[]), limits, q).0
  {
    var none: Values := map[];
    assert Pruned(none, q.now) == none && Positions(none) == {};
  }

  /** A file that is no ledger is left alone, and the call raises. */
  lemma MalformedRaises(limits: Limits, q: ReserveRequest, key: string, id: string, consumed: bool, now: int, end: WriteEnd)
    ensures Reserve(Malformed, limits, q) == (Malformed, Raised)
    ensures Finish(Malformed, limits, key, id, consumed, now, end) == (Malformed, Raised)
  {
  }

  lemma {:induction false} NotThere(attempts: seq<Attempt>, id: string)
    requires forall i :: 0 <= i < |attempts| ==> attempts[i].reservation != id
    ensures Without(attempts, id) == attempts
  {
    if attempts != [] {
      NotThere(attempts[..|attempts| - 1], id);
      assert attempts == attempts[..|attempts| - 1] + [attempts[|attempts| - 1]];
    }
  }

  lemma WithoutLast(attempts: seq<Attempt>, x: Attempt)
    requires forall i :: 0 <= i < |attempts| ==> attempts[i].reservation != x.reservation
    ensures Without(attempts + [x], x.reservation) == attempts
  {
    NotThere(attempts, x.reservation);
    assert (attempts + [x])[..|attempts|] == attempts;
  }

  /** A reservation whose write raises is refused and does not stay: what is left is the file as it was, or
   *  without what has expired, unless the new attempt was written and the repair was not. */
  lemma FailedReservationLeaves(m: Values, limits: Limits, q: ReserveRequest)
    requires q.first != Done && Reserve(Stored(m), limits, q).1 == Failed
    requires forall i :: 0 <= i < |InFile(m, q.key)| ==> InFile(m, q.key)[i].reservation != q.id
    ensures var f' := Reserve(Stored(m), limits, q).0;
      var kept := Live(InFile(m, q.key), q.now);
      && f'.Stored?
      && (q.second == FailedBefore && q.first == FailedBefore ==> f' == Stored(m))
      && (q.second == FailedBefore && q.first == FailedAfter ==> OnlyKey(m, f'.values, q.now, q.key, kept + [Attempt(q.id, false, q.expires)]))
      && (q.second != FailedBefore ==> OnlyKey(m, f'.values, q.now, q.key, kept))
  {
    var kept := Live(InFile(m, q.key), q.now);
    var more := kept + [Attempt(q.id, false, q.expires)];
    ReadAnswers(m, limits, q.now);
    ReserveOn(Stored(m), limits, q, Pruned(m, q.now));
    KeptUnderKey(m, q.key, q.now);
    NotKept(m, q);
    WithoutLast(kept, Attempt(q.id, false, q.expires));
    WithIsOnlyKey(m, q.now, q.key, more);
    WithIsOnlyKey(m, q.now, q.key, kept);
  }

  lemma NotKept(m: Values, q: ReserveRequest)
    requires forall i :: 0 <= i < |InFile(m, q.key)| ==> InFile(m, q.key)[i].reservation != q.id
    ensures var kept := Live(InFile(m, q.key), q.now); forall i :: 0 <= i < |kept| ==> kept[i].reservation != q.id
  {
    var kept := Live(InFile(m, q.key), q.now);
    forall i | 0 <= i < |kept| ensures kept[i].reservation != q.id {
      LiveMembers(InFile(m, q.key), q.now, kept[i]);
    }
  }

  // ---------------------------------------------------------------- settling

  /** Settling the first attempt with an id: used if it is consumed, gone if not; all others stay. */
  lemma {:induction false} SettleAnswers(a: seq<Attempt>, x: Attempt, b: seq<Attempt>)
    requires forall i :: 0 <= i < |a| ==> a[i].reservation != x.reservation
    ensures Settle(a + [x] + b, x.reservation, true) == a + [x.(used := true)] + b
    ensures Settle(a + [x] + b, x.reservation, false) == a + b
  {
    var s := a + [x] + b;
    if a == [] {
      assert s[0] == x && s[1..] == b;
    } else {
      assert s[0] == a[0] && s[1..] == a[1..] + [x] + b;
      SettleAnswers(a[1..], x, b);
      assert [a[0]] + (a[1..] + [x.(used := true)] + b) == a + [x.(used := true)] + b;
      assert [a[0]] + (a[1..] + b) == a + b;
    }
  }

  lemma {:induction false} SettleNothing(attempts: seq<Attempt>, id: string, consumed: bool)
    requires forall i :: 0 <= i < |attempts| ==> attempts[i].reservation != id
    ensures Settle(attempts, id, consumed) == attempts
  {
    if attempts != [] {
      SettleNothing(attempts[1..], id, consumed);
      assert [attempts[0]] + attempts[1..] == attempts;
    }
  }

  /** Settling an attempt that has not expired: when it is consumed it stays as used until it expires, and
   *  when not it is taken out. The others of its key stay in order, and what has expired is dropped. */
  lemma FinishAnswers(m: Values, limits: Limits, key: string, a: seq<Attempt>, x: Attempt, b: seq<Attempt>, consumed: bool, now: int)
    requires Readable(m, limits, now) && Live(InFile(m, key), now) == a + [x] + b
    requires forall i :: 0 <= i < |a| ==> a[i].reservation != x.reservation
    ensures var (f', reply) := Finish(Stored(m), limits, key, x.reservation, consumed, now, Done);
      && reply == Settled && f'.Stored?
      && OnlyKey(m, f'.values, now, key, if consumed then a + [x.(used := true)] + b else a + b)
  {
    ReadAnswers(m, limits, now);
    KeptUnderKey(m, key, now);
    SettleAnswers(a, x, b);
    assert (a + [x] + b)[|a|] == x;
    assert Has(AttemptsOf(Pruned(m, now), key), x.reservation);
    FinishOn(Stored(m), limits, key, x.reservation, consumed, now, Pruned(m, now));
    WithIsOnlyKey(m, now, key, if consumed then a + [x.(used := true)] + b else a + b);
  }

  /** What settling does with a file that can be read. */
  lemma FinishOn(f: LedgerFile, limits: Limits, key: string, id: string, consumed: bool, now: int, p: Values)
    requires ReadFile(f, limits, now).Read? && ReadFile(f, limits, now).values == p
    ensures Finish(f, limits, key, id, consumed, now, Done) ==
      (if !Has(AttemptsOf(p, key), id) && !ReadFile(f, limits, now).changed then f
       else Stored(With(p, key, Settle(AttemptsOf(p, key), id, consumed))),
       Settled)
  {
  }

  /** Settling one that is not there any more only drops what has expired, and does not touch a file in
   *  which nothing has. */
  lemma NothingToFinish(m: Values, limits: Limits, key: string, id: string, consumed: bool, now: int)
    requires Readable(m, limits, now)
    requires forall i :: 0 <= i < |Live(InFile(m, key), now)| ==> Live(InFile(m, key), now)[i].reservation != id
    ensures var (f', reply) := Finish(Stored(m), limits, key, id, consumed, now, Done);
      && reply == Settled && f'.Stored? && (f' == Stored(m) || OnlyKey(m, f'.values, now, key, Live(InFile(m, key), now)))
      && ((forall k, a :: k in m && a in m[k] ==> a.expires > now) ==> f' == Stored(m))
  {
    ReadAnswers(m, limits, now);
    KeptUnderKey(m, key, now);
    SettleNothing(Live(InFile(m, key), now), id, consumed);
    FinishOn(Stored(m), limits, key, id, consumed, now, Pruned(m, now));
    WithIsOnlyKey(m, now, key, Live(InFile(m, key), now));
    if forall k, a :: k in m && a in m[k] ==> a.expires > now {
      NothingOutdated(m, now);
    }
  }

  lemma NothingOutdated(m: Values, now: int)
    requires forall k, a :: k in m && a in m[k] ==> a.expires > now
    ensures !Outdated(m, now)
  {
    forall k | k in m ensures Live(m[k], now) == m[k] {
      LiveWhenNoneExpired(m[k], now);
    }
  }

  /** A settlement whose write raises says so; the file is the old one or the new one. */
  lemma FailedSettlement(m: Values, limits: Limits, key: string, id: string, consumed: bool, now: int, end: WriteEnd)
    requires end != Done && Finish(Stored(m), limits, key, id, consumed, now, Done).0 != Stored(m)
    ensures Finish(Stored(m), limits, key, id, consumed, now, end)
      == (if end == FailedBefore then Stored(m) else Finish(Stored(m), limits, key, id, consumed, now, Done).0, Failed)
  {
  }

  /** A consumed attempt counts against its key until it expires: as long as the maximum is no more than
   *  what is there then, no other is reserved. */
  lemma ConsumedCounts(m: Values, limits: Limits, q: ReserveRequest, x: Attempt)
    requires q.first == Done && x in InFile(m, q.key) && x.used && x.expires > q.now && q.maximum <= 1
    ensures Reserve(Stored(m), limits, q).1 == Exhausted || Reserve(Stored(m), limits, q).1 == Capacity
  {
    ReserveAnswers(m, limits, q);
    var i :| 0 <= i < |InFile(m, q.key)| && InFile(m, q.key)[i] == x;
    assert i in Unexpired(InFile(m, q.key), q.now);
  }
}
