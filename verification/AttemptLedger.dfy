/** The `_AttemptLedger` object: the loops that read the file, and the calls that rewrite it. */
module AttemptLedgerObject {
  import opened Basics
  import opened Tallies
  import opened Ledger

  function PrunedBut(m: Values, now: int, todo: set<string>): Values {
    map k | k in m && k !in todo && Live(m[k], now) != [] :: Live(m[k], now)
  }

  lemma PrunedStep(m: Values, now: int, todo: set<string>, k: string)
    requires k in m && k in todo
    ensures PrunedBut(m, now, todo - {k})
         == if Live(m[k], now) == [] then PrunedBut(m, now, todo) else PrunedBut(m, now, todo)[k := Live(m[k], now)]
  {
  }

  lemma TotalBelow(m: Values, now: int, todo: set<string>)
    ensures Total(PrunedBut(m, now, todo)) <= Total(Pruned(m, now))
  {
    Subset(Positions(PrunedBut(m, now, todo)), Positions(Pruned(m, now)));
  }

  ghost predicate ExpiredBut(m: Values, now: int, todo: set<string>) {
    exists k :: k in m && k !in todo && Live(m[k], now) != m[k]
  }

  lemma ExpiredStep(m: Values, now: int, todo: set<string>, k: string)
    requires k in m && k in todo
    ensures ExpiredBut(m, now, todo - {k}) <==> ExpiredBut(m, now, todo) || |Live(m[k], now)| != |m[k]|
  {
    LiveKeepsAll(m[k], now);
  }

  lemma {:induction false} LiveKeepsAll(items: seq<Attempt>, now: int)
    ensures |Live(items, now)| <= |items|
    ensures |Live(items, now)| == |items| ==> Live(items, now) == items
  {
    if items != [] {
      var rest := items[..|items| - 1];
      LiveKeepsAll(rest, now);
      if |Live(items, now)| == |items| {
        assert items == rest + [items[|items| - 1]];
      }
    }
  }

  class AttemptLedger {
    var file: LedgerFile
    var values: Values
    const limits: Limits

    constructor (file: LedgerFile, limits: Limits)
      requires limits.keys > 0 && limits.records > 0
      ensures this.file == file && this.limits == limits
    {
      this.file, values, this.limits := file, map[], limits;
    }

    /** The attempts of one key that have not expired; not ok once there are too many in all. */
    method ReadKey(items: seq<Attempt>, now: int, total: nat) returns (ok: bool, records: seq<Attempt>, sum: nat)
      requires total <= limits.records
      ensures ok <==> total + |Live(items, now)| <= limits.records
      ensures ok ==> records == Live(items, now) && sum == total + |records|
    {
      records, sum := [], total;
      for i := 0 to |items|
        invariant records == Live(items[..i], now) && sum == total + |records| <= limits.records
      {
        assert items[..i + 1][..i] == items[..i];
        if items[i].expires > now {
          records, sum := records + [items[i]], sum + 1;
          if sum > limits.records {
            LiveGrows(items, i + 1, now);
            return false, records, sum;
          }
        }
      }
      assert items[..|items|] == items;
      ok := true;
    }

    lemma {:induction false} LiveGrows(items: seq<Attempt>, n: nat, now: int)
      requires n <= |items|
      ensures |Live(items[..n], now)| <= |Live(items, now)|
      decreases |items|
    {
      if n < |items| {
        LiveGrows(items[..|items| - 1], n, now);
        assert items[..|items| - 1][..n] == items[..n];
      } else {
        assert items[..n] == items;
      }
    }

    /** One key of the file: its live attempts join what has been kept so far. */
    method ReadNext(m: Values, k: string, now: int, ghost todo: set<string>, kept: Values, total: nat, changed: bool)
      returns (ok: bool, kept': Values, total': nat, changed': bool)
      requires k in m && k in todo && kept == PrunedBut(m, now, todo) && total == Total(kept) <= limits.records
      requires changed <==> ExpiredBut(m, now, todo)
      ensures ok ==> kept' == PrunedBut(m, now, todo - {k}) && total' == Total(kept') <= limits.records
      ensures ok ==> (changed' <==> ExpiredBut(m, now, todo - {k}))
      ensures !ok ==> Total(Pruned(m, now)) > limits.records
    {
      var records;
      ok, records, total' := ReadKey(m[k], now, total);
      kept' := if records == [] then kept else kept[k := records];
      changed' := changed || |records| != |m[k]|;
      PrunedStep(m, now, todo, k);
      TotalBelow(m, now, todo - {k});
      TotalAfter(kept, k, Live(m[k], now));
      ExpiredStep(m, now, todo, k);
    }

    /** `_read`. */
    method Read(now: int) returns (reading: Reading)
      ensures reading == ReadFile(file, limits, now)
    {
      if file.NoFile? {
        return Ledger.Read(map[], false);
      }
      if file.Malformed? {
        return Rejected;
      }
      reading := ReadValues(file.values, now);
    }

    method ReadValues(m: Values, now: int) returns (reading: Reading)
      ensures reading == ReadFile(Stored(m), limits, now)
    {
      var todo, kept, total, changed := m.Keys, map[], 0, false;
      assert Positions(PrunedBut(m, now, todo)) == {};
      while todo != {}
        invariant todo <= m.Keys && kept == PrunedBut(m, now, todo) && total == Total(kept) <= limits.records
        invariant changed <==> ExpiredBut(m, now, todo)
        decreases todo
      {
        var k :| k in todo;
        var ok;
        ok, kept, total, changed := ReadNext(m, k, now, todo, kept, total, changed);
        if !ok {
          return OverCapacity;
        }
        todo := todo - {k};
      }
      assert kept == Pruned(m, now);
      reading := if |kept| > limits.keys then OverCapacity else Ledger.Read(kept, changed);
    }

    /** `_write`; raising may happen before or after the file was replaced. */
    method Write(end: WriteEnd) returns (ok: bool)
      modifies this`file
      ensures file == Written(old(file), values, end) && (ok <==> end.Done?)
    {
      if end.FailedBefore? {
        return false;
      }
      file := Stored(values);
      ok := end.Done?;
    }

    method Reserve(q: ReserveRequest) returns (reply: Reply)
      modifies this
      ensures (file, reply) == Ledger.Reserve(old(file), limits, q)
    {
      var reading := Read(q.now);
      if !reading.Read? {
        return if reading.Rejected? then Raised else Capacity;
      }
      var m := reading.values;
      var attempts := AttemptsOf(m, q.key);
      values := m[q.key := attempts];
      if |attempts| >= q.maximum {
        return Exhausted;
      }
      var count := Count(values);
      TotalAfter(m, q.key, attempts);
      assert values.Keys == m.Keys + {q.key};
      if |values| > limits.keys || count >= limits.records {
        if attempts == [] {
          values := values - {q.key};
        }
        return Capacity;
      }
      reply := Attach(m, attempts, q);
    }

    method Attach(m: Values, attempts: seq<Attempt>, q: ReserveRequest) returns (reply: Reply)
      requires attempts == AttemptsOf(m, q.key)
      modifies this
      ensures (file, reply) == Ledger.Attach(old(file), m, q)
    {
      var more := attempts + [Attempt(q.id, false, q.expires)];
      values := m[q.key := more];
      var ok := Write(q.first);
      if ok {
        return Reserved(q.id);
      }
      var left := DropReservation(more, q.id);
      values := values[q.key := left];
      if left == [] {
        values := values - {q.key};
      }
      assert values == With(m, q.key, left);
      var _ := Write(q.second);
      reply := Failed;
    }

    method DropReservation(attempts: seq<Attempt>, id: string) returns (left: seq<Attempt>)
      ensures left == Without(attempts, id)
    {
      left := [];
      for i := 0 to |attempts|
        invariant left == Without(attempts[..i], id)
      {
        assert attempts[..i + 1][..i] == attempts[..i];
        if attempts[i].reservation != id {
          left := left + [attempts[i]];
        }
      }
      assert attempts[..|attempts|] == attempts;
    }

    /** The loop of `finish` over the attempts of its key. */
    method SettleOne(attempts: seq<Attempt>, id: string, consumed: bool) returns (found: bool, left: seq<Attempt>)
      ensures found <==> Has(attempts, id)
      ensures left == Settle(attempts, id, consumed)
    {
      var i := 0;
      while i < |attempts| && attempts[i].reservation != id
        invariant 0 <= i <= |attempts|
        invariant forall j :: 0 <= j < i ==> attempts[j].reservation != id
      {
        i := i + 1;
      }
      SettleAt(attempts, i, id, consumed);
      found := i < |attempts|;
      left := attempts;
      if found {
        left := attempts[..i] + (if consumed then [attempts[i].(used := true)] else []) + attempts[i + 1..];
      }
    }

    lemma {:induction false} SettleAt(attempts: seq<Attempt>, i: nat, id: string, consumed: bool)
      requires i <= |attempts| && forall j :: 0 <= j < i ==> attempts[j].reservation != id
      requires i < |attempts| ==> attempts[i].reservation == id
      ensures Settle(attempts, id, consumed) == if i == |attempts| then attempts
        else attempts[..i] + (if consumed then [attempts[i].(used := true)] else []) + attempts[i + 1..]
    {
      if i > 0 {
        var rest := attempts[1..];
        assert forall j :: 0 <= j < |rest| ==> rest[j] == attempts[j + 1];
        SettleAt(rest, i - 1, id, consumed);
        if i < |attempts| {
          assert rest[i..] == attempts[i + 1..] && [attempts[0]] + rest[..i - 1] == attempts[..i];
        } else {
          assert [attempts[0]] + rest == attempts;
        }
      }
    }

    /** Puts the settled list back, and drops the key with its last attempt. */
    method PutBack(m: Values, key: string, left: seq<Attempt>)
      requires left != [] ==> key in m
      modifies this`values
      ensures values == With(m, key, left)
    {
      values := m;
      if key in m {
        values := values[key := left];
      }
      if left == [] {
        values := values - {key};
        assert values == m - {key};
      }
    }

    method Finish(key: string, id: string, consumed: bool, now: int, end: WriteEnd) returns (reply: Reply)
      modifies this
      ensures (file, reply) == Ledger.Finish(old(file), limits, key, id, consumed, now, end)
    {
      var reading := Read(now);
      if !reading.Read? {
        return if reading.Rejected? then Raised else Capacity;
      }
      var found, left := SettleOne(AttemptsOf(reading.values, key), id, consumed);
      PutBack(reading.values, key, left);
      if found || reading.changed {
        var ok := Write(end);
        return if ok then Settled else Failed;
      }
      reply := Settled;
    }
  }
}
