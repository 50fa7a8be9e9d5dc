/** The persisted ledger of verification attempts: reservations per key that expire, are settled,
 *  and are bounded per key, in total, and in the number of keys. */
module Ledger {
  import opened Tallies

  datatype Attempt = Attempt(reservation: string, used: bool, expires: int)

  type Values = map<string, seq<Attempt>>

  /** The file: none yet, one the parser rejects, or a ledger. */
  datatype LedgerFile = NoFile | Malformed | Stored(values: Values)

  datatype Limits = Limits(keys: nat, records: nat)

  // ---------------------------------------------------------------- reading

  function Live(attempts: seq<Attempt>, now: int): seq<Attempt> {
    if attempts == [] then []
    else
      var last := attempts[|attempts| - 1];
      Live(attempts[..|attempts| - 1], now) + if last.expires > now then [last] else []
  }

  /** What `_read` keeps: unexpired attempts, and the keys that have some. */
  function Pruned(m: Values, now: int): Values {
    map k | k in m && Live(m[k], now) != [] :: Live(m[k], now)
  }

  /** Something in the file has expired. */
  predicate Outdated(m: Values, now: int) {
    exists k :: k in m && Live(m[k], now) != m[k]
  }

  predicate Fits(m: Values, limits: Limits) {
    Total(m) <= limits.records && |m| <= limits.keys
  }

  datatype Reading = Read(values: Values, changed: bool) | Rejected | OverCapacity

  function ReadFile(f: LedgerFile, limits: Limits, now: int): Reading {
    match f
    case NoFile => Read(map[], false)
    case Malformed => Rejected
    case Stored(m) => if Fits(Pruned(m, now), limits) then Read(Pruned(m, now), Outdated(m, now)) else OverCapacity
  }

  // ---------------------------------------------------------------- writing

  /** How a write ends. One that raises may still have replaced the file. */
  datatype WriteEnd = Done | FailedBefore | FailedAfter

  function Written(f: LedgerFile, m: Values, end: WriteEnd): LedgerFile {
    if end.FailedBefore? then f else Stored(m)
  }

  function AttemptsOf(m: Values, key: string): seq<Attempt> {
    if key in m then m[key] else []
  }

  /** The dictionary with one list replaced; an empty list takes its key with it. */
  function With(m: Values, key: string, attempts: seq<Attempt>): Values {
    if attempts == [] then m - {key} else m[key := attempts]
  }

  datatype Reply = Reserved(id: string) | Exhausted | Capacity | Failed | Raised | Settled

  datatype ReserveRequest = ReserveRequest(key: string, maximum: nat, now: int, expires: int, id: string, first: WriteEnd, second: WriteEnd)

  /** The number of keys once the asked one has been added. */
  function KeysWith(m: Values, key: string): nat {
    if key in m then |m| else |m| + 1
  }

  /** The new attempt is written; if that raises, it is taken out again and the rest written. */
  function Attach(f: LedgerFile, m: Values, q: ReserveRequest): (LedgerFile, Reply) {
    var more := AttemptsOf(m, q.key) + [Attempt(q.id, false, q.expires)];
    var grown := m[q.key := more];
    if q.first.Done? then (Stored(grown), Reserved(q.id))
    else (Written(Written(f, grown, q.first), With(m, q.key, Without(more, q.id)), q.second), Failed)
  }

  predicate HasRoom(m: Values, limits: Limits, key: string) {
    KeysWith(m, key) <= limits.keys && Total(m) < limits.records
  }

  function Reserve(f: LedgerFile, limits: Limits, q: ReserveRequest): (LedgerFile, Reply) {
    match ReadFile(f, limits, q.now)
    case Rejected => (f, Raised)
    case OverCapacity => (f, Capacity)
    case Read(m, _) =>
      if |AttemptsOf(m, q.key)| >= q.maximum then (f, Exhausted)
      else if !HasRoom(m, limits, q.key) then (f, Capacity)
      else Attach(f, m, q)
  }

  function Without(attempts: seq<Attempt>, id: string): seq<Attempt> {
    if attempts == [] then []
    else
      var last := attempts[|attempts| - 1];
      Without(attempts[..|attempts| - 1], id) + if last.reservation != id then [last] else []
  }

  predicate Has(attempts: seq<Attempt>, id: string) {
    exists i :: 0 <= i < |attempts| && attempts[i].reservation == id
  }

  /** The first attempt with this id is marked as used, or removed. */
  function Settle(attempts: seq<Attempt>, id: string, consumed: bool): seq<Attempt> {
    if attempts == [] then []
    else if attempts[0].reservation != id then [attempts[0]] + Settle(attempts[1..], id, consumed)
    else if consumed then [attempts[0].(used := true)] + attempts[1..]
    else attempts[1..]
  }

  function Finish(f: LedgerFile, limits: Limits, key: string, id: string, consumed: bool, now: int, end: WriteEnd): (LedgerFile, Reply) {
    match ReadFile(f, limits, now)
    case Rejected => (f, Raised)
    case OverCapacity => (f, Capacity)
    case Read(m, changed) =>
      if !Has(AttemptsOf(m, key), id) && !changed then (f, Settled)
      else
        (Written(f, With(m, key, Settle(AttemptsOf(m, key), id, consumed)), end), if end.Done? then Settled else Failed)
  }
}
