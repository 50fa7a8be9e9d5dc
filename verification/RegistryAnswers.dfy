/** What the calls on the registry answer and what they leave: which status a marking may follow, which
 *  it gives, and what a recovery serves afterwards. Statuses are spelled out here. */
module RegistryAnswers {
  import opened Basics
  import opened Tallies
  import opened Registry
  import opened Laws = RegistryLaws
  import opened Runs = RegistryRuns
  import opened RegistryHistory
  import opened ConfigRegistryObject

  // ---------------------------------------------------------------- one marking

  /** From where a marking may be made. */
  predicate MayFollow(op: Op, status: Status) {
    match op
    case MarkStale => status == Active || status == Stale
    case MarkInvalid(_) => status == Active || status == Stale || status == Invalid
    case MarkRevoked => status == Active || status == Stale || status == Invalid
    case MarkValidated(_) => status == Active || status == Stale
    case Unrevoke => status == Revoked
  }

  /** The revision that a marking leaves: the next version of the same configuration, under the status of
   *  that call. Only `mark_validated` touches the configuration, and there only the time of validation. */
  ghost predicate Leaves(op: Op, was: Record, now: Record) {
    && now.entry.id == was.entry.id && now.entry.domain == was.entry.domain && now.entry.created == was.entry.created
    && now.entry.version == was.entry.version + 1
    && match op
       case MarkStale => now.entry.status == Stale && now.entry.reasons == {} && SameContent(was, now)
       case MarkInvalid(reasons) => now.entry.status == Invalid && now.entry.reasons == reasons && SameContent(was, now)
       case MarkRevoked => now.entry.status == Revoked && now.entry.reasons == {} && SameContent(was, now)
       case MarkValidated(stamp) =>
         && stamp.Some? && now.entry.status == Active && now.entry.reasons == {}
         && now.entry.validated == stamp.value && now.config == was.config.(lastValidated := stamp.value)
       case Unrevoke => now.entry.status == Stale && now.entry.reasons == {} && SameContent(was, now)
  }

  predicate SameContent(was: Record, now: Record) {
    now.config == was.config && now.entry.validated == was.entry.validated
  }

  function Last(h: History, id: string): Record
    requires id in h && h[id] != []
  {
    h[id][|h[id]| - 1]
  }

  /** The histories that a recovery serves. */
  ghost predicate Sound(h: History) {
    NonEmptyChains(h) && forall id :: id in h ==> Last(h, id).entry.id == id && Matches(Last(h, id))
  }

  predicate AsExpected(e: Entry, version: Option<int>, status: Option<Status>) {
    (version.Some? ==> version.value == e.version) && (status.Some? ==> status.value == e.status)
  }

  /** When a marking writes, and what. */
  lemma MarkWritesIff(h: History, id: string, op: Op, version: Option<int>, status: Option<Status>, max: nat)
    requires Sound(h)
    ensures var verdict := Decide(h, Mark(id, op, version, status), max);
      && (verdict.Write? <==>
           && id in h && AsExpected(Last(h, id).entry, version, status) && MayFollow(op, Last(h, id).entry.status)
           && Total(h) < max && !(op.MarkValidated? && op.stamp.None?))
      && (verdict.Write? ==> Leaves(op, Last(h, id), verdict.record))
      && (!verdict.Write? ==> verdict.Refused?)
  {
  }

  /** Which refusal: first the configuration must be known, then be as expected and allow the marking, then
   *  there must be room, and last the time has to be one. */
  lemma MarkRefusals(h: History, id: string, op: Op, version: Option<int>, status: Option<Status>, max: nat)
    requires Sound(h)
    ensures var verdict := Decide(h, Mark(id, op, version, status), max);
      var fits := id in h && AsExpected(Last(h, id).entry, version, status) && MayFollow(op, Last(h, id).entry.status);
      && (verdict == Refused(NoSuchConfig) <==> id !in h)
      && (verdict == Refused(Conflict) <==> id in h && !fits)
      && (verdict == Refused(LimitReached) <==> fits && Total(h) >= max)
      && (verdict == Refused(BadStamp) <==> fits && Total(h) < max && op == MarkValidated(None))
      && verdict != Refused(BadReasons)
  {
  }

  /** Registering: the same configuration again gives its last entry, another under its id is a conflict,
   *  and a new one becomes version 1, active. */
  lemma RegisterAnswers(h: History, c: Config, max: nat)
    requires Sound(h)
    ensures Decide(h, Request.Register(c), max) ==
      if c.id in h && h[c.id][0].config == c then Already(Last(h, c.id).entry)
      else if c.id in h then Refused(Conflict)
      else if Total(h) >= max then Refused(LimitReached)
      else Write(Record(Entry(c.id, c.domain, Active, 1, c.generatedAt, c.lastValidated, {}), c))
  {
  }

  predicate Lower(c: char) {
    'a' <= c <= 'z'
  }

  /** A lower case letter, then letters, digits and `_.-`, at most 80 in all. */
  predicate ProperReason(r: string) {
    && 0 < |r| <= 80 && Lower(r[0])
    && forall i :: 0 <= i < |r| ==> Lower(r[i]) || IsDigit(r[i]) || r[i] == '_' || r[i] == '.' || r[i] == '-'
  }

  lemma ReasonIff(r: string)
    ensures IsReason(r) <==> ProperReason(r)
  {
    if 0 < |r| <= 80 && Lower(r[0]) {
      forall i | 0 <= i < |r| ensures r[i] in "_.-" <==> r[i] == '_' || r[i] == '.' || r[i] == '-' {}
    }
  }

  /** At least one reason must be given, at most 64, and each a proper one. */
  lemma ReasonsIff(reasons: set<string>)
    ensures ReasonsOk(reasons) <==> 1 <= |reasons| <= 64 && forall r :: r in reasons ==> ProperReason(r)
  {
    assert reasons == {} <==> |reasons| == 0;
    forall r | r in reasons ensures IsReason(r) <==> ProperReason(r) {
      ReasonIff(r);
    }
  }

  // ---------------------------------------------------------------- what is served afterwards

  lemma ServedSound(d: Disk)
    ensures Sound(HistoryOf(d))
  {
    SettledHolds(d);
    HoldsNonEmpty(Settled(d), HistoryOf(d));
    forall id | id in HistoryOf(d) ensures Last(HistoryOf(d), id).entry.id == id && Matches(Last(HistoryOf(d), id)) {
      RecordsMatch(Settled(d), HistoryOf(d), id, |HistoryOf(d)[id]| - 1);
    }
  }

  /** Exactly one record has been added, at the end of the history of `id`. */
  ghost predicate Gains(h: History, h': History, id: string, r: Record) {
    && id in h' && h'[id] == (if id in h then h[id] else []) + [r]
    && h'.Keys == h.Keys + {id} && forall x :: x in h && x != id ==> h'[x] == h[x]
  }

  /** A marking that is in order, unless it is cut before it publishes: recovery then serves the history
   *  with the one revision that this call leaves, and all others as they were. */
  lemma MarkingIsServed(d: Disk, id: string, op: Op, version: Option<int>, status: Option<Status>, cut: Cut, max: nat)
    requires Recover(d, max).Served? && max <= 999_999 && id in HistoryOf(d) && HistoryOf(d)[id] != []
    requires AsExpected(Last(HistoryOf(d), id).entry, version, status) && MayFollow(op, Last(HistoryOf(d), id).entry.status)
    requires Total(HistoryOf(d)) < max && op != MarkValidated(None) && cut != BeforePublish
    ensures var h := HistoryOf(d);
      var recovery := Recover(After(d, Mark(id, op, version, status), cut, max), max);
      && recovery.Served? && id in recovery.history && recovery.history[id] != []
      && Gains(h, recovery.history, id, Last(recovery.history, id))
      && Leaves(op, Last(h, id), Last(recovery.history, id))
  {
    var h, q := HistoryOf(d), Mark(id, op, version, status);
    ServedSound(d);
    CutCallIsAtomic(d, q, cut, max);
    MarkingGains(h, id, op, version, status, cut, max);
  }

  lemma MarkingGains(h: History, id: string, op: Op, version: Option<int>, status: Option<Status>, cut: Cut, max: nat)
    requires Sound(h) && id in h && AsExpected(Last(h, id).entry, version, status) && MayFollow(op, Last(h, id).entry.status)
    requires Total(h) < max && op != MarkValidated(None) && cut != BeforePublish
    ensures var h' := HistoryAfter(h, Mark(id, op, version, status), cut, max);
      && id in h' && h'[id] != [] && Gains(h, h', id, Last(h', id)) && Leaves(op, Last(h, id), Last(h', id))
  {
    MarkWritesIff(h, id, op, version, status, max);
  }

  /** A new configuration is served active, as version 1. */
  lemma RegisteringIsServed(d: Disk, c: Config, cut: Cut, max: nat)
    requires Recover(d, max).Served? && max <= 999_999 && c.id !in HistoryOf(d)
    requires Total(HistoryOf(d)) < max && cut != BeforePublish
    ensures var recovery := Recover(After(d, Request.Register(c), cut, max), max);
      && recovery.Served?
      && Gains(HistoryOf(d), recovery.history, c.id, Record(Entry(c.id, c.domain, Active, 1, c.generatedAt, c.lastValidated, {}), c))
  {
    ServedSound(d);
    CutCallIsAtomic(d, Request.Register(c), cut, max);
    RegisterAnswers(HistoryOf(d), c, max);
  }

  /** Whatever is refused, answered from the history or cut before it publishes leaves no trace in what is
   *  served. */
  lemma OthersLeaveNoTrace(d: Disk, q: Request, cut: Cut, max: nat)
    requires Recover(d, max).Served? && max <= 999_999 && NonEmptyChains(HistoryOf(d))
    requires !Decide(HistoryOf(d), q, max).Write? || cut == BeforePublish
    ensures Recover(After(d, q, cut, max), max) == Served(HistoryOf(d))
  {
    CutCallIsAtomic(d, q, cut, max);
  }

  /** The reply: the new entry when the call is whole, the last one when there was nothing to do. */
  lemma Replies(h: History, q: Request, cut: Cut, max: nat)
    requires Sound(h)
    ensures var verdict := Decide(h, q, max);
      && (verdict.Write? ==> ReplyTo(verdict, cut) == if cut == Whole then Done(Last(HistoryAfter(h, q, Whole, max), verdict.record.entry.id).entry) else CutShort)
      && (verdict.Already? ==> q.Register? && q.config.id in h && ReplyTo(verdict, cut) == Done(Last(h, q.config.id).entry))
      && (verdict.Refused? ==> ReplyTo(verdict, cut) == Refusing(verdict.why))
  {
  }

  // ---------------------------------------------------------------- over runs

  function Subject(q: Request): string {
    match q
    case Register(c) => c.id
    case Mark(id, _, _, _) => id
  }

  function StatusGiven(q: Request): Status {
    match q
    case Register(_) => Active
    case Mark(_, MarkStale, _, _) => Stale
    case Mark(_, MarkInvalid(_), _, _) => Invalid
    case Mark(_, MarkRevoked, _, _) => Revoked
    case Mark(_, MarkValidated(_), _, _) => Active
    case Mark(_, Unrevoke, _, _) => Stale
  }

  function Length(h: History, id: string): nat {
    if id in h then |h[id]| else 0
  }

  /** The last call of a series after which the history of `id` is longer than before it. */
  ghost function LastPublished(d: Disk, calls: seq<(Request, Cut)>, id: string, max: nat): Option<Request>
    decreases |calls|
  {
    if calls == [] || !Recover(d, max).Served? then None
    else
      var d' := After(d, calls[0].0, calls[0].1, max);
      var later := LastPublished(d', calls[1..], id, max);
      if later.Some? then later
      else if Length(HistoryOf(d'), id) > Length(HistoryOf(d), id) then Some(calls[0].0) else None
  }

  /** What one call, or a series of them, does to the history of `id`: it ends with what the named call
   *  has published, or is as it was. */
  ghost predicate Outcome(h: History, h': History, id: string, last: Option<Request>) {
    if last.Some? then Subject(last.value) == id && id in h' && h'[id] != [] && Last(h', id).entry.status == StatusGiven(last.value)
    else (id in h' <==> id in h) && (id in h ==> h'[id] == h[id])
  }

  lemma GrowthIsTheCalls(d: Disk, q: Request, cut: Cut, max: nat, id: string)
    requires Recover(d, max).Served? && max <= 999_999
    ensures var h, h' := HistoryOf(d), HistoryOf(After(d, q, cut, max));
      Recover(After(d, q, cut, max), max) == Served(h') && Outcome(h, h', id, if Length(h', id) > Length(h, id) then Some(q) else None)
  {
    ServedSound(d);
    CutCallIsAtomic(d, q, cut, max);
    GrowthOf(HistoryOf(d), q, cut, max, id);
    assert HistoryOf(After(d, q, cut, max)) == HistoryAfter(HistoryOf(d), q, cut, max);
  }

  lemma GrowthOf(h: History, q: Request, cut: Cut, max: nat, id: string)
    requires Sound(h)
    ensures var h' := HistoryAfter(h, q, cut, max); Outcome(h, h', id, if Length(h', id) > Length(h, id) then Some(q) else None)
  {
    if q.Mark? {
      MarkWritesIff(h, q.id, q.op, q.version, q.status, max);
    } else {
      RegisterAnswers(h, q.config, max);
    }
  }

  lemma OutcomesJoin(g: History, h: History, k: History, id: string, one: Option<Request>, later: Option<Request>)
    requires Outcome(g, h, id, one) && Outcome(h, k, id, later)
    ensures Outcome(g, k, id, if later.Some? then later else one)
  {
  }

  lemma FirstOfCalls(d: Disk, calls: seq<(Request, Cut)>, id: string, max: nat)
    requires Recover(d, max).Served? && calls != []
    ensures var d' := After(d, calls[0].0, calls[0].1, max);
      var later := LastPublished(d', calls[1..], id, max);
      && Calls(d, calls, max) == Calls(d', calls[1..], max)
      && LastPublished(d, calls, id, max)
        == if later.Some? then later else if Length(HistoryOf(d'), id) > Length(HistoryOf(d), id) then Some(calls[0].0) else None
  {
  }

  /** Over any series of calls, each cut anywhere or not: what is served last for a configuration has the
   *  status of the call that published last for it, and is as it was if there was none. */
  lemma {:induction false} LastCallDecides(d: Disk, calls: seq<(Request, Cut)>, id: string, max: nat)
    requires Recover(d, max).Served? && max <= 999_999
    ensures var h' := HistoryOf(Calls(d, calls, max));
      Recover(Calls(d, calls, max), max) == Served(h') && Outcome(HistoryOf(d), h', id, LastPublished(d, calls, id, max))
    decreases |calls|
  {
    if calls != [] {
      var d' := After(d, calls[0].0, calls[0].1, max);
      GrowthIsTheCalls(d, calls[0].0, calls[0].1, max, id);
      LastCallDecides(d', calls[1..], id, max);
      FirstOfCalls(d, calls, id, max);
      OutcomesJoin(HistoryOf(d), HistoryOf(d'), HistoryOf(Calls(d, calls, max)), id,
                   if Length(HistoryOf(d'), id) > Length(HistoryOf(d), id) then Some(calls[0].0) else None,
                   LastPublished(d', calls[1..], id, max));
    }
  }

  predicate Activates(q: Request) {
    q.Register? || q.op.MarkValidated?
  }

  /** A configuration that was not there before is served ACTIVE in the end if and only if the last call
   *  that published for it was `register` or `mark_validated`. */
  lemma ActiveIff(d: Disk, calls: seq<(Request, Cut)>, id: string, max: nat)
    requires Recover(d, max).Served? && max <= 999_999 && id !in HistoryOf(d)
    ensures var last := LastPublished(d, calls, id, max);
      var h' := HistoryOf(Calls(d, calls, max));
      (id in h' && h'[id] != [] && Last(h', id).entry.status == Active) <==> (last.Some? && Activates(last.value))
  {
    LastCallDecides(d, calls, id, max);
    ActiveByStatus(HistoryOf(Calls(d, calls, max)), id, LastPublished(d, calls, id, max));
  }

  lemma ActiveByStatus(h: History, id: string, last: Option<Request>)
    requires if last.Some? then id in h && h[id] != [] && Last(h, id).entry.status == StatusGiven(last.value) else id !in h
    ensures (id in h && h[id] != [] && Last(h, id).entry.status == Active) <==> (last.Some? && Activates(last.value))
  {
  }

  /** Every record that is served comes from a file at the place its own entry names, whole and with the
   *  digest of its configuration, and agrees with that configuration; reasons are given exactly for the
   *  invalid ones. */
  lemma ServedIsSealed(d: Disk, max: nat, id: string, k: nat)
    requires Recover(d, max).Served? && id in HistoryOf(d) && k < |HistoryOf(d)[id]|
    ensures var r := HistoryOf(d)[id][k];
      var place := RevFile(Of(r.entry.domain), Of(id), k + 1);
      && place in d.files && d.files[place] == Sealed(r.entry, r.config, r.config)
      && r.entry.version == k + 1 <= 999_999 && r.entry.id == id == r.config.id
      && r.entry.domain == r.config.domain && r.entry.created == r.config.generatedAt && r.entry.validated == r.config.lastValidated
      && (r.entry.status == Invalid <==> r.entry.reasons != {}) && |r.entry.reasons| <= 64
  {
    var records := HistoryOf(d)[id];
    assert Chain(d, id, records);
    assert GoodFor(d, id, PathOf(records[k].entry)) && RecordAt(d, PathOf(records[k].entry)) == records[k];
  }

  /** Anything else in a place named after a configuration discredits it. */
  lemma BadFileDiscredits(d: Disk, max: nat, id: string, p: Path)
    requires Recover(d, max).Served? && p in d.files && Lookup(d, p).None?
    requires (p.RevFile? && p.config == Of(id)) || (p.Stray? && p.under == Some(Of(id)))
    ensures id !in HistoryOf(d)
  {
    assert Tainted(d, id);
  }
}
