/** Which histories the registry can ever hold: over any run of calls, cuts, broken recoveries and
 *  damage, no configuration becomes active again after it was invalid or revoked without an
 *  explicit unrevoke; and without damage histories only grow. */
module RegistryHistory {
  import opened Basics
  import opened Registry
  import opened Laws = RegistryLaws
  import opened Runs = RegistryRuns

  datatype Event = Calling(q: Request, cut: Cut) | Recovering | Damaging

  /** One event. A call whose recovery fails, and a recovery that is cut, leave a partly swept disk. */
  ghost predicate Next(d: Disk, e: Event, d': Disk, max: nat) {
    match e
    case Calling(q, cut) => Recover(d, max).Served? && d' == After(d, q, cut, max)
    case Recovering => PartlySwept(d, d')
    case Damaging => OnlyDamaged(d, d') && (d'.manifest == d.manifest || !d'.manifest.Listed?)
  }

  ghost predicate IsRun(disks: seq<Disk>, events: seq<Event>, max: nat) {
    && |disks| == |events| + 1
    && disks[0] == Disk(map[], Absent)
    && forall k :: 0 <= k < |events| ==> Next(disks[k], events[k], disks[k + 1], max)
  }

  // ---------------------------------------------------------------- one step of a history

  ghost predicate Follows(s: Status, t: Status) {
    exists op: Op :: s in AllowedFrom(op) && Target(op) == t
  }

  /** Two records of one id with consecutive versions. */
  ghost predicate Successive(d: Disk, p: Path, q: Path) {
    && Good(d, p) && Good(d, q) && RecordAt(d, p).entry.id == RecordAt(d, q).entry.id
    && RecordAt(d, q).entry.version == RecordAt(d, p).entry.version + 1
  }

  /** Every first version on the disk is active, every other follows its predecessor. */
  ghost predicate Genuine(d: Disk) {
    && (forall p :: Good(d, p) && RecordAt(d, p).entry.version == 1 ==> RecordAt(d, p).entry.status == Active)
    && (forall p, q :: Successive(d, p, q) ==> Follows(RecordAt(d, p).entry.status, RecordAt(d, q).entry.status))
  }

  /** Losing files cannot make a history that was not there. */
  lemma FewerFilesGenuine(d: Disk, d': Disk)
    requires Genuine(d) && forall p :: Good(d', p) ==> Lookup(d, p) == Lookup(d', p)
    ensures Genuine(d')
  {
    forall p | Good(d', p) && RecordAt(d', p).entry.version == 1 ensures RecordAt(d', p).entry.status == Active {
      assert Good(d, p);
    }
    forall p, q | Successive(d', p, q) ensures Follows(RecordAt(d', p).entry.status, RecordAt(d', q).entry.status) {
      assert Successive(d, p, q);
    }
  }

  lemma PublishedGenuine(d: Disk, h: History, r: Record)
    requires Holds(d, h) && Genuine(d) && Continues(h, r)
    requires r.entry.id in h ==> h[r.entry.id] != [] && Follows(h[r.entry.id][|h[r.entry.id]| - 1].entry.status, r.entry.status)
    requires r.entry.id !in h ==> r.entry.status == Active
    ensures Genuine(Published(d, r))
  {
    var d' := Published(d, r);
    NextPlaceIsFree(d, h, r);
    forall p ensures Lookup(d', p) == if p == PathOf(r.entry) then (if r.entry.version <= MaxVersion then Some(r) else None) else Lookup(d, p) {
      PublishedFile(d, r, p);
    }
    forall p | Good(d', p) && RecordAt(d', p).entry.version == 1 ensures RecordAt(d', p).entry.status == Active {
      if p != PathOf(r.entry) {
        assert Good(d, p);
      }
    }
    forall p, q | Successive(d', p, q) ensures Follows(RecordAt(d', p).entry.status, RecordAt(d', q).entry.status) {
      if q == PathOf(r.entry) {
        NewAfterLast(d, h, r, p);
      } else if p == PathOf(r.entry) {
        NothingAfterNew(d, h, r, q);
      } else {
        assert Successive(d, p, q);
      }
    }
  }

  lemma NewAfterLast(d: Disk, h: History, r: Record, p: Path)
    requires Holds(d, h) && Continues(h, r) && Good(d, p) && RecordAt(d, p).entry.id == r.entry.id
    requires r.entry.version == RecordAt(d, p).entry.version + 1
    ensures r.entry.id in h && h[r.entry.id] != [] && RecordAt(d, p) == h[r.entry.id][|h[r.entry.id]| - 1]
  {
    HeldRecord(d, h, r.entry.id, p);
  }

  lemma NothingAfterNew(d: Disk, h: History, r: Record, q: Path)
    requires Holds(d, h) && Continues(h, r) && Good(d, q) && RecordAt(d, q).entry.id == r.entry.id
    ensures RecordAt(d, q).entry.version <= r.entry.version
  {
    HeldRecord(d, h, r.entry.id, q);
  }

  lemma DecideFollows(h: History, q: Request, max: nat)
    requires NonEmptyChains(h) && Decide(h, q, max).Write?
    requires q.Mark? && q.id in h ==> h[q.id][|h[q.id]| - 1].entry.id == q.id
    ensures var r := Decide(h, q, max).record;
      if r.entry.id in h then Follows(h[r.entry.id][|h[r.entry.id]| - 1].entry.status, r.entry.status)
      else r.entry.status == Active
  {
    if q.Mark? {
      var current := h[q.id][|h[q.id]| - 1];
      assert current.entry.status in AllowedFrom(q.op) && Target(q.op) == NextRecord(current, q.op).entry.status;
    }
  }

  lemma CallKeepsGenuine(d: Disk, q: Request, cut: Cut, max: nat)
    requires Genuine(d) && Recover(d, max).Served?
    ensures Genuine(After(d, q, cut, max))
  {
    SettledHolds(d);
    HoldsNonEmpty(Settled(d), HistoryOf(d));
    SettledGenuine(d);
    CommitGenuine(Settled(d), HistoryOf(d), q, cut, max);
  }

  lemma CommitGenuine(d: Disk, h: History, q: Request, cut: Cut, max: nat)
    requires Holds(d, h) && Genuine(d) && NonEmptyChains(h)
    ensures var verdict := Decide(h, q, max);
      verdict.Write? ==> verdict.record.entry.version >= 0 && Genuine(Commit(d, h, verdict.record, cut))
  {
    var verdict := Decide(h, q, max);
    if verdict.Write? {
      WriteKeepsGenuine(d, h, q, max);
      if !cut.BeforePublish? {
        SameFilesGenuine(Published(d, verdict.record), Commit(d, h, verdict.record, cut));
      }
    }
  }

  lemma WriteKeepsGenuine(d: Disk, h: History, q: Request, max: nat)
    requires Holds(d, h) && Genuine(d) && NonEmptyChains(h) && Decide(h, q, max).Write?
    ensures Continues(h, Decide(h, q, max).record) && Genuine(Published(d, Decide(h, q, max).record))
  {
    DecideContinues(d, h, q, max);
    if q.Mark? {
      RecordsMatch(d, h, q.id, |h[q.id]| - 1);
    }
    DecideFollows(h, q, max);
    PublishedGenuine(d, h, Decide(h, q, max).record);
  }

  lemma SettledGenuine(d: Disk)
    requires Genuine(d)
    ensures Genuine(Settled(d))
  {
    forall p | Good(Settled(d), p) ensures Lookup(d, p) == Lookup(Settled(d), p) {}
    FewerFilesGenuine(d, Settled(d));
  }

  lemma SameFilesGenuine(d: Disk, d': Disk)
    requires Genuine(d) && d'.files == d.files
    ensures Genuine(d')
  {
    forall p ensures Lookup(d, p) == Lookup(d', p) {}
    FewerFilesGenuine(d, d');
  }

  lemma NextKeepsGenuine(d: Disk, e: Event, d': Disk, max: nat)
    requires Genuine(d) && Next(d, e, d', max)
    ensures Genuine(d')
  {
    match e
    case Calling(q, cut) => CallKeepsGenuine(d, q, cut, max);
    case _ =>
      forall p | Good(d', p) ensures Lookup(d, p) == Lookup(d', p) {}
      FewerFilesGenuine(d, d');
  }

  lemma {:induction false} RunKeepsGenuine(disks: seq<Disk>, events: seq<Event>, max: nat, k: nat)
    requires IsRun(disks, events, max) && k < |disks|
    ensures Genuine(disks[k])
  {
    if k > 0 {
      RunKeepsGenuine(disks, events, max, k - 1);
      NextKeepsGenuine(disks[k - 1], events[k - 1], disks[k], max);
    }
  }

  // ---------------------------------------------------------------- no silent return

  ghost predicate StepByStep(statuses: seq<Status>) {
    forall k :: 0 <= k < |statuses| - 1 ==> Follows(statuses[k], statuses[k + 1])
  }

  lemma {:induction false} BackThroughUnrevoke(statuses: seq<Status>, i: nat, j: nat)
    requires StepByStep(statuses) && i < j < |statuses|
    requires statuses[i] in {Invalid, Revoked} && statuses[j] == Active
    ensures exists k :: i <= k < j && statuses[k] == Revoked && statuses[k + 1] == Stale
    decreases j - i
  {
    assert Follows(statuses[i], statuses[i + 1]);
    if statuses[i] == Invalid {
      BackThroughUnrevoke(statuses, i + 1, j);
    }
  }

  function Statuses(records: seq<Record>): seq<Status> {
    seq(|records|, k requires 0 <= k < |records| => records[k].entry.status)
  }

  lemma ChainFollows(d: Disk, id: string, records: seq<Record>)
    requires Genuine(d) && Chain(d, id, records)
    ensures StepByStep(Statuses(records)) && records[0].entry.status == Active
  {
    assert GoodFor(d, id, PathOf(records[0].entry)) && RecordAt(d, PathOf(records[0].entry)) == records[0];
    forall k | 0 <= k < |records| - 1 ensures Follows(records[k].entry.status, records[k + 1].entry.status) {
      var p, q := PathOf(records[k].entry), PathOf(records[k + 1].entry);
      assert GoodFor(d, id, p) && RecordAt(d, p) == records[k];
      assert GoodFor(d, id, q) && RecordAt(d, q) == records[k + 1];
      assert Successive(d, p, q);
    }
  }

  /** Between the two, some revision is a revoked one that the next turns stale. */
  predicate UnrevokedBetween(records: seq<Record>, i: nat, j: nat)
    requires i < j < |records|
  {
    exists k :: i <= k < j && records[k].entry.status == Revoked && records[k + 1].entry.status == Stale
  }

  lemma ChainBack(records: seq<Record>, i: nat, j: nat)
    requires StepByStep(Statuses(records)) && i < j < |records|
    requires records[i].entry.status in {Invalid, Revoked} && records[j].entry.status == Active
    ensures UnrevokedBetween(records, i, j)
  {
    var statuses := Statuses(records);
    BackThroughUnrevoke(statuses, i, j);
    var k :| i <= k < j && statuses[k] == Revoked && statuses[k + 1] == Stale;
    assert records[k].entry.status == Revoked && records[k + 1].entry.status == Stale;
  }

  /** In every history ever served, an active revision that comes after an invalid or revoked one
   *  has a step from revoked to stale, an unrevoke, in between. */
  lemma ActiveNeedsUnrevoke(disks: seq<Disk>, events: seq<Event>, max: nat, id: string, i: nat, j: nat)
    requires IsRun(disks, events, max)
    requires var d := disks[|disks| - 1]; Recover(d, max).Served? && id in HistoryOf(d) && i < j < |HistoryOf(d)[id]|
    requires var records := HistoryOf(disks[|disks| - 1])[id];
      records[i].entry.status in {Invalid, Revoked} && records[j].entry.status == Active
    ensures UnrevokedBetween(HistoryOf(disks[|disks| - 1])[id], i, j)
  {
    var d := disks[|disks| - 1];
    RunKeepsGenuine(disks, events, max, |disks| - 1);
    ChainFollows(d, id, HistoryOf(d)[id]);
    ChainBack(HistoryOf(d)[id], i, j);
  }

  // ---------------------------------------------------------------- histories only grow

  predicate Extends(h: History, h': History) {
    forall id :: id in h ==> id in h' && h[id] <= h'[id]
  }

  /** A series of calls, each cut or not, on a disk nobody damages. */
  ghost function Calls(d: Disk, calls: seq<(Request, Cut)>, max: nat): Disk
    decreases |calls|
  {
    if calls == [] || !Recover(d, max).Served? then d
    else Calls(After(d, calls[0].0, calls[0].1, max), calls[1..], max)
  }

  lemma CallExtends(d: Disk, q: Request, cut: Cut, max: nat)
    requires Recover(d, max).Served? && max <= MaxVersion
    ensures Recover(After(d, q, cut, max), max).Served?
    ensures Extends(HistoryOf(d), HistoryOf(After(d, q, cut, max)))
  {
    CutCallIsAtomic(d, q, cut, max);
    ExtendedExtends(HistoryOf(d), q, cut, max);
    assert HistoryOf(After(d, q, cut, max)) == HistoryAfter(HistoryOf(d), q, cut, max);
  }

  lemma ExtendedExtends(h: History, q: Request, cut: Cut, max: nat)
    requires NonEmptyChains(h)
    ensures Extends(h, HistoryAfter(h, q, cut, max))
  {
  }

  /** Append only: however calls are cut, recovery keeps succeeding, and no record is ever lost or
   *  changed. */
  lemma {:induction false} HistoriesOnlyGrow(d: Disk, calls: seq<(Request, Cut)>, max: nat)
    requires Recover(d, max).Served? && max <= MaxVersion
    ensures Recover(Calls(d, calls, max), max).Served?
    ensures Extends(HistoryOf(d), HistoryOf(Calls(d, calls, max)))
    decreases |calls|
  {
    if calls != [] {
      var d1 := After(d, calls[0].0, calls[0].1, max);
      CallExtends(d, calls[0].0, calls[0].1, max);
      HistoriesOnlyGrow(d1, calls[1..], max);
      ExtendsTransitive(HistoryOf(d), HistoryOf(d1), HistoryOf(Calls(d1, calls[1..], max)));
    }
  }

  lemma ExtendsTransitive(g: History, h: History, k: History)
    requires Extends(g, h) && Extends(h, k)
    ensures Extends(g, k)
  {
    forall id | id in g ensures id in k && g[id] <= k[id] {
      assert id in h && g[id] <= h[id] <= k[id];
    }
  }

  /** Optimistic locking: of several calls that expect the same version of a configuration, at most
   *  one ever writes. Once one has published, each later one is refused, whatever happens between. */
  lemma OneCallPerVersion(
    d: Disk, id: string, op: Op, version: int, status: Option<Status>, cut: Cut, between: seq<(Request, Cut)>,
    op': Op, status': Option<Status>, max: nat)
    requires Recover(d, max).Served? && max <= MaxVersion && !cut.BeforePublish? && NonEmptyChains(HistoryOf(d))
    requires Decide(HistoryOf(d), Mark(id, op, Some(version), status), max).Write?
    ensures var d' := Calls(After(d, Mark(id, op, Some(version), status), cut, max), between, max);
      && Recover(d', max).Served? && NonEmptyChains(HistoryOf(d'))
      && Decide(HistoryOf(d'), Mark(id, op', Some(version), status'), max).Refused?
  {
    var d1 := After(d, Mark(id, op, Some(version), status), cut, max);
    MarkRaisesVersion(d, id, op, version, status, cut, max);
    HistoriesOnlyGrow(d1, between, max);
    LateCallRefused(Calls(d1, between, max), id, version, op', status', max);
  }

  lemma ServedVersions(d: Disk)
    ensures VersionsCount(HistoryOf(d))
  {
    SettledHolds(d);
    HeldVersions(Settled(d), HistoryOf(d));
  }

  lemma HeldVersions(d: Disk, h: History)
    requires Holds(d, h)
    ensures VersionsCount(h)
  {
    HoldsNonEmpty(d, h);
    forall id | id in h ensures h[id] != [] && h[id][|h[id]| - 1].entry.version == |h[id]| && h[id][|h[id]| - 1].entry.id == id {
      CurrentRecord(d, h, id);
    }
  }

  /** The last record of every chain carries its length as its version. */
  predicate VersionsCount(h: History) {
    forall id :: id in h ==> h[id] != [] && h[id][|h[id]| - 1].entry.version == |h[id]| && h[id][|h[id]| - 1].entry.id == id
  }

  lemma MarkRaisesVersion(d: Disk, id: string, op: Op, version: int, status: Option<Status>, cut: Cut, max: nat)
    requires Recover(d, max).Served? && max <= MaxVersion && !cut.BeforePublish? && NonEmptyChains(HistoryOf(d))
    requires Decide(HistoryOf(d), Mark(id, op, Some(version), status), max).Write?
    ensures var d' := After(d, Mark(id, op, Some(version), status), cut, max);
      Recover(d', max).Served? && id in HistoryOf(d') && |HistoryOf(d')[id]| > version
  {
    CutCallIsAtomic(d, Mark(id, op, Some(version), status), cut, max);
    ServedVersions(d);
    assert HistoryOf(After(d, Mark(id, op, Some(version), status), cut, max))
        == HistoryAfter(HistoryOf(d), Mark(id, op, Some(version), status), cut, max);
    HistoryPast(HistoryOf(d), id, op, version, status, cut, max);
  }

  lemma HistoryPast(h: History, id: string, op: Op, version: int, status: Option<Status>, cut: Cut, max: nat)
    requires VersionsCount(h) && !cut.BeforePublish? && Decide(h, Mark(id, op, Some(version), status), max).Write?
    ensures var h' := HistoryAfter(h, Mark(id, op, Some(version), status), cut, max); id in h' && |h'[id]| > version
  {
  }

  lemma LateCallRefused(d: Disk, id: string, version: int, op: Op, status: Option<Status>, max: nat)
    requires Recover(d, max).Served? && id in HistoryOf(d) && |HistoryOf(d)[id]| > version
    ensures NonEmptyChains(HistoryOf(d)) && Decide(HistoryOf(d), Mark(id, op, Some(version), status), max).Refused?
  {
    ServedVersions(d);
    PastIsRefused(HistoryOf(d), id, version, op, status, max);
  }

  lemma PastIsRefused(h: History, id: string, version: int, op: Op, status: Option<Status>, max: nat)
    requires VersionsCount(h) && id in h && |h[id]| > version
    ensures Decide(h, Mark(id, op, Some(version), status), max).Refused?
  {
  }
}
