/** The registry over whole runs: cut calls, cut recoveries and damaged disks in any order. */
module RegistryRuns {
  import opened Basics
  import opened Tallies
  import opened Registry
  import opened Laws = RegistryLaws

  // ---------------------------------------------------------------- counting

  function PositionAt(d: Disk, p: Path): (string, int) {
    if Good(d, p) then (RecordAt(d, p).entry.id, RecordAt(d, p).entry.version - 1) else ("", 0)
  }

  lemma OnePositionEach(d: Disk, h: History, p: Path, q: Path)
    requires Holds(d, h) && p in d.files && q in d.files && PositionAt(d, p) == PositionAt(d, q)
    ensures p == q
  {
    var id := RecordAt(d, p).entry.id;
    assert Chain(d, id, h[id]) && GoodFor(d, id, p) && GoodFor(d, id, q);
  }

  lemma {:induction false} InjectiveSize<A, B>(m: map<A, B>)
    requires forall a, b :: a in m && b in m && a != b ==> m[a] != m[b]
    ensures |m.Values| == |m.Keys|
  {
    if m.Keys == {} {
      assert m.Values == {};
    } else {
      var x :| x in m.Keys;
      var rest := m - {x};
      InjectiveSize(rest);
      assert m.Keys == rest.Keys + {x};
      assert m.Values == rest.Values + {m[x]};
    }
  }

  function Places(d: Disk): map<Path, (string, int)> {
    map p | p in d.files :: PositionAt(d, p)
  }

  function Occupied(d: Disk): set<(string, int)> {
    Places(d).Values
  }

  lemma OccupiedSize(d: Disk, h: History)
    requires Holds(d, h)
    ensures |Occupied(d)| == |d.files|
  {
    forall p, q | p in d.files && q in d.files && p != q ensures Places(d)[p] != Places(d)[q] {
      if PositionAt(d, p) == PositionAt(d, q) {
        OnePositionEach(d, h, p, q);
      }
    }
    InjectiveSize(Places(d));
    assert Places(d).Keys == d.files.Keys;
  }

  lemma PositionHasFile(d: Disk, h: History, x: (string, int))
    requires Holds(d, h) && x in Positions(h)
    ensures x in Occupied(d)
  {
    assert Chain(d, x.0, h[x.0]);
    var p := PathOf(h[x.0][x.1].entry);
    assert GoodFor(d, x.0, p) && Places(d)[p] == x;
  }

  lemma FileHasPosition(d: Disk, h: History, p: Path)
    requires Holds(d, h) && p in d.files
    ensures PositionAt(d, p) in Positions(h)
  {
    var id := RecordAt(d, p).entry.id;
    assert Chain(d, id, h[id]) && GoodFor(d, id, p);
  }

  /** A disk that holds a history has one file for each of its records. */
  lemma FilesAreRecords(d: Disk, h: History)
    requires Holds(d, h)
    ensures |d.files| == Total(h)
  {
    OccupiedSize(d, h);
    forall x ensures x in Occupied(d) <==> x in Positions(h) {
      if x in Positions(h) {
        PositionHasFile(d, h, x);
      }
      if x in Occupied(d) {
        var p :| p in Places(d) && Places(d)[p] == x;
        FileHasPosition(d, h, p);
      }
    }
    SameSet(Occupied(d), Positions(h));
  }

  lemma SmallEnough(d: Disk, h: History, max: nat)
    requires Holds(d, h) && |d.files| <= max
    ensures !OverLimit(d, max)
  {
    Subset((set p | p in d.files && Counted(p)), d.files.Keys);
  }

  lemma RoomForOneMore(d: Disk, h: History, r: Record, max: nat)
    requires Holds(d, h) && Total(h) < max && r.entry.version >= 0
    ensures |Published(d, r).files| <= max
  {
    FilesAreRecords(d, h);
    assert Published(d, r).files.Keys == d.files.Keys + {PathOf(r.entry)};
  }

  // ---------------------------------------------------------------- one call, cut anywhere

  /** The disk after a call whose recovery succeeded. */
  ghost function After(d: Disk, q: Request, cut: Cut, max: nat): Disk
    requires Recover(d, max).Served?
  {
    var h := HistoryOf(d);
    SettledHolds(d);
    HoldsNonEmpty(Settled(d), h);
    var verdict := Decide(h, q, max);
    if verdict.Write? then
      DecideContinues(Settled(d), h, q, max);
      Commit(Settled(d), h, verdict.record, cut)
    else Settled(d)
  }

  /** A disk with a published revision recovers to the extended history, whatever its manifest
   *  says, as long as that lists the old or the new history. */
  lemma PublishRecovers(d: Disk, h: History, r: Record, cut: Cut, max: nat)
    requires Holds(d, h) && Continues(h, r) && Total(h) < max && r.entry.version <= MaxVersion && !cut.BeforePublish?
    ensures Recover(Commit(d, h, r, cut), max) == Served(Extended(h, r))
    ensures Swept(Commit(d, h, r, cut)).files == Commit(d, h, r, cut).files
  {
    PublishHolds(d, h, r);
    RoomForOneMore(d, h, r, max);
    var d' := Commit(d, h, r, cut);
    if cut.Whole? {
      RelistedHolds(Published(d, r), Extended(h, r));
    }
    SmallEnough(d', Extended(h, r), max);
    HoldsRecovers(d', Extended(h, r), max);
  }

  /** Bringing the manifest up to date changes nothing about what a disk holds. */
  lemma RelistedHolds(d: Disk, h: History)
    requires Holds(d, h)
    ensures Holds(d.(manifest := Listed(EntriesOf(h))), h)
  {
    var d' := d.(manifest := Listed(EntriesOf(h)));
    forall id | id in h ensures Chain(d', id, h[id]) && !SeenAbove(d', id, |h[id]|) {
      assert Chain(d, id, h[id]);
      OtherChainStays(d, d', id, h[id]);
      forall e | e in EntriesOf(h) && e.id == id ensures e.version <= |h[id]| {
        ListedEntry(d, h, e);
      }
    }
    forall id | SeenAbove(d', id, 0) ensures id in h {
      var e :| e in EntriesOf(h) && e.id == id && e.version > 0;
      ListedEntry(d, h, e);
    }
  }

  lemma ListedEntry(d: Disk, h: History, e: Entry)
    requires Holds(d, h) && e in EntriesOf(h)
    ensures e.id in h && 1 <= e.version <= |h[e.id]| && h[e.id][e.version - 1].entry == e
  {
    var id: string, k: int :| id in h && 0 <= k < |h[id]| && h[id][k].entry == e;
    RecordsMatch(d, h, id, k);
  }

  function HistoryAfter(h: History, q: Request, cut: Cut, max: nat): History
    requires NonEmptyChains(h)
  {
    var verdict := Decide(h, q, max);
    if verdict.Write? && !cut.BeforePublish? then Extended(h, verdict.record) else h
  }

  /** Crash atomicity: a call cut before the revision is published leaves a disk that recovers to
   *  exactly the old history, and one cut after it, before or after the manifest is written,
   *  recovers to exactly the old history with the one new record at its end. */
  lemma CutCallIsAtomic(d: Disk, q: Request, cut: Cut, max: nat)
    requires Recover(d, max).Served? && max <= MaxVersion
    ensures NonEmptyChains(HistoryOf(d))
    ensures Recover(After(d, q, cut, max), max) == Served(HistoryAfter(HistoryOf(d), q, cut, max))
    ensures Swept(After(d, q, cut, max)).files == After(d, q, cut, max).files
  {
    var s, h := Settled(d), HistoryOf(d);
    SettledHolds(d);
    SettledSmaller(d, max);
    HoldsNonEmpty(s, h);
    HoldsRecovers(s, h, max);
    if Decide(h, q, max).Write? && !cut.BeforePublish? {
      var r := Decide(h, q, max).record;
      DecideContinues(s, h, q, max);
      RoomLeft(h, q, max);
      PublishRecovers(s, h, r, cut, max);
    }
  }

  lemma RoomLeft(h: History, q: Request, max: nat)
    requires NonEmptyChains(h) && Decide(h, q, max).Write? && Continues(h, Decide(h, q, max).record)
    ensures Total(h) < max && Decide(h, q, max).record.entry.version <= max
  {
    var id := Decide(h, q, max).record.entry.id;
    if id in h {
      ListWithinTotal(h, id);
    }
  }

  /** That takes a registry that may hold more than 999999 files. */
  lemma LongVersionNeedsRoom(h: History, r: Record, max: nat)
    requires Continues(h, r) && Total(h) < max && r.entry.version > MaxVersion
    ensures max > MaxVersion
  {
    if r.entry.id in h {
      ListWithinTotal(h, r.entry.id);
    }
  }

  /** Where atomicity ends: file names hold six digits. A revision beyond them is published and
   *  listed, and the next recovery throws the whole history of its configuration away. */
  lemma LongVersionLosesHistory(d: Disk, h: History, r: Record, cut: Cut, max: nat)
    requires Holds(d, h) && Continues(h, r) && Total(h) < max && !cut.BeforePublish?
    ensures Recover(Commit(d, h, r, cut), max)
         == Served(if r.entry.version <= MaxVersion then Extended(h, r) else h - {r.entry.id})
  {
    if r.entry.version <= MaxVersion {
      PublishRecovers(d, h, r, cut, max);
    } else {
      var d' := Commit(d, h, r, cut);
      RoomForOneMore(d, h, r, max);
      forall id ensures id in HistoryOf(d') <==> id in h && id != r.entry.id
        ensures !Unexplained(d', id)
      {
        LongVersionAt(d, h, r, cut, id);
      }
      forall id | id in h && id != r.entry.id ensures HistoryOf(d')[id] == h[id] {
        LongVersionAt(d, h, r, cut, id);
      }
      SameHistory(HistoryOf(d'), h - {r.entry.id});
      NothingOversized(d, h, r, cut);
      Subset((set p | p in d'.files && Counted(p)), d'.files.Keys);
    }
  }

  lemma NothingOversized(d: Disk, h: History, r: Record, cut: Cut)
    requires Holds(d, h) && r.entry.version >= 0
    ensures forall p :: p in Commit(d, h, r, cut).files ==> !Commit(d, h, r, cut).files[p].Oversized?
  {
    forall p | p in d.files ensures !d.files[p].Oversized? {
      assert Good(d, p);
    }
  }

  lemma LongVersionAt(d: Disk, h: History, r: Record, cut: Cut, id: string)
    requires Holds(d, h) && Continues(h, r) && r.entry.version > MaxVersion && !cut.BeforePublish?
    ensures var d' := Commit(d, h, r, cut);
      && (id in HistoryOf(d') <==> id in h && id != r.entry.id) && !Unexplained(d', id)
      && (id in h && id != r.entry.id ==> HistoryOf(d')[id] == h[id])
  {
    var d' := Commit(d, h, r, cut);
    NextPlaceIsFree(d, h, r);
    forall p ensures Lookup(d', p) == Lookup(d, p) {
      PublishedFile(d, r, p);
    }
    if id == r.entry.id {
      var p := PathOf(r.entry);
      assert p in d'.files && !Good(d', p) && Taints(p) == Some(Of(id));
      assert Tainted(d', id);
    } else if id in h {
      LongVersionKeeps(d, h, r, cut, id);
    } else {
      forall p ensures !GoodFor(d', id, p) {
        assert Lookup(d', p) == Lookup(d, p);
      }
      LongVersionUnlisted(d, h, r, cut, id);
    }
  }

  lemma LongVersionKeeps(d: Disk, h: History, r: Record, cut: Cut, id: string)
    requires Holds(d, h) && id in h && id != r.entry.id && r.entry.version >= 0
    requires forall p {:trigger Lookup(d, p)} :: Lookup(Commit(d, h, r, cut), p) == Lookup(d, p)
    ensures id in HistoryOf(Commit(d, h, r, cut)) && HistoryOf(Commit(d, h, r, cut))[id] == h[id]
    ensures !Unexplained(Commit(d, h, r, cut), id)
  {
    var d' := Commit(d, h, r, cut);
    assert Chain(d, id, h[id]);
    forall p | GoodFor(d, id, p) || GoodFor(d', id, p) ensures Lookup(d, p) == Lookup(d', p) {}
    OtherChainStays(d, d', id, h[id]);
    assert !Tainted(d', id) by {
      forall p | p in d'.files && !Good(d', p) ensures Taints(p) != Some(Of(id)) {
        assert Lookup(d', p) == Lookup(d, p);
      }
    }
    LongVersionListing(d, h, r, cut, id);
    assert Servable(d', id);
    ChainUnique(d', id, h[id], ChainOf(d', id));
    assert GoodFor(d', id, PathOf(h[id][0].entry));
  }

  lemma LongVersionListing(d: Disk, h: History, r: Record, cut: Cut, id: string)
    requires Holds(d, h) && id in h && id != r.entry.id && r.entry.version >= 0
    ensures !SeenAbove(Commit(d, h, r, cut), id, |h[id]|)
  {
    if cut.Whole? {
      forall e | e in EntriesOf(Extended(h, r)) && e.id == id ensures e.version <= |h[id]| {
        ExtendedEntry(d, h, r, e);
      }
    }
  }

  lemma LongVersionUnlisted(d: Disk, h: History, r: Record, cut: Cut, id: string)
    requires Holds(d, h) && id !in h && id != r.entry.id && r.entry.version >= 0
    ensures !SeenAbove(Commit(d, h, r, cut), id, 0)
  {
    if cut.Whole? {
      forall e | e in EntriesOf(Extended(h, r)) ensures e.id != id {
        if e.id == id {
          ExtendedEntry(d, h, r, e);
        }
      }
    }
  }

  lemma ExtendedEntry(d: Disk, h: History, r: Record, e: Entry)
    requires Holds(d, h) && e in EntriesOf(Extended(h, r)) && e.id != r.entry.id
    ensures e.id in h && e.version <= |h[e.id]|
  {
    var h': map<string, seq<Record>> := Extended(h, r);
    var id: string, k: int :| id in h' && 0 <= k < |h'[id]| && h'[id][k].entry == e;
    if id == r.entry.id {
      if k < |h'[id]| - 1 {
        RecordsMatch(d, h, id, k);
      }
    } else {
      RecordsMatch(d, h, id, k);
    }
  }

  // ---------------------------------------------------------------- damage

  /** Files went missing or were overwritten with something unreadable; none was forged. */
  ghost predicate OnlyDamaged(d: Disk, d': Disk) {
    forall p :: p in d'.files && d'.files[p].Sealed? ==> p in d.files && d'.files[p] == d.files[p]
  }

  lemma DamagedLookup(d: Disk, d': Disk, p: Path)
    requires OnlyDamaged(d, d') && Good(d', p)
    ensures Lookup(d, p) == Lookup(d', p)
  {
  }

  lemma HeldRecord(d: Disk, h: History, id: string, p: Path)
    requires Holds(d, h) && GoodFor(d, id, p)
    ensures id in h && 1 <= p.version <= |h[id]| && h[id][p.version - 1] == RecordAt(d, p)
  {
    assert id in h;
    assert Chain(d, id, h[id]);
  }

  lemma SurvivingRecord(d: Disk, h: History, d': Disk, id: string, records: seq<Record>, k: nat)
    requires Holds(d, h) && OnlyDamaged(d, d') && Chain(d', id, records) && k < |records|
    ensures id in h && k < |h[id]| && h[id][k] == records[k]
  {
    var p := PathOf(records[k].entry);
    assert GoodFor(d', id, p) && RecordAt(d', p) == records[k];
    DamagedLookup(d, d', p);
    HeldRecord(d, h, id, p);
  }

  /** Whatever survives of an id on a damaged disk is the beginning of its history. */
  lemma DamagedChain(d: Disk, h: History, d': Disk, id: string, records: seq<Record>)
    requires Holds(d, h) && OnlyDamaged(d, d') && Chain(d', id, records)
    ensures id in h && records <= h[id]
  {
    SurvivingRecord(d, h, d', id, records, 0);
    SurvivingRecord(d, h, d', id, records, |records| - 1);
    forall k | 0 <= k < |records| ensures h[id][k] == records[k] {
      SurvivingRecord(d, h, d', id, records, k);
    }
  }

  /** A served configuration reaches every version the manifest lists for it. */
  lemma NeverShortened(d: Disk, max: nat, e: Entry)
    requires Recover(d, max).Served? && d.manifest.Listed? && e in d.manifest.entries && e.id in HistoryOf(d)
    ensures e.version <= |HistoryOf(d)[e.id]|
  {
    assert !SeenAbove(d, e.id, |ChainOf(d, e.id)|);
  }

  /** Never shortened: with its manifest readable, a damaged disk gives every configuration back
   *  whole, or not at all. */
  lemma WholeOrAbsent(d: Disk, h: History, d': Disk, max: nat, id: string)
    requires Holds(d, h) && d.manifest == Listed(EntriesOf(h)) && OnlyDamaged(d, d') && d'.manifest == d.manifest
    requires Recover(d', max).Served? && id in HistoryOf(d')
    ensures id in h && HistoryOf(d')[id] == h[id]
    ensures forall e :: e in d'.manifest.entries && e.id == id ==> e.version <= |HistoryOf(d')[id]|
  {
    forall e | e in d'.manifest.entries && e.id == id ensures e.version <= |HistoryOf(d')[id]| {
      NeverShortened(d', max, e);
    }
    var records := ChainOf(d', id);
    DamagedChain(d, h, d', id, records);
    var last := h[id][|h[id]| - 1].entry;
    RecordsMatch(d, h, id, |h[id]| - 1);
    assert last in EntriesOf(h);
    assert !SeenAbove(d', id, |records|);
  }

  /** The manifest is what this rests on. Without it a lost last revision goes unnoticed. */
  lemma LostManifestRollsBack(d: Disk, h: History, id: string, max: nat)
    requires Holds(d, h) && id in h && |h[id]| >= 2 && |d.files| <= max
    ensures var last := h[id][|h[id]| - 1];
      && last.entry.version >= 0
      && Recover(RolledBack(d, h, id), max) == Served(h[id := h[id][..|h[id]| - 1]])
  {
    var n := |h[id]| - 1;
    LastFile(d, h, id);
    var d', h' := RolledBack(d, h, id), h[id := h[id][..n]];
    RolledBackHolds(d, h, id);
    assert d.files.Keys == d'.files.Keys + (d.files.Keys - d'.files.Keys);
    SmallEnough(d', h', max);
    HoldsRecovers(d', h', max);
  }

  function RolledBack(d: Disk, h: History, id: string): Disk
    requires id in h && h[id] != [] && h[id][|h[id]| - 1].entry.version >= 0
  {
    Disk(d.files - {PathOf(h[id][|h[id]| - 1].entry)}, Absent)
  }

  lemma RolledBackHolds(d: Disk, h: History, id: string)
    requires Holds(d, h) && id in h && |h[id]| >= 2 && h[id][|h[id]| - 1].entry.version == |h[id]|
    ensures Holds(RolledBack(d, h, id), h[id := h[id][..|h[id]| - 1]])
  {
    var d', h' := RolledBack(d, h, id), h[id := h[id][..|h[id]| - 1]];
    forall p | p in d'.files ensures Good(d', p) && RecordAt(d', p).entry.id in h' {
      RolledBackFile(d, h, id, p);
    }
    forall x | x in h' ensures Chain(d', x, h'[x]) {
      AnyRolledBack(d, h, id, x);
    }
    HoldsUnlisted(d', h');
  }

  /** Without a manifest nothing can be ahead of the files. */
  lemma HoldsUnlisted(d: Disk, h: History)
    requires !d.manifest.Listed?
    requires forall p :: p in d.files ==> Good(d, p) && RecordAt(d, p).entry.id in h
    requires forall id :: id in h ==> Chain(d, id, h[id])
    ensures Holds(d, h)
  {
  }

  lemma AnyRolledBack(d: Disk, h: History, id: string, x: string)
    requires Holds(d, h) && id in h && x in h && |h[id]| >= 2 && h[id][|h[id]| - 1].entry.version == |h[id]|
    ensures Chain(RolledBack(d, h, id), x, h[id := h[id][..|h[id]| - 1]][x])
  {
    LastFile(d, h, id);
    HeldChain(d, h, x);
    var gone := PathOf(h[id][|h[id]| - 1].entry);
    if x == id {
      ChainCut(d, id, h[id], gone);
    } else {
      OneOwner(d, id, x, gone);
      ChainBeside(d, x, h[x], gone);
    }
  }

  lemma HeldChain(d: Disk, h: History, id: string)
    requires Holds(d, h) && id in h
    ensures Chain(d, id, h[id])
  {
  }

  lemma OneOwner(d: Disk, id: string, x: string, p: Path)
    requires GoodFor(d, id, p) && x != id
    ensures !GoodFor(d, x, p)
  {
  }

  lemma RolledBackFile(d: Disk, h: History, id: string, p: Path)
    requires Holds(d, h) && id in h && h[id] != [] && h[id][|h[id]| - 1].entry.version >= 0
    requires p in RolledBack(d, h, id).files
    ensures Good(RolledBack(d, h, id), p) && RecordAt(RolledBack(d, h, id), p).entry.id in h
  {
    assert Good(d, p);
  }

  lemma LastFile(d: Disk, h: History, id: string)
    requires Holds(d, h) && id in h
    ensures h[id] != [] && h[id][|h[id]| - 1].entry.version == |h[id]|
    ensures GoodFor(d, id, PathOf(h[id][|h[id]| - 1].entry))
  {
    assert Chain(d, id, h[id]);
  }

  lemma LookupBeside(d: Disk, gone: Path, p: Path)
    ensures Lookup(Disk(d.files - {gone}, Absent), p) == if p == gone then None else Lookup(d, p)
  {
  }

  lemma ChainBeside(d: Disk, x: string, records: seq<Record>, gone: Path)
    requires Chain(d, x, records) && !GoodFor(d, x, gone)
    ensures Chain(Disk(d.files - {gone}, Absent), x, records)
  {
    var d' := Disk(d.files - {gone}, Absent);
    forall p | GoodFor(d, x, p) || GoodFor(d', x, p) ensures Lookup(d, p) == Lookup(d', p) {
      LookupBeside(d, gone, p);
    }
    OtherChainStays(d, d', x, records);
  }

  lemma ChainCut(d: Disk, id: string, records: seq<Record>, gone: Path)
    requires Chain(d, id, records) && |records| >= 2 && gone == PathOf(records[|records| - 1].entry)
    ensures Chain(Disk(d.files - {gone}, Absent), id, records[..|records| - 1])
  {
    var d', kept := Disk(d.files - {gone}, Absent), records[..|records| - 1];
    assert GoodFor(d, id, gone);
    forall k | 0 <= k < |kept| ensures GoodFor(d', id, PathOf(kept[k].entry)) && RecordAt(d', PathOf(kept[k].entry)) == kept[k] {
      assert GoodFor(d, id, PathOf(records[k].entry)) && PathOf(kept[k].entry) != gone;
      LookupBeside(d, gone, PathOf(records[k].entry));
    }
    forall p | GoodFor(d', id, p) ensures GoodFor(d, id, p) && p != gone {
      LookupBeside(d, gone, p);
    }
    forall p | GoodFor(d', id, p) ensures p.version <= |kept| {
      assert GoodFor(d, id, p) && p != gone;
    }
  }

  // ---------------------------------------------------------------- recovery cut at the wrong place

  /** A listed configuration of which no file is left stops every recovery, and none of them
   *  changes that. */
  lemma StuckForGood(d: Disk, d': Disk, id: string, max: nat)
    requires SeenAbove(d, id, 0) && forall p :: p in d.files ==> Taints(p) != Some(Of(id))
    requires PartlySwept(d, d')
    ensures !Recover(d, max).Served? && !Recover(d', max).Served?
    ensures SeenAbove(d', id, 0) && forall p :: p in d'.files ==> Taints(p) != Some(Of(id))
  {
    assert Unexplained(d, id);
    assert Unexplained(d', id);
  }

  /** A good or a bad file is left at the places of this id. */
  predicate HasFile(d: Disk, id: string) {
    exists p :: p in d.files && Taints(p) == Some(Of(id))
  }

  /** Exactly when a recovery can follow one that was cut, or gave up: every listed configuration has
   *  kept a file, good or bad. */
  lemma CutRecoveryServesIff(d: Disk, d': Disk, max: nat)
    requires PartlySwept(d, d') && !OverLimit(d', max)
    ensures Recover(d', max).Served? <==> forall id :: SeenAbove(d, id, 0) ==> HasFile(d', id)
  {
    forall id ensures SeenAbove(d', id, 0) <==> SeenAbove(d, id, 0) {}
    forall id ensures Unexplained(d', id) <==> SeenAbove(d, id, 0) && !HasFile(d', id) {
      HasFileIff(d', id);
    }
  }

  lemma HasFileIff(d: Disk, id: string)
    ensures HasFile(d, id) <==> Tainted(d, id) || exists p :: GoodFor(d, id, p)
  {
    if p :| GoodFor(d, id, p) {
      assert p in d.files && Taints(p) == Some(Of(id));
    }
    if p :| p in d.files && Taints(p) == Some(Of(id)) {
      assert Good(d, p) ==> GoodFor(d, id, p);
    }
  }

  lemma ServedKeepsFile(d: Disk, d': Disk, id: string)
    requires PartlySwept(d, d') && id in HistoryOf(d)
    ensures HasFile(d', id)
  {
    var records := ChainOf(d, id);
    var p := PathOf(records[0].entry);
    assert GoodFor(d, id, p) && Kept(d, p);
    assert p in d'.files && Taints(p) == Some(Of(id));
  }

  lemma SweptHasNoFile(d: Disk, id: string)
    requires id !in HistoryOf(d)
    ensures !HasFile(Swept(d), id)
  {
    forall p | p in Swept(d).files ensures Taints(p) != Some(Of(id)) {
      assert Good(d, p) && RecordAt(d, p).entry.id in HistoryOf(d);
    }
  }

  /** And what can be told before: a recovery that would succeed can be cut in such a way that none
   *  ever succeeds again if and only if it has to reject a configuration that the manifest lists. */
  lemma CutCanStickIff(d: Disk, max: nat)
    requires Recover(d, max).Served?
    ensures (exists d' :: PartlySwept(d, d') && !Recover(d', max).Served?)
      <==> exists id :: SeenAbove(d, id, 0) && id !in HistoryOf(d)
  {
    if id :| SeenAbove(d, id, 0) && id !in HistoryOf(d) {
      SweptHasNoFile(d, id);
      SweptWithin(d, Swept(d), max);
      CutRecoveryServesIff(d, Swept(d), max);
      assert PartlySwept(d, Swept(d)) && !Recover(Swept(d), max).Served?;
    }
    if d' :| PartlySwept(d, d') && !Recover(d', max).Served? {
      SweptWithin(d, d', max);
      CutRecoveryServesIff(d, d', max);
      var id :| SeenAbove(d, id, 0) && !HasFile(d', id);
      if id in HistoryOf(d) {
        ServedKeepsFile(d, d', id);
      }
    }
  }

  lemma SweptWithin(d: Disk, d': Disk, max: nat)
    requires PartlySwept(d, d') && !OverLimit(d, max)
    ensures !OverLimit(d', max)
  {
    Subset((set p | p in d'.files && Counted(p)), (set p | p in d.files && Counted(p)));
  }

  predicate Belongs(p: Path, id: string) {
    p.RevFile? && p.config == Of(id)
  }

  /** One revision of a configuration has become unreadable. */
  function Hurt(d: Disk, r: Record): Disk
    requires r.entry.version >= 0
  {
    d.(files := d.files[PathOf(r.entry) := Damaged])
  }

  lemma HurtChain(d: Disk, h: History, id: string, x: string)
    requires Holds(d, h) && id in h && h[id] != [] && GoodFor(d, id, PathOf(h[id][0].entry)) && x in h && x != id
    ensures Chain(Hurt(d, h[id][0]), x, h[x]) && Servable(Hurt(d, h[id][0]), x)
  {
    var hurt, p0 := Hurt(d, h[id][0]), PathOf(h[id][0].entry);
    HeldChain(d, h, x);
    OneOwner(d, id, x, p0);
    assert !GoodFor(hurt, x, p0);
    OtherChainStays(d, hurt, x, h[x]);
    forall p | p in hurt.files && !Good(hurt, p) ensures Taints(p) != Some(Of(x)) {
      assert p != p0 ==> Good(d, p);
    }
    assert !SeenAbove(hurt, x, |h[x]|);
  }

  lemma HurtServes(d: Disk, h: History, id: string, x: string)
    requires Holds(d, h) && id in h && h[id] != [] && GoodFor(d, id, PathOf(h[id][0].entry)) && x in h && x != id
    ensures x in HistoryOf(Hurt(d, h[id][0]))
  {
    HurtChain(d, h, id, x);
    assert GoodFor(Hurt(d, h[id][0]), x, PathOf(h[x][0].entry));
  }

  lemma HurtTaints(d: Disk, id: string, r: Record)
    requires r.entry.id == id && r.entry.version >= 0
    ensures Tainted(Hurt(d, r), id) && id !in HistoryOf(Hurt(d, r))
  {
    var p := PathOf(r.entry);
    assert p in Hurt(d, r).files && !Good(Hurt(d, r), p) && Taints(p) == Some(Of(id));
  }

  lemma HeldFile(d: Disk, h: History, x: string)
    requires Holds(d, h) && SeenAbove(d, x, 0)
    ensures HasFile(d, x)
  {
    HeldChain(d, h, x);
    assert GoodFor(d, x, PathOf(h[x][0].entry));
    HasFileIff(d, x);
  }

  lemma SameFilesLimit(d: Disk, d': Disk, max: nat)
    requires !OverLimit(d, max) && d'.files.Keys == d.files.Keys
    requires forall p :: p in d'.files && d'.files[p].Oversized? ==> d.files[p].Oversized?
    ensures !OverLimit(d', max)
  {
    assert (set p | p in d'.files && Counted(p)) == set p | p in d.files && Counted(p);
  }

  lemma HurtRecovers(d: Disk, h: History, r: Record, max: nat)
    requires Holds(d, h) && r.entry.version >= 0 && PathOf(r.entry) in d.files && !OverLimit(d, max)
    ensures Recover(Hurt(d, r), max).Served?
  {
    var hurt := Hurt(d, r);
    assert hurt.files.Keys == d.files.Keys;
    SameFilesLimit(d, hurt, max);
    forall x | SeenAbove(hurt, x, 0) ensures HasFile(hurt, x) {
      assert SeenAbove(d, x, 0);
      HeldFile(d, h, x);
    }
    CutRecoveryServesIff(hurt, hurt, max);
  }

  /** Damage to one revision costs its configuration, and no other. */
  lemma HurtServesTheRest(d: Disk, h: History, id: string, max: nat)
    requires Holds(d, h) && d.manifest == Listed(EntriesOf(h)) && id in h && !OverLimit(d, max)
    requires h[id] != [] && GoodFor(d, id, PathOf(h[id][0].entry)) && h[id][0].entry.id == id
    ensures Recover(Hurt(d, h[id][0]), max) == Served(h - {id})
  {
    var hurt := Hurt(d, h[id][0]);
    HurtRecovers(d, h, h[id][0], max);
    HurtTaints(d, id, h[id][0]);
    forall x ensures x in HistoryOf(hurt) <==> x in h - {id}
      ensures x in h - {id} ==> HistoryOf(hurt)[x] == h[x]
    {
      if x in HistoryOf(hurt) {
        WholeOrAbsent(d, h, hurt, max, x);
      }
      if x in h && x != id {
        HurtServes(d, h, id, x);
        WholeOrAbsent(d, h, hurt, max, x);
      }
    }
    SameHistory(HistoryOf(hurt), h - {id});
  }

  /** How a registry gets there: one revision of a configuration is damaged, and the recovery that
   *  moves its files to quarantine is cut before it can write the new manifest. Not cut, the same
   *  recovery would have succeeded, and served everything else. */
  lemma CutRecoveryCanStick(d: Disk, h: History, id: string, max: nat)
    requires Holds(d, h) && d.manifest == Listed(EntriesOf(h)) && id in h && !OverLimit(d, max)
    ensures h[id] != [] && h[id][0].entry.version == 1
    ensures var hurt := Hurt(d, h[id][0]);
      var cut := hurt.(files := map p | p in hurt.files && !Belongs(p, id) :: hurt.files[p]);
      && Recover(hurt, max) == Served(h - {id})
      && PartlySwept(hurt, cut) && !Recover(cut, max).Served?
  {
    RecordsMatchFirst(d, h, id);
    var p0 := PathOf(h[id][0].entry);
    var hurt := Hurt(d, h[id][0]);
    HurtServesTheRest(d, h, id, max);
    var cut := hurt.(files := map p | p in hurt.files && !Belongs(p, id) :: hurt.files[p]);
    assert !Good(hurt, p0) && Taints(p0) == Some(Of(id));
    assert Tainted(hurt, id);
    forall p | p in hurt.files && Kept(hurt, p) ensures p in cut.files {
      assert Good(hurt, p) && RecordAt(hurt, p).entry.id != id;
    }
    assert h[id][0].entry in EntriesOf(h);
    assert SeenAbove(cut, id, 0);
    forall p | p in cut.files ensures Taints(p) != Some(Of(id)) {
      assert Good(d, p);
    }
    assert PartlySwept(cut, cut);
    StuckForGood(cut, cut, id, max);
  }

  lemma RecordsMatchFirst(d: Disk, h: History, id: string)
    requires Holds(d, h) && id in h
    ensures h[id] != [] && h[id][0].entry.version == 1 && h[id][0].entry.id == id && GoodFor(d, id, PathOf(h[id][0].entry))
  {
    assert Chain(d, id, h[id]);
    RecordsMatch(d, h, id, 0);
  }
}
