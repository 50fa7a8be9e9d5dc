/** Crash recovery of the registry: every cut leaves the old or the new history, recovering again
 *  changes nothing, and no damage ever makes a configuration come back shortened. */
module RegistryLaws {
  import opened Basics
  import opened Registry

  // ---------------------------------------------------------------- disks that hold a history

  /** Every file is a record of `h`, every record has its file, and the manifest is not ahead. */
  ghost predicate Holds(d: Disk, h: History) {
    && (forall p :: p in d.files ==> Good(d, p) && RecordAt(d, p).entry.id in h)
    && (forall id :: id in h ==> Chain(d, id, h[id]) && !SeenAbove(d, id, |h[id]|))
    && (forall id :: SeenAbove(d, id, 0) ==> id in h)
  }

  lemma ChainUnique(d: Disk, id: string, a: seq<Record>, b: seq<Record>)
    requires Chain(d, id, a) && Chain(d, id, b)
    ensures a == b
  {
    ChainWithin(d, id, a, b);
    ChainWithin(d, id, b, a);
  }

  lemma ChainWithin(d: Disk, id: string, a: seq<Record>, b: seq<Record>)
    requires Chain(d, id, a) && Chain(d, id, b)
    ensures |a| <= |b| && forall k :: 0 <= k < |a| ==> a[k] == b[k]
  {
    forall k | 0 <= k < |a| ensures k < |b| && a[k] == b[k] {
      var p := PathOf(a[k].entry);
      assert GoodFor(d, id, p) && p.version == k + 1;
      assert GoodFor(d, id, PathOf(b[k].entry));
    }
    assert GoodFor(d, id, PathOf(a[|a| - 1].entry));
  }

  lemma HoldsServes(d: Disk, h: History, id: string)
    requires Holds(d, h) && id in h
    ensures Servable(d, id) && ChainOf(d, id) == h[id] && id in Ids(d) && !Unexplained(d, id)
  {
    assert Chain(d, id, h[id]);
    assert Servable(d, id);
    ChainUnique(d, id, h[id], ChainOf(d, id));
    var p := PathOf(h[id][0].entry);
    assert GoodFor(d, id, p);
  }

  lemma HistoryAt(d: Disk, h: History, id: string)
    requires Holds(d, h)
    ensures id in HistoryOf(d) <==> id in h
    ensures id in h ==> HistoryOf(d)[id] == h[id] && !Unexplained(d, id)
  {
    if id in h {
      HoldsServes(d, h, id);
    }
  }

  lemma SameHistory(g: History, h: History)
    requires forall id :: id in g <==> id in h
    requires forall id :: id in h ==> g[id] == h[id]
    ensures g == h
  {
  }

  lemma HoldsHistory(d: Disk, h: History)
    requires Holds(d, h)
    ensures HistoryOf(d) == h
  {
    forall id ensures id in HistoryOf(d) <==> id in h {
      HistoryAt(d, h, id);
    }
    forall id | id in h ensures HistoryOf(d)[id] == h[id] {
      HistoryAt(d, h, id);
    }
    SameHistory(HistoryOf(d), h);
  }

  lemma NoneUnexplained(d: Disk, h: History, id: string)
    requires Holds(d, h)
    ensures !Unexplained(d, id)
  {
    if id in h {
      HistoryAt(d, h, id);
    }
  }

  lemma HoldsKeeps(d: Disk, h: History, p: Path)
    requires Holds(d, h) && p in d.files
    ensures Kept(d, p)
  {
    HoldsServes(d, h, RecordAt(d, p).entry.id);
  }

  lemma HoldsExplained(d: Disk, h: History)
    requires Holds(d, h)
    ensures !AnyUnexplained(d)
  {
    forall id ensures !Unexplained(d, id) {
      NoneUnexplained(d, h, id);
    }
  }

  lemma HoldsStill(d: Disk, h: History)
    requires Holds(d, h)
    ensures Swept(d).files == d.files
  {
    forall p ensures p in KeptPaths(d) <==> p in d.files.Keys {
      if p in d.files {
        HoldsKeeps(d, h, p);
      }
    }
    SameSet(KeptPaths(d), d.files.Keys);
  }

  /** A disk that holds a history gives it back, and nothing is moved. */
  lemma HoldsRecovers(d: Disk, h: History, max: nat)
    requires Holds(d, h) && !OverLimit(d, max)
    ensures Recover(d, max) == Served(h) && Swept(d).files == d.files
  {
    HoldsHistory(d, h);
    HoldsExplained(d, h);
    HoldsStill(d, h);
  }

  lemma SettledFile(d: Disk, p: Path)
    requires p in Settled(d).files
    ensures Good(d, p) && Good(Settled(d), p) && RecordAt(Settled(d), p) == RecordAt(d, p)
    ensures RecordAt(d, p).entry.id in HistoryOf(d)
  {
    assert RecordAt(d, p).entry.id in Ids(d);
  }

  lemma SettledNotAbove(d: Disk, id: string)
    requires id in HistoryOf(d)
    ensures !SeenAbove(Settled(d), id, |HistoryOf(d)[id]|)
  {
    forall e | e in EntriesOf(HistoryOf(d)) && e.id == id ensures e.version <= |HistoryOf(d)[id]| {
      EntryWithin(d, e);
    }
  }

  lemma SettledListed(d: Disk, id: string)
    requires SeenAbove(Settled(d), id, 0)
    ensures id in HistoryOf(d)
  {
    var e :| e in EntriesOf(HistoryOf(d)) && e.id == id && e.version > 0;
    EntryWithin(d, e);
  }

  lemma SettledSmaller(d: Disk, max: nat)
    requires !OverLimit(d, max)
    ensures !OverLimit(Settled(d), max)
  {
    var all, left := set p | p in d.files && Counted(p), set p | p in Settled(d).files && Counted(p);
    Subset(left, all);
  }

  /** What a recovery leaves behind holds the history it served. */
  lemma SettledHolds(d: Disk)
    ensures Holds(Settled(d), HistoryOf(d))
  {
    var d', h: map<string, seq<Record>> := Settled(d), HistoryOf(d);
    forall p | p in d'.files ensures Good(d', p) && RecordAt(d', p).entry.id in h {
      SettledFile(d, p);
    }
    forall id | id in h ensures Chain(d', id, h[id]) && !SeenAbove(d', id, |h[id]|) {
      SweptChain(d, id);
      SettledNotAbove(d, id);
    }
    forall id | SeenAbove(d', id, 0) ensures id in h {
      SettledListed(d, id);
    }
  }

  lemma EntryWithin(d: Disk, e: Entry)
    requires e in EntriesOf(HistoryOf(d))
    ensures e.id in HistoryOf(d) && 1 <= e.version <= |HistoryOf(d)[e.id]|
  {
    var h: map<string, seq<Record>> := HistoryOf(d);
    var id: string, k: int :| id in h && 0 <= k < |h[id]| && h[id][k].entry == e;
    assert Chain(d, id, h[id]);
    assert GoodFor(d, id, PathOf(h[id][k].entry)) && RecordAt(d, PathOf(h[id][k].entry)) == h[id][k];
  }

  lemma SettledLookup(d: Disk, id: string, p: Path)
    requires Servable(d, id) && (GoodFor(d, id, p) || GoodFor(Settled(d), id, p))
    ensures Lookup(d, p) == Lookup(Settled(d), p)
  {
    if GoodFor(d, id, p) {
      assert Kept(d, p) && p in Settled(d).files;
    }
  }

  lemma SweptChain(d: Disk, id: string)
    requires Servable(d, id)
    ensures Chain(Settled(d), id, ChainOf(d, id))
  {
    forall p | GoodFor(d, id, p) || GoodFor(Settled(d), id, p) ensures Lookup(d, p) == Lookup(Settled(d), p) {
      SettledLookup(d, id, p);
    }
    OtherChainStays(d, Settled(d), id, ChainOf(d, id));
  }

  /** Recovering again serves the same history and changes nothing on the disk. */
  lemma RecoveryIsIdempotent(d: Disk, max: nat)
    requires Recover(d, max).Served?
    ensures Recover(Settled(d), max) == Recover(d, max) && Settled(Settled(d)) == Settled(d)
  {
    SettledHolds(d);
    SettledSmaller(d, max);
    HoldsRecovers(Settled(d), HistoryOf(d), max);
  }

  // ---------------------------------------------------------------- publishing a revision

  /** A record that carries the chain of its id one version further. */
  ghost predicate Continues(h: History, r: Record) {
    && r.entry.version == (if r.entry.id in h then |h[r.entry.id]| else 0) + 1
    && EntryOk(r.entry) && Matches(r)
    && (r.entry.id in h && h[r.entry.id] != [] ==> Identity(r.config) == Identity(h[r.entry.id][0].config))
  }

  predicate Matches(r: Record) {
    && r.config.id == r.entry.id && r.config.domain == r.entry.domain
    && r.config.generatedAt == r.entry.created && r.config.lastValidated == r.entry.validated
  }

  lemma RecordsMatch(d: Disk, h: History, id: string, k: nat)
    requires Holds(d, h) && id in h && k < |h[id]|
    ensures Matches(h[id][k]) && EntryOk(h[id][k].entry) && h[id][k].entry.id == id && h[id][k].entry.version == k + 1
  {
    var p := PathOf(h[id][k].entry);
    assert GoodFor(d, id, p) && RecordAt(d, p) == h[id][k];
  }

  lemma DecideContinues(d: Disk, h: History, q: Request, max: nat)
    requires Holds(d, h) && NonEmptyChains(h) && Decide(h, q, max).Write?
    ensures Continues(h, Decide(h, q, max).record)
  {
    if q.Mark? {
      CurrentRecord(d, h, q.id);
      NextContinues(h, h[q.id][|h[q.id]| - 1], q.op);
    } else {
      FirstContinues(h, q.config);
    }
  }

  lemma FirstContinues(h: History, c: Config)
    requires c.id !in h
    ensures Continues(h, FirstRecord(c))
  {
  }

  lemma CurrentRecord(d: Disk, h: History, id: string)
    requires Holds(d, h) && id in h && h[id] != []
    ensures var current := h[id][|h[id]| - 1];
      Matches(current) && EntryOk(current.entry) && current.entry.id == id && current.entry.version == |h[id]|
      && Identity(current.config) == Identity(h[id][0].config)
  {
    RecordsMatch(d, h, id, |h[id]| - 1);
    assert Chain(d, id, h[id]);
  }

  lemma NextContinues(h: History, current: Record, op: Op)
    requires Matches(current) && EntryOk(current.entry) && current.entry.id in h
    requires h[current.entry.id] != [] && current.entry.version == |h[current.entry.id]|
    requires Identity(current.config) == Identity(h[current.entry.id][0].config)
    requires op.MarkInvalid? ==> op.reasons != {} && |op.reasons| <= MaxReasons
    ensures Continues(h, NextRecord(current, op))
  {
  }

  lemma HoldsNonEmpty(d: Disk, h: History)
    requires Holds(d, h)
    ensures NonEmptyChains(h)
  {
    forall id | id in h ensures h[id] != [] {
      assert Chain(d, id, h[id]);
    }
  }

  /** The place of the next revision is free: publishing never meets an existing file. */
  lemma NextPlaceIsFree(d: Disk, h: History, r: Record)
    requires Holds(d, h) && Continues(h, r)
    ensures PathOf(r.entry) !in d.files
  {
    var p := PathOf(r.entry);
    if p in d.files {
      assert Good(d, p);
      var id := RecordAt(d, p).entry.id;
      assert Chain(d, id, h[id]) && GoodFor(d, id, p);
    }
  }

  lemma OtherChainStays(d: Disk, d': Disk, id: string, records: seq<Record>)
    requires Chain(d, id, records)
    requires forall p :: GoodFor(d, id, p) || GoodFor(d', id, p) ==> Lookup(d, p) == Lookup(d', p)
    ensures Chain(d', id, records)
  {
    forall p ensures GoodFor(d, id, p) <==> GoodFor(d', id, p) {}
  }

  lemma PublishedFile(d: Disk, r: Record, p: Path)
    requires EntryOk(r.entry) && Matches(r) && PathOf(r.entry) !in d.files
    ensures Lookup(Published(d, r), p)
         == if p == PathOf(r.entry) then (if r.entry.version <= MaxVersion then Some(r) else None) else Lookup(d, p)
  {
  }

  lemma AppendedChain(d: Disk, d': Disk, id: string, before: seq<Record>, r: Record)
    requires before != [] ==> Chain(d, id, before) && Identity(r.config) == Identity(before[0].config)
    requires before == [] ==> forall p :: !GoodFor(d, id, p)
    requires r.entry.version == |before| + 1 && r.entry.id == id && PathOf(r.entry) !in d.files
    requires forall p {:trigger Lookup(d', p)} {:trigger GoodFor(d', id, p)} ::
      Lookup(d', p) == if p == PathOf(r.entry) then Some(r) else Lookup(d, p)
    ensures Chain(d', id, before + [r])
  {
    var records := before + [r];
    forall k | 0 <= k < |records|
      ensures records[k].entry.version == k + 1 && Identity(records[k].config) == Identity(records[0].config)
      ensures GoodFor(d', id, PathOf(records[k].entry)) && RecordAt(d', PathOf(records[k].entry)) == records[k]
    {
      if k < |before| {
        assert records[k] == before[k] && GoodFor(d, id, PathOf(before[k].entry));
      }
    }
    forall p | GoodFor(d', id, p) ensures p.version <= |before| || p == PathOf(r.entry) {
      if p != PathOf(r.entry) {
        assert GoodFor(d, id, p);
        assert before != [];
      }
    }
    forall p, q | GoodFor(d', id, p) && GoodFor(d', id, q) && p.version == q.version ensures p == q {
      if p != PathOf(r.entry) && q != PathOf(r.entry) {
        assert GoodFor(d, id, p) && GoodFor(d, id, q);
      }
    }
  }

  lemma PublishedChain(d: Disk, h: History, r: Record)
    requires Holds(d, h) && Continues(h, r) && r.entry.version <= MaxVersion
    ensures Chain(Published(d, r), r.entry.id, Extended(h, r)[r.entry.id])
  {
    var d', id := Published(d, r), r.entry.id;
    NextPlaceIsFree(d, h, r);
    forall p ensures Lookup(d', p) == if p == PathOf(r.entry) then Some(r) else Lookup(d, p) {
      PublishedFile(d, r, p);
    }
    if id in h {
      assert Chain(d, id, h[id]);
      AppendedChain(d, d', id, h[id], r);
    } else {
      forall p ensures !GoodFor(d, id, p) {}
      AppendedChain(d, d', id, [], r);
    }
  }

  /** A published revision turns a disk that holds `h` into one that holds the extended history,
   *  whether or not the manifest has been brought up to date. */
  lemma PublishHolds(d: Disk, h: History, r: Record)
    requires Holds(d, h) && Continues(h, r) && r.entry.version <= MaxVersion
    ensures Holds(Published(d, r), Extended(h, r))
  {
    var d', h' := Published(d, r), Extended(h, r);
    NextPlaceIsFree(d, h, r);
    forall p | p in d'.files ensures Good(d', p) && RecordAt(d', p).entry.id in h' {
      PublishedFile(d, r, p);
    }
    PublishedChain(d, h, r);
    forall id | id in h' ensures Chain(d', id, h'[id]) && !SeenAbove(d', id, |h'[id]|) {
      if id != r.entry.id {
        assert Chain(d, id, h[id]);
        forall p | GoodFor(d, id, p) || GoodFor(d', id, p) ensures Lookup(d, p) == Lookup(d', p) {
          PublishedFile(d, r, p);
        }
        OtherChainStays(d, d', id, h[id]);
        assert !SeenAbove(d, id, |h[id]|);
      } else {
        NotAheadOf(d, h, r);
      }
    }
    forall id | SeenAbove(d', id, 0) ensures id in h' {
      assert SeenAbove(d, id, 0);
    }
  }

  lemma NotAheadOf(d: Disk, h: History, r: Record)
    requires Holds(d, h)
    ensures !SeenAbove(Published(d, r), r.entry.id, |Extended(h, r)[r.entry.id]|)
    requires r.entry.version >= 0
  {
    if r.entry.id in h {
      assert !SeenAbove(d, r.entry.id, |h[r.entry.id]|);
    } else {
      assert !SeenAbove(d, r.entry.id, 0);
    }
  }
}
