/** The `ConfigRegistry` object: recovery as the loops that scan, sort, judge and quarantine, and
 *  the calls that publish a revision before they rewrite the manifest. */
module ConfigRegistryObject {
  import opened Basics
  import opened Tallies
  import opened RisingOrder
  import opened Registry
  import opened Laws = RegistryLaws
  import opened Runs = RegistryRuns

  // ---------------------------------------------------------------- what a scan finds

  /** The order of a directory walk: every file once. */
  ghost predicate Walks(order: seq<Path>, files: map<Path, File>) {
    && (forall p :: p in order <==> p in files)
    && (forall i, j :: 0 <= i < j < |order| ==> order[i] != order[j])
  }

  function Found(d: Disk, order: seq<Path>, id: string): seq<Record> {
    if order == [] then []
    else
      var p := order[|order| - 1];
      Found(d, order[..|order| - 1], id) + if GoodFor(d, id, p) then [RecordAt(d, p)] else []
  }

  predicate IsRecord(d: Disk, id: string, r: Record) {
    r.entry.version >= 0 && GoodFor(d, id, PathOf(r.entry)) && RecordAt(d, PathOf(r.entry)) == r
  }

  lemma GoodPathIsItsOwn(d: Disk, id: string, p: Path)
    requires GoodFor(d, id, p)
    ensures IsRecord(d, id, RecordAt(d, p)) && PathOf(RecordAt(d, p).entry) == p
  {
  }

  lemma {:induction false} FoundElements(d: Disk, order: seq<Path>, id: string, r: Record)
    ensures r in Found(d, order, id) <==> IsRecord(d, id, r) && PathOf(r.entry) in order
  {
    if order != [] {
      var p := order[|order| - 1];
      FoundElements(d, order[..|order| - 1], id, r);
      assert order == order[..|order| - 1] + [p];
      if GoodFor(d, id, p) {
        GoodPathIsItsOwn(d, id, p);
      }
    }
  }

  lemma {:induction false} FoundOnce(d: Disk, order: seq<Path>, id: string)
    requires forall i, j :: 0 <= i < j < |order| ==> order[i] != order[j]
    ensures forall i, j :: 0 <= i < j < |Found(d, order, id)| ==> Found(d, order, id)[i] != Found(d, order, id)[j]
  {
    if order != [] {
      var p := order[|order| - 1];
      var before := Found(d, order[..|order| - 1], id);
      FoundOnce(d, order[..|order| - 1], id);
      if GoodFor(d, id, p) {
        GoodPathIsItsOwn(d, id, p);
        FoundElements(d, order[..|order| - 1], id, RecordAt(d, p));
        assert RecordAt(d, p) !in before;
      }
    }
  }

  // ---------------------------------------------------------------- what sorting shows

  ghost predicate Ascending(s: seq<Record>) {
    forall i, j :: 0 <= i < j < |s| ==> s[i].entry.version <= s[j].entry.version
  }

  ghost predicate NoRepeats(s: seq<Record>) {
    forall i, j :: 0 <= i < j < |s| ==> s[i] != s[j]
  }

  ghost predicate Contains(d: Disk, id: string, s: seq<Record>) {
    forall r :: r in s <==> IsRecord(d, id, r)
  }

  predicate Numbered(s: seq<Record>) {
    forall k :: 0 <= k < |s| ==> s[k].entry.version == k + 1
  }

  predicate OneIdentity(s: seq<Record>) {
    forall k :: 0 <= k < |s| ==> Identity(s[k].config) == Identity(s[0].config)
  }

  lemma NumberedIsChain(d: Disk, id: string, s: seq<Record>)
    requires Contains(d, id, s) && s != [] && Numbered(s) && OneIdentity(s)
    ensures Chain(d, id, s)
  {
    forall k | 0 <= k < |s| ensures GoodFor(d, id, PathOf(s[k].entry)) && RecordAt(d, PathOf(s[k].entry)) == s[k] {
      assert s[k] in s;
    }
    forall p | GoodFor(d, id, p) ensures p.version <= |s| {
      GoodPathIsItsOwn(d, id, p);
      assert RecordAt(d, p) in s;
    }
    forall p, q | GoodFor(d, id, p) && GoodFor(d, id, q) && p.version == q.version ensures p == q {
      GoodPathIsItsOwn(d, id, p);
      GoodPathIsItsOwn(d, id, q);
      assert RecordAt(d, p) in s && RecordAt(d, q) in s;
    }
  }

  lemma ChainContains(d: Disk, id: string, c: seq<Record>, r: Record)
    requires Chain(d, id, c)
    ensures r in c <==> IsRecord(d, id, r)
  {
    if IsRecord(d, id, r) {
      var p := PathOf(r.entry);
      assert GoodFor(d, id, p) && 1 <= p.version <= |c|;
      var q := PathOf(c[p.version - 1].entry);
      assert GoodFor(d, id, q) && q.version == p.version;
      assert c[p.version - 1] == r;
    }
    if r in c {
      var k :| 0 <= k < |c| && c[k] == r;
      assert GoodFor(d, id, PathOf(c[k].entry));
    }
  }

  function Versions(s: seq<Record>): seq<int> {
    seq(|s|, k requires 0 <= k < |s| => s[k].entry.version)
  }

  /** Sorting finds the chain if there is one. */
  lemma SortedIsTheChain(d: Disk, id: string, s: seq<Record>, c: seq<Record>)
    requires Contains(d, id, s) && Ascending(s) && NoRepeats(s) && Chain(d, id, c)
    ensures s == c
  {
    forall r ensures r in s <==> r in c {
      ChainContains(d, id, c, r);
    }
    forall r | r in s ensures 1 <= r.entry.version <= |c| && c[r.entry.version - 1] == r {
      var k :| 0 <= k < |c| && c[k] == r;
    }
    var a, b := Versions(s), Versions(c);
    SameVersions(s, c);
    RisingUnique(a, b);
    forall k | 0 <= k < |s| ensures s[k] == c[k] {
      assert s[k] in s && a[k] == b[k];
    }
  }

  lemma SameVersions(s: seq<Record>, c: seq<Record>)
    requires Ascending(s) && NoRepeats(s) && Numbered(c)
    requires forall r :: r in s <==> r in c
    requires forall r :: r in s ==> 1 <= r.entry.version <= |c| && c[r.entry.version - 1] == r
    ensures forall j, k :: 0 <= j < k < |s| ==> Versions(s)[j] < Versions(s)[k]
    ensures forall j, k :: 0 <= j < k < |c| ==> Versions(c)[j] < Versions(c)[k]
    ensures forall x :: x in Versions(s) <==> x in Versions(c)
  {
    forall j, k | 0 <= j < k < |s| ensures s[j].entry.version < s[k].entry.version {
      assert s[j] in s && s[k] in s;
    }
    forall x ensures x in Versions(s) <==> x in Versions(c) {
      if x in Versions(s) {
        var k :| 0 <= k < |s| && Versions(s)[k] == x;
        assert s[k] in s;
        assert Versions(c)[x - 1] == x;
      }
      if x in Versions(c) {
        var k :| 0 <= k < |c| && Versions(c)[k] == x;
        assert c[k] in c;
        var j :| 0 <= j < |s| && s[j] == c[k];
        assert Versions(s)[j] == x;
      }
    }
  }

  /** `records.sort(key=version)`. */
  method SortByVersion(records: seq<Record>) returns (sorted: seq<Record>)
    requires NoRepeats(records)
    ensures Ascending(sorted) && NoRepeats(sorted) && |sorted| == |records|
    ensures forall r :: r in sorted <==> r in records
  {
    sorted := [];
    for n := 0 to |records|
      invariant Ascending(sorted) && NoRepeats(sorted) && |sorted| == n
      invariant forall r :: r in sorted <==> r in records[..n]
    {
      var next := records[n];
      assert next !in records[..n];
      var i := |sorted|;
      while i > 0 && sorted[i - 1].entry.version > next.entry.version
        invariant 0 <= i <= |sorted|
        invariant forall j :: i <= j < |sorted| ==> sorted[j].entry.version > next.entry.version
      {
        i := i - 1;
      }
      InsertKeeps(sorted, i, next);
      sorted := sorted[..i] + [next] + sorted[i..];
      assert records[..n + 1] == records[..n] + [next];
    }
    assert records[..|records|] == records;
  }

  lemma Inserted<T>(s: seq<T>, i: nat, r: T)
    requires i <= |s|
    ensures var t := s[..i] + [r] + s[i..];
      forall j :: 0 <= j < |t| ==> t[j] == if j < i then s[j] else if j == i then r else s[j - 1]
    ensures forall x :: x in s[..i] + [r] + s[i..] <==> x in s || x == r
  {
    assert s == s[..i] + s[i..];
  }

  lemma InsertKeeps(s: seq<Record>, i: nat, r: Record)
    requires Ascending(s) && NoRepeats(s) && i <= |s| && r !in s
    requires i > 0 ==> s[i - 1].entry.version <= r.entry.version
    requires forall j :: i <= j < |s| ==> s[j].entry.version > r.entry.version
    ensures Ascending(s[..i] + [r] + s[i..]) && NoRepeats(s[..i] + [r] + s[i..])
    ensures forall x :: x in s[..i] + [r] + s[i..] <==> x in s || x == r
  {
    Inserted(s, i, r);
    InsertAscends(s, s[..i] + [r] + s[i..], i, r);
  }

  lemma InsertAscends(s: seq<Record>, t: seq<Record>, i: nat, r: Record)
    requires Ascending(s) && NoRepeats(s) && i <= |s| && (forall j :: 0 <= j < |s| ==> s[j] != r) && |t| == |s| + 1
    requires i > 0 ==> s[i - 1].entry.version <= r.entry.version
    requires forall j :: i <= j < |s| ==> s[j].entry.version > r.entry.version
    requires forall j {:trigger t[j]} :: 0 <= j < |t| ==> t[j] == if j < i then s[j] else if j == i then r else s[j - 1]
    ensures Ascending(t) && NoRepeats(t)
  {
    forall x, y | 0 <= x < y < |t| ensures t[x].entry.version <= t[y].entry.version && t[x] != t[y] {
      if y == i {
        assert x == i - 1 || s[x].entry.version <= s[i - 1].entry.version;
      } else if x == i {
        assert t[y] == s[y - 1];
      } else {
        var a, b := if x < i then x else x - 1, if y < i then y else y - 1;
        assert t[x] == s[a] && t[y] == s[b] && a < b;
      }
    }
  }

  // ---------------------------------------------------------------- the object

  ghost predicate FilesSoFar(d: Disk, prefix: seq<Path>, files: map<Path, File>) {
    && files.Keys <= d.files.Keys && (forall p :: p in files ==> files[p] == d.files[p])
    && forall p :: p in d.files ==> (p in files <==> Good(d, p) || p !in prefix)
  }

  ghost predicate FoundSoFar(d: Disk, prefix: seq<Path>, found: map<string, seq<Record>>) {
    forall id :: (id in found <==> Found(d, prefix, id) != []) && (id in found ==> found[id] == Found(d, prefix, id))
  }

  ghost predicate TaintsSoFar(d: Disk, prefix: seq<Path>, tainted: set<Hash>) {
    forall h :: h in tainted <==> exists p :: p in prefix && !Good(d, p) && Taints(p) == Some(h)
  }

  /** Where a scan that stopped early may have got to. */
  ghost predicate FilesReached(d: Disk, order: seq<Path>, files: map<Path, File>) {
    exists n :: 0 <= n <= |order| && FilesSoFar(d, order[..n], files)
  }

  function CountedIn(prefix: seq<Path>): set<Path> {
    set p | p in prefix && Counted(p)
  }

  ghost predicate NoneOversized(d: Disk, prefix: seq<Path>) {
    forall p :: p in prefix && p in d.files ==> !(Named(p) && d.files[p].Oversized?)
  }

  lemma NextOf(order: seq<Path>, k: nat)
    requires k < |order| && forall i, j :: 0 <= i < j < |order| ==> order[i] != order[j]
    ensures order[k] in order && order[k] !in order[..k] && order[..k + 1] == order[..k] + [order[k]]
  {
  }

  lemma StillThere(d: Disk, order: seq<Path>, k: nat, files: map<Path, File>)
    requires Walks(order, d.files) && k < |order| && FilesSoFar(d, order[..k], files)
    ensures order[k] in files && files[order[k]] == d.files[order[k]]
  {
    NextOf(order, k);
  }

  lemma StepCounted(prefix: seq<Path>, p: Path)
    requires p !in prefix
    ensures CountedIn(prefix + [p]) == CountedIn(prefix) + if Counted(p) then {p} else {}
    ensures p !in CountedIn(prefix)
  {
  }

  lemma TooMany(d: Disk, order: seq<Path>, k: nat, max: nat)
    requires Walks(order, d.files) && k <= |order| && |CountedIn(order[..k])| > max
    ensures OverLimit(d, max)
  {
    Subset(CountedIn(order[..k]), (set p | p in d.files && Counted(p)));
  }

  lemma WithinLimit(d: Disk, order: seq<Path>, max: nat)
    requires Walks(order, d.files) && |CountedIn(order)| <= max && NoneOversized(d, order)
    ensures !OverLimit(d, max)
  {
    assert CountedIn(order) == set p | p in d.files && Counted(p);
  }

  lemma StepFiles(d: Disk, prefix: seq<Path>, p: Path, files: map<Path, File>)
    requires FilesSoFar(d, prefix, files) && p in d.files
    ensures FilesSoFar(d, prefix + [p], if Good(d, p) then files else files - {p})
  {
  }

  lemma StepFound(d: Disk, prefix: seq<Path>, p: Path, found: map<string, seq<Record>>)
    requires FoundSoFar(d, prefix, found)
    ensures Good(d, p) ==>
      var r := RecordAt(d, p);
      FoundSoFar(d, prefix + [p], found[r.entry.id := (if r.entry.id in found then found[r.entry.id] else []) + [r]])
    ensures !Good(d, p) ==> FoundSoFar(d, prefix + [p], found)
  {
    forall id ensures Found(d, prefix + [p], id) == Found(d, prefix, id) + if GoodFor(d, id, p) then [RecordAt(d, p)] else [] {
      assert (prefix + [p])[..|prefix|] == prefix;
    }
  }

  lemma StepTaints(d: Disk, prefix: seq<Path>, p: Path, tainted: set<Hash>)
    requires TaintsSoFar(d, prefix, tainted)
    ensures TaintsSoFar(d, prefix + [p], if Good(d, p) || Taints(p).None? then tainted else tainted + {Taints(p).value})
  {
    forall h ensures (exists q :: q in prefix + [p] && !Good(d, q) && Taints(q) == Some(h))
      <==> (exists q :: q in prefix && !Good(d, q) && Taints(q) == Some(h)) || (!Good(d, p) && Taints(p) == Some(h))
    {
      assert p in prefix + [p];
    }
  }

  function Others(d: Disk, id: string, files: map<Path, File>): map<Path, File> {
    map p | p in files && !GoodFor(d, id, p) :: files[p]
  }

  /** The ids outside `todo` have been judged. */
  ghost predicate Judged(
    d: Disk, found: map<string, seq<Record>>, todo: set<string>, kept: History, handled: set<string>, files: map<Path, File>)
  {
    && (forall id :: id in kept <==> id in found && id !in todo && Servable(d, id))
    && (forall id :: id in kept ==> Servable(d, id) && kept[id] == ChainOf(d, id))
    && (forall id :: id in handled <==> id in found && id !in todo && !Servable(d, id))
    && files.Keys <= d.files.Keys && (forall p :: p in files ==> files[p] == d.files[p])
    && (forall p :: p in d.files ==> (p in files <==> Good(d, p) && Spared(d, todo, RecordAt(d, p).entry.id)))
  }

  ghost predicate Spared(d: Disk, todo: set<string>, id: string) {
    id in todo || Servable(d, id)
  }

  ghost predicate IsHighwater(d: Disk, highest: map<string, int>) {
    forall id, n: nat :: SeenAbove(d, id, n) <==> id in highest && highest[id] > n
  }

  lemma FoundIff(d: Disk, order: seq<Path>, found: map<string, seq<Record>>, id: string)
    requires Walks(order, d.files) && FoundSoFar(d, order, found)
    ensures id in found <==> exists p :: GoodFor(d, id, p)
  {
    if p :| GoodFor(d, id, p) {
      GoodPathIsItsOwn(d, id, p);
      FoundElements(d, order, id, RecordAt(d, p));
    }
    if id in found {
      FoundElements(d, order, id, found[id][0]);
    }
  }

  lemma FoundIsAll(d: Disk, order: seq<Path>, found: map<string, seq<Record>>)
    requires Walks(order, d.files) && FoundSoFar(d, order, found)
    ensures found.Keys == Ids(d)
  {
    forall id ensures id in found.Keys <==> id in Ids(d) {
      FoundIff(d, order, found, id);
      if id in Ids(d) {
        var p :| p in d.files && Good(d, p) && RecordAt(d, p).entry.id == id;
        assert GoodFor(d, id, p);
      }
    }
  }

  lemma TaintedIff(d: Disk, order: seq<Path>, tainted: set<Hash>, id: string)
    requires Walks(order, d.files) && TaintsSoFar(d, order, tainted)
    ensures Of(id) in tainted <==> Tainted(d, id)
  {
  }

  lemma JudgedAtFirst(d: Disk, order: seq<Path>, found: map<string, seq<Record>>, files: map<Path, File>)
    requires Walks(order, d.files) && FilesSoFar(d, order, files) && FoundSoFar(d, order, found)
    ensures Judged(d, found, found.Keys, map[], {}, files)
  {
    forall p | p in d.files && Good(d, p) ensures RecordAt(d, p).entry.id in found {
      assert GoodFor(d, RecordAt(d, p).entry.id, p);
      FoundIff(d, order, found, RecordAt(d, p).entry.id);
    }
  }

  lemma JudgedKept(
    d: Disk, found: map<string, seq<Record>>, todo: set<string>, kept: History, handled: set<string>,
    files: map<Path, File>, id: string)
    requires Judged(d, found, todo, kept, handled, files) && id in todo && id in found && Servable(d, id)
    ensures Judged(d, found, todo - {id}, kept[id := ChainOf(d, id)], handled, files)
  {
    forall x ensures Spared(d, todo - {id}, x) <==> Spared(d, todo, x) {}
  }

  lemma JudgedHandled(
    d: Disk, found: map<string, seq<Record>>, todo: set<string>, kept: History, handled: set<string>,
    files: map<Path, File>, id: string)
    requires Judged(d, found, todo, kept, handled, files) && id in todo && id in found && !Servable(d, id)
    ensures Judged(d, found, todo - {id}, kept, handled + {id}, Others(d, id, files))
  {
    forall x ensures Spared(d, todo - {id}, x) <==> Spared(d, todo, x) && x != id {}
  }

  lemma JudgedIsSwept(d: Disk, found: map<string, seq<Record>>, kept: History, handled: set<string>, files: map<Path, File>)
    requires Judged(d, found, {}, kept, handled, files)
    ensures files == Swept(d).files
  {
    forall p ensures p in files <==> p in d.files && p in KeptPaths(d) {
      if p in d.files && Good(d, p) {
        assert Spared(d, {}, RecordAt(d, p).entry.id) <==> Servable(d, RecordAt(d, p).entry.id);
      }
    }
  }

  lemma JudgedIsHistory(d: Disk, found: map<string, seq<Record>>, kept: History, handled: set<string>, files: map<Path, File>)
    requires Judged(d, found, {}, kept, handled, files) && found.Keys == Ids(d)
    ensures kept == HistoryOf(d)
  {
    SameHistory(kept, HistoryOf(d));
  }

  lemma MissingIff(
    d: Disk, order: seq<Path>, found: map<string, seq<Record>>, tainted: set<Hash>, highest: map<string, int>,
    kept: History, handled: set<string>, files: map<Path, File>)
    requires Walks(order, d.files) && FoundSoFar(d, order, found) && TaintsSoFar(d, order, tainted)
    requires Judged(d, found, {}, kept, handled, files)
    requires IsHighwater(d, highest)
    requires forall id :: id in highest ==> highest[id] >= 1
    ensures (exists id :: id in highest && id !in kept && id !in handled && Of(id) !in tainted) <==> AnyUnexplained(d)
  {
    forall id ensures Unexplained(d, id) <==> id in highest && id !in kept && id !in handled && Of(id) !in tainted {
      FoundIff(d, order, found, id);
      TaintedIff(d, order, tainted, id);
      assert SeenAbove(d, id, 0) <==> id in highest;
    }
  }

  lemma ReachedIsPart(d: Disk, order: seq<Path>, d': Disk)
    requires FilesReached(d, order, d'.files) && (d'.manifest == d.manifest || (d.manifest.Unreadable? && d'.manifest.Absent?))
    ensures PartlySwept(d, d')
  {
    var n :| 0 <= n <= |order| && FilesSoFar(d, order[..n], d'.files);
  }

  lemma EntriesAreOk(d: Disk)
    ensures forall e :: e in EntriesOf(HistoryOf(d)) ==> EntryOk(e)
  {
    SettledHolds(d);
    HeldEntriesOk(Settled(d), HistoryOf(d));
  }

  lemma HeldEntriesOk(d: Disk, h: History)
    requires Holds(d, h)
    ensures forall e :: e in EntriesOf(h) ==> EntryOk(e)
  {
    forall e | e in EntriesOf(h) ensures EntryOk(e) {
      ListedEntry(d, h, e);
      RecordsMatch(d, h, e.id, e.version - 1);
    }
  }

  datatype Failure = MissingHistory | OverLimits

  datatype Reply = Done(entry: Entry) | Refusing(why: Refusal) | Failing(cause: Failure) | CutShort

  class ConfigRegistry {
    var files: map<Path, File>
    var manifest: ManifestFile
    var history: History
    const max: nat

    constructor (files: map<Path, File>, manifest: ManifestFile, max: nat)
      ensures OnDisk() == Disk(files, manifest) && history == map[] && this.max == max
    {
      this.files, this.manifest, history, this.max := files, manifest, map[], max;
    }

    ghost function OnDisk(): Disk
      reads this
    {
      Disk(files, manifest)
    }

    /** One file: a good record is collected under its id, anything else is moved away. */
    method ScanFile(ghost d: Disk, ghost prefix: seq<Path>, path: Path, found: map<string, seq<Record>>, tainted: set<Hash>)
      returns (found': map<string, seq<Record>>, tainted': set<Hash>)
      requires FilesSoFar(d, prefix, files) && FoundSoFar(d, prefix, found) && TaintsSoFar(d, prefix, tainted)
      requires path in d.files && path !in prefix
      modifies this`files
      ensures FilesSoFar(d, prefix + [path], files)
      ensures FoundSoFar(d, prefix + [path], found') && TaintsSoFar(d, prefix + [path], tainted')
    {
      StepFiles(d, prefix, path, files);
      StepFound(d, prefix, path, found);
      StepTaints(d, prefix, path, tainted);
      found', tainted' := found, tainted;
      var record := Read(path, files[path]);
      if record.Some? {
        var id := record.value.entry.id;
        found' := found[id := (if id in found then found[id] else []) + [record.value]];
      } else {
        if Taints(path).Some? {
          tainted' := tainted + {Taints(path).value};
        }
        files := files - {path};
      }
    }

    /** Counts a file and looks at its size; stops when a limit is exceeded. */
    method Admit(ghost d: Disk, ghost order: seq<Path>, ghost k: nat, path: Path, file: File, counted: nat)
      returns (stop: bool, now: nat)
      requires Walks(order, d.files) && k < |order| && path == order[k] && path in d.files && file == d.files[path]
      requires counted == |CountedIn(order[..k])| <= max && NoneOversized(d, order[..k])
      ensures stop ==> OverLimit(d, max)
      ensures !stop ==> now == |CountedIn(order[..k + 1])| <= max && NoneOversized(d, order[..k + 1])
    {
      NextOf(order, k);
      StepCounted(order[..k], path);
      now := if Counted(path) then counted + 1 else counted;
      if now > max {
        TooMany(d, order, k + 1, max);
        return true, now;
      }
      stop := Named(path) && file.Oversized?;
    }

    /** The scan of `_recover`; not ok when a limit is exceeded on the way. */
    method Scan(order: seq<Path>, ghost d: Disk) returns (ok: bool, found: map<string, seq<Record>>, tainted: set<Hash>)
      requires files == d.files && Walks(order, files)
      modifies this`files
      ensures FilesReached(d, order, files)
      ensures ok <==> !OverLimit(d, max)
      ensures ok ==> FilesSoFar(d, order, files) && FoundSoFar(d, order, found) && TaintsSoFar(d, order, tainted)
    {
      found, tainted, ok := map[], {}, false;
      var counted := 0;
      for k := 0 to |order|
        invariant FilesSoFar(d, order[..k], files) && FoundSoFar(d, order[..k], found) && TaintsSoFar(d, order[..k], tainted)
        invariant counted == |CountedIn(order[..k])| <= max && NoneOversized(d, order[..k])
      {
        NextOf(order, k);
        StillThere(d, order, k, files);
        var stop, now := Admit(d, order, k, order[k], files[order[k]], counted);
        if stop {
          return;
        }
        counted := now;
        found, tainted := ScanFile(d, order[..k], order[k], found, tainted);
      }
      assert order[..|order|] == order;
      WithinLimit(d, order, max);
      ok := true;
    }

    /** The highest version of every id that the manifest lists. */
    method Highwater(ghost d: Disk) returns (highest: map<string, int>)
      requires d.manifest == manifest
      ensures IsHighwater(d, highest)
      ensures ManifestOk() ==> forall id :: id in highest ==> highest[id] >= 1
    {
      highest := map[];
      if !manifest.Listed? {
        return;
      }
      var todo := manifest.entries;
      while todo != {}
        invariant todo <= manifest.entries
        invariant forall e :: e in manifest.entries && e !in todo ==> e.id in highest && e.version <= highest[e.id]
        invariant forall id :: id in highest ==> exists e :: e in manifest.entries && e !in todo && e.id == id && e.version == highest[id]
        decreases todo
      {
        var e :| e in todo;
        todo := todo - {e};
        if e.id !in highest || highest[e.id] < e.version {
          highest := highest[e.id := e.version];
        }
      }
    }

    /** Moves the files of a rejected history away. */
    method QuarantineAll(records: seq<Record>)
      requires forall r :: r in records ==> r.entry.version >= 0
      modifies this`files
      ensures files.Keys <= old(files).Keys && forall p :: p in files ==> files[p] == old(files)[p]
      ensures forall p :: p in old(files) ==> (p in files <==> !exists r :: r in records && PathOf(r.entry) == p)
    {
      for k := 0 to |records|
        invariant files.Keys <= old(files).Keys && forall p :: p in files ==> files[p] == old(files)[p]
        invariant forall p :: p in old(files) ==> (p in files <==> !exists i :: 0 <= i < k && PathOf(records[i].entry) == p)
      {
        assert records[k] in records;
        files := files - {PathOf(records[k].entry)};
      }
    }

    /** Whether one history is kept: contiguous, of one identity, untainted and not rolled back. */
    method Judge(ghost d: Disk, ghost order: seq<Path>, id: string, records: seq<Record>, tainted: set<Hash>, highest: map<string, int>)
      returns (keep: bool, sorted: seq<Record>)
      requires Walks(order, d.files) && records == Found(d, order, id) != []
      requires Of(id) in tainted <==> Tainted(d, id)
      requires IsHighwater(d, highest)
      ensures keep <==> Servable(d, id)
      ensures keep ==> sorted == ChainOf(d, id)
    {
      FoundOnce(d, order, id);
      sorted := SortByVersion(records);
      forall r ensures r in sorted <==> IsRecord(d, id, r) {
        FoundElements(d, order, id, r);
      }
      assert Contains(d, id, sorted);
      var rolledBack := id in highest && highest[id] > sorted[|sorted| - 1].entry.version;
      keep := Numbered(sorted) && OneIdentity(sorted) && Of(id) !in tainted && !rolledBack;
      KeptIsServable(d, id, sorted);
      if Servable(d, id) {
        SortedIsTheChain(d, id, sorted, ChainOf(d, id));
      }
    }

    lemma KeptIsServable(d: Disk, id: string, s: seq<Record>)
      requires Contains(d, id, s) && s != [] && Ascending(s) && NoRepeats(s)
      ensures Servable(d, id) <==> !Tainted(d, id) && Numbered(s) && OneIdentity(s) && !SeenAbove(d, id, |s|)
    {
      if Numbered(s) && OneIdentity(s) {
        NumberedIsChain(d, id, s);
      }
      if Servable(d, id) {
        SortedIsTheChain(d, id, s, ChainOf(d, id));
      }
    }

    /** The loop over all histories: keeps the servable ones, moves the others away. */
    method JudgeAll(ghost d: Disk, ghost order: seq<Path>, found: map<string, seq<Record>>, tainted: set<Hash>, highest: map<string, int>)
      returns (kept: History, handled: set<string>)
      requires Walks(order, d.files) && FilesSoFar(d, order, files) && FoundSoFar(d, order, found) && TaintsSoFar(d, order, tainted)
      requires IsHighwater(d, highest)
      modifies this`files
      ensures Judged(d, found, {}, kept, handled, files)
    {
      kept, handled := map[], {};
      var todo := found.Keys;
      JudgedAtFirst(d, order, found, files);
      while todo != {}
        invariant todo <= found.Keys && Judged(d, found, todo, kept, handled, files)
        decreases todo
      {
        var id :| id in todo;
        assert found[id] == Found(d, order, id) != [];
        TaintedIff(d, order, tainted, id);
        var keep, sorted := Judge(d, order, id, found[id], tainted, highest);
        if keep {
          JudgedKept(d, found, todo, kept, handled, files, id);
          kept := kept[id := sorted];
        } else {
          forall r | r in found[id] ensures r.entry.version >= 0 {
            FoundElements(d, order, id, r);
          }
          ghost var before := files;
          JudgedHandled(d, found, todo, kept, handled, files, id);
          QuarantineAll(found[id]);
          OnlyThose(d, order, id, before, files);
          handled := handled + {id};
        }
        todo := todo - {id};
      }
    }

    lemma OnlyThose(d: Disk, order: seq<Path>, id: string, before: map<Path, File>, after: map<Path, File>)
      requires Walks(order, d.files) && before.Keys <= d.files.Keys
      requires after.Keys <= before.Keys && forall p :: p in after ==> after[p] == before[p]
      requires forall r :: r in Found(d, order, id) ==> r.entry.version >= 0
      requires forall p :: p in before ==> (p in after <==> !exists r :: r in Found(d, order, id) && PathOf(r.entry) == p)
      ensures after == Others(d, id, before)
    {
      forall p | p in before ensures p in after <==> !GoodFor(d, id, p) {
        if GoodFor(d, id, p) {
          GoodPathIsItsOwn(d, id, p);
          FoundElements(d, order, id, RecordAt(d, p));
        }
        forall r | r in Found(d, order, id) && PathOf(r.entry) == p ensures GoodFor(d, id, p) {
          FoundElements(d, order, id, r);
        }
      }
    }

    /** `_recover`. */
    method Recover(order: seq<Path>) returns (failure: Option<Failure>)
      requires Walks(order, files) && ManifestOk()
      modifies this
      ensures ManifestOk()
      ensures match Registry.Recover(old(OnDisk()), max)
        case Served(h) => failure.None? && history == h && OnDisk() == Settled(old(OnDisk()))
        case Missing => failure == Some(MissingHistory) && history == old(history) && PartlySwept(old(OnDisk()), OnDisk())
        case TooLarge => failure == Some(OverLimits) && history == old(history) && PartlySwept(old(OnDisk()), OnDisk())
    {
      ghost var d := OnDisk();
      var highest := Highwater(d);
      if manifest.Unreadable? {
        manifest := Absent;
      }
      var ok, found, tainted := Scan(order, d);
      if !ok {
        ReachedIsPart(d, order, OnDisk());
        return Some(OverLimits);
      }
      var kept, handled := JudgeAll(d, order, found, tainted, highest);
      JudgedIsSwept(d, found, kept, handled, files);
      var missing := exists id :: id in highest && id !in kept && id !in handled && Of(id) !in tainted;
      MissingIff(d, order, found, tainted, highest, kept, handled, files);
      if missing {
        return Some(MissingHistory);
      }
      FoundIsAll(d, order, found);
      JudgedIsHistory(d, found, kept, handled, files);
      history := kept;
      manifest := Listed(EntriesOf(kept));
      EntriesAreOk(d);
      failure := None;
    }

    /** The parser of the manifest accepts none but valid entries. */
    ghost predicate ManifestOk()
      reads this`manifest
    {
      manifest.Listed? ==> forall e :: e in manifest.entries ==> EntryOk(e)
    }

    /** `_write_revision`, `_history` and `_write_manifest`: the revision is published without
     *  replacing anything, then the manifest is rewritten. */
    method WriteRevision(r: Record, cut: Cut) returns (written: bool)
      requires Holds(OnDisk(), history) && Continues(history, r) && ManifestOk()
      modifies this
      ensures OnDisk() == Commit(old(OnDisk()), old(history), r, cut) && ManifestOk()
      ensures written <==> cut.Whole?
      ensures history == if cut.BeforePublish? then old(history) else Extended(old(history), r)
    {
      if cut.BeforePublish? {
        return false;
      }
      NextPlaceIsFree(OnDisk(), history, r);
      ExtendedEntriesOk(OnDisk(), history, r);
      var path := PathOf(r.entry);
      assert path !in files;
      files := files[path := Sealed(r.entry, r.config, r.config)];
      history := history[r.entry.id := (if r.entry.id in history then history[r.entry.id] else []) + [r]];
      if cut.AfterPublish? {
        return false;
      }
      manifest := Listed(EntriesOf(history));
      written := true;
    }

    lemma ExtendedEntriesOk(d: Disk, h: History, r: Record)
      requires Holds(d, h) && Continues(h, r)
      ensures forall e :: e in EntriesOf(Extended(h, r)) ==> EntryOk(e)
    {
      var h': map<string, seq<Record>> := Extended(h, r);
      forall e | e in EntriesOf(h') ensures EntryOk(e) {
        var id: string, k: int :| id in h' && 0 <= k < |h'[id]| && h'[id][k].entry == e;
        if id in h && k < |h[id]| {
          assert h'[id][k] == h[id][k];
          RecordsMatch(d, h, id, k);
        } else {
          assert h'[id][k] == r;
        }
      }
    }

    /** What happened on the disk, by way of the specification: all or nothing of one call. */
    ghost predicate Performed(d: Disk, q: Request, cut: Cut, reply: Reply)
      reads this
    {
      match Registry.Recover(d, max)
      case Served(h) => SettledNonEmpty(d) && OnDisk() == After(d, q, cut, max) && reply == ReplyTo(Decide(h, q, max), cut)
      case Missing => reply == Failing(MissingHistory) && PartlySwept(d, OnDisk())
      case TooLarge => reply == Failing(OverLimits) && PartlySwept(d, OnDisk())
    }

    /** What a call does to a disk that has been recovered. */
    ghost predicate Answered(d: Disk, h: History, q: Request, cut: Cut, reply: Reply)
      requires NonEmptyChains(h)
      reads this
    {
      var verdict := Decide(h, q, max);
      && reply == ReplyTo(verdict, cut)
      && if verdict.Write? then verdict.record.entry.version >= 0 && OnDisk() == Commit(d, h, verdict.record, cut) else OnDisk() == d
    }

    method Enrol(c: Config, cut: Cut) returns (reply: Reply)
      requires Holds(OnDisk(), history) && NonEmptyChains(history) && ManifestOk()
      modifies this
      ensures ManifestOk() && Answered(old(OnDisk()), old(history), Request.Register(c), cut, reply)
    {
      if c.id in history {
        var records := history[c.id];
        if records[0].config != c {
          return Refusing(Conflict);
        }
        return Done(records[|records| - 1].entry);
      }
      var total := Count(history);
      if total >= max {
        return Refusing(LimitReached);
      }
      FirstContinues(history, c);
      reply := Append(FirstRecord(c), cut);
    }

    /** The checks of `_transition`, in their order. */
    method CheckTransition(id: string, op: Op, version: Option<int>, status: Option<Status>) returns (why: Option<Refusal>)
      requires NonEmptyChains(history)
      ensures why.Some? ==> Decide(history, Mark(id, op, version, status), max) == Refused(why.value)
      ensures why.None? ==> id in history
      ensures why.None? ==>
        Decide(history, Mark(id, op, version, status), max) == Write(NextRecord(history[id][|history[id]| - 1], op))
    {
      if id !in history {
        return Some(NoSuchConfig);
      }
      var current := history[id][|history[id]| - 1].entry;
      if version.Some? && current.version != version.value {
        return Some(Conflict);
      }
      if status.Some? && current.status != status.value {
        return Some(Conflict);
      }
      if current.status !in AllowedFrom(op) {
        return Some(Conflict);
      }
      var total := Count(history);
      if total >= max {
        return Some(LimitReached);
      }
      why := if op.MarkValidated? && op.stamp.None? then Some(BadStamp) else None;
    }

    method Advance(id: string, op: Op, version: Option<int>, status: Option<Status>, cut: Cut) returns (reply: Reply)
      requires Holds(OnDisk(), history) && NonEmptyChains(history) && ManifestOk()
      modifies this
      ensures ManifestOk() && Answered(old(OnDisk()), old(history), Mark(id, op, version, status), cut, reply)
    {
      var why := CheckTransition(id, op, version, status);
      if why.Some? {
        return Refusing(why.value);
      }
      var current := history[id][|history[id]| - 1];
      CurrentRecord(OnDisk(), history, id);
      NextContinues(history, current, op);
      reply := Append(NextRecord(current, op), cut);
    }

    method Append(r: Record, cut: Cut) returns (reply: Reply)
      requires Holds(OnDisk(), history) && Continues(history, r) && ManifestOk()
      modifies this
      ensures ManifestOk() && OnDisk() == Commit(old(OnDisk()), old(history), r, cut) && reply == ReplyTo(Write(r), cut)
    {
      var written := WriteRevision(r, cut);
      reply := if written then Done(r.entry) else CutShort;
    }

    lemma AnsweredIsPerformed(d: Disk, q: Request, cut: Cut, reply: Reply)
      requires Registry.Recover(d, max).Served? && SettledNonEmpty(d) && Answered(Settled(d), HistoryOf(d), q, cut, reply)
      ensures Performed(d, q, cut, reply)
    {
    }

    method Register(c: Config, order: seq<Path>, cut: Cut) returns (reply: Reply)
      requires Walks(order, files) && ManifestOk()
      modifies this
      ensures ManifestOk() && Performed(old(OnDisk()), Request.Register(c), cut, reply)
    {
      ghost var d := OnDisk();
      var failure := Recover(order);
      if failure.Some? {
        return Failing(failure.value);
      }
      ServedNonEmpty(d);
      SettledHolds(d);
      reply := Enrol(c, cut);
      AnsweredIsPerformed(d, Request.Register(c), cut, reply);
    }

    /** `_transition`. */
    method Transition(id: string, op: Op, version: Option<int>, status: Option<Status>, order: seq<Path>, cut: Cut)
      returns (reply: Reply)
      requires Walks(order, files) && ManifestOk()
      modifies this
      ensures ManifestOk() && Performed(old(OnDisk()), Mark(id, op, version, status), cut, reply)
    {
      ghost var d := OnDisk();
      var failure := Recover(order);
      if failure.Some? {
        return Failing(failure.value);
      }
      ServedNonEmpty(d);
      SettledHolds(d);
      reply := Advance(id, op, version, status, cut);
      AnsweredIsPerformed(d, Mark(id, op, version, status), cut, reply);
    }

    /** `mark_invalid` looks at the reasons first; the other calls go straight to the transition. */
    method MarkAsInvalid(
      id: string, reasons: set<string>, version: Option<int>, status: Option<Status>, order: seq<Path>, cut: Cut)
      returns (reply: Reply)
      requires Walks(order, files) && ManifestOk()
      modifies this
      ensures ManifestOk()
      ensures if ReasonsOk(reasons) then Performed(old(OnDisk()), Mark(id, MarkInvalid(reasons), version, status), cut, reply)
        else OnDisk() == old(OnDisk()) && reply == Refusing(BadReasons)
    {
      if !ReasonsOk(reasons) {
        return Refusing(BadReasons);
      }
      reply := Transition(id, MarkInvalid(reasons), version, status, order, cut);
    }
  }

  ghost predicate SettledNonEmpty(d: Disk) {
    NonEmptyChains(HistoryOf(d))
  }

  lemma ServedNonEmpty(d: Disk)
    ensures SettledNonEmpty(d)
  {
    SettledHolds(d);
    HoldsNonEmpty(Settled(d), HistoryOf(d));
  }

  function ReplyTo(verdict: Verdict, cut: Cut): Reply {
    match verdict
    case Refused(why) => Refusing(why)
    case Already(entry) => Done(entry)
    case Write(r) => if cut.Whole? then Done(r.entry) else CutShort
  }
}
