/** The append-only configuration registry: what is on the disk, what recovery makes of it, and
 *  what registering and marking a configuration add to it.
 *
 *  Digests are collision free, so the digest of a configuration is the configuration itself. */
module Registry {
  import opened Basics
  import opened Tallies

  const MaxVersion := 999_999
  const MaxReasons := 64

  datatype Status = Active | Stale | Invalid | Revoked

  datatype Config = Config(id: string, domain: string, generatedAt: string, lastValidated: string, body: string)

  datatype Entry = Entry(
    id: string, domain: string, status: Status, version: int, created: string, validated: string, reasons: set<string>)

  /** A hash-named directory; `Foreign` names are the hash of nothing the registry ever stored. */
  datatype Hash = Of(text: string) | Foreign(tag: nat)

  /** A file below `configs`: at a revision's place, some other .json file (with the second of its
   *  three directories when that is hash-named), or a file of another kind. */
  datatype Path =
    | RevFile(domain: Hash, config: Hash, version: nat)
    | Stray(name: string, under: Option<Hash>)
    | Junk(name: string)

  /** `Sealed` has a matching revision digest; everything unreadable or malformed is `Damaged`. */
  datatype File = Damaged | Oversized | Sealed(entry: Entry, config: Config, digest: Config)

  datatype ManifestFile = Absent | Unreadable | Listed(entries: set<Entry>)

  datatype Disk = Disk(files: map<Path, File>, manifest: ManifestFile)

  datatype Record = Record(entry: Entry, config: Config)

  type History = map<string, seq<Record>>

  // ---------------------------------------------------------------- one file

  predicate EntryOk(e: Entry) {
    e.version >= 1 && |e.reasons| <= MaxReasons && (e.status.Invalid? <==> e.reasons != {})
  }

  /** The six digits of a revision's file name. */
  predicate Named(p: Path) {
    p.RevFile? && p.version <= MaxVersion
  }

  function Read(p: Path, f: File): Option<Record> {
    if Named(p) && f.Sealed? && EntryOk(f.entry) && f.entry.version == p.version
       && p.domain == Of(f.entry.domain) && p.config == Of(f.entry.id) && f.digest == f.config
       && f.config.id == f.entry.id && f.config.domain == f.entry.domain
       && f.config.generatedAt == f.entry.created && f.config.lastValidated == f.entry.validated
    then Some(Record(f.entry, f.config)) else None
  }

  /** The history that a bad file at this place discredits. */
  function Taints(p: Path): Option<Hash> {
    match p
    case RevFile(_, config, _) => Some(config)
    case Stray(_, under) => under
    case Junk(_) => None
  }

  function PathOf(e: Entry): Path
    requires e.version >= 0
  {
    RevFile(Of(e.domain), Of(e.id), e.version)
  }

  /** Everything in a configuration but the time of its last validation. */
  function Identity(c: Config): Config {
    c.(lastValidated := "")
  }

  // ---------------------------------------------------------------- recovery

  function Lookup(d: Disk, p: Path): Option<Record> {
    if p in d.files then Read(p, d.files[p]) else None
  }

  predicate Good(d: Disk, p: Path) {
    Lookup(d, p).Some?
  }

  function RecordAt(d: Disk, p: Path): Record
    requires Good(d, p)
  {
    Lookup(d, p).value
  }

  predicate GoodFor(d: Disk, id: string, p: Path) {
    Good(d, p) && RecordAt(d, p).entry.id == id
  }

  ghost predicate Tainted(d: Disk, id: string) {
    exists p :: p in d.files && !Good(d, p) && Taints(p) == Some(Of(id))
  }

  /** The good records of an id are exactly these, versions 1 to n of one identity. */
  ghost predicate Chain(d: Disk, id: string, records: seq<Record>) {
    && records != []
    && (forall k :: 0 <= k < |records| ==> records[k].entry.version == k + 1)
    && (forall k :: 0 <= k < |records| ==> Identity(records[k].config) == Identity(records[0].config))
    && (forall k :: 0 <= k < |records| ==> GoodFor(d, id, PathOf(records[k].entry)) && RecordAt(d, PathOf(records[k].entry)) == records[k])
    && (forall p :: GoodFor(d, id, p) ==> p.version <= |records|)
    && (forall p, q :: GoodFor(d, id, p) && GoodFor(d, id, q) && p.version == q.version ==> p == q)
  }

  /** The manifest has seen a version above `n`. */
  ghost predicate SeenAbove(d: Disk, id: string, n: nat) {
    d.manifest.Listed? && exists e :: e in d.manifest.entries && e.id == id && e.version > n
  }

  ghost predicate Servable(d: Disk, id: string) {
    !Tainted(d, id) && exists records :: Chain(d, id, records) && !SeenAbove(d, id, |records|)
  }

  ghost function ChainOf(d: Disk, id: string): (records: seq<Record>)
    requires Servable(d, id)
    ensures Chain(d, id, records) && !SeenAbove(d, id, |records|)
  {
    var records :| Chain(d, id, records) && !SeenAbove(d, id, |records|);
    records
  }

  ghost function Ids(d: Disk): set<string> {
    set p | p in d.files && Good(d, p) :: RecordAt(d, p).entry.id
  }

  ghost function HistoryOf(d: Disk): History {
    map id | id in Ids(d) && Servable(d, id) :: ChainOf(d, id)
  }

  /** Listed, yet neither a good nor a bad file of it is left. */
  ghost predicate Unexplained(d: Disk, id: string) {
    SeenAbove(d, id, 0) && !Tainted(d, id) && forall p :: !GoodFor(d, id, p)
  }

  ghost predicate AnyUnexplained(d: Disk) {
    exists id :: Unexplained(d, id)
  }

  predicate Counted(p: Path) {
    !p.Junk?
  }

  ghost predicate OverLimit(d: Disk, max: nat) {
    || |set p | p in d.files && Counted(p)| > max
    || exists p :: p in d.files && Named(p) && d.files[p].Oversized?
  }

  ghost predicate Kept(d: Disk, p: Path) {
    Good(d, p) && Servable(d, RecordAt(d, p).entry.id)
  }

  function EntriesOf(h: History): set<Entry> {
    set id, k | id in h && 0 <= k < |h[id]| :: h[id][k].entry
  }

  ghost function KeptPaths(d: Disk): set<Path> {
    set p | p in d.files && Kept(d, p)
  }

  function Only(files: map<Path, File>, paths: set<Path>): map<Path, File> {
    map p | p in files && p in paths :: files[p]
  }

  /** The disk once everything unusable has been moved to quarantine. */
  ghost function Swept(d: Disk): Disk {
    d.(files := Only(d.files, KeptPaths(d)))
  }

  datatype Recovery = Served(history: History) | Missing | TooLarge

  ghost function Recover(d: Disk, max: nat): Recovery {
    if OverLimit(d, max) then TooLarge
    else if AnyUnexplained(d) then Missing
    else Served(HistoryOf(d))
  }

  /** The disk after a recovery that succeeded. */
  ghost function Settled(d: Disk): Disk {
    Swept(d).(manifest := Listed(EntriesOf(HistoryOf(d))))
  }

  /** A recovery that was cut, or gave up: some of the unusable files are already in quarantine. */
  ghost predicate PartlySwept(d: Disk, d': Disk) {
    && (d'.manifest == d.manifest || (d.manifest.Unreadable? && d'.manifest.Absent?))
    && d'.files.Keys <= d.files.Keys
    && (forall p :: p in d'.files ==> d'.files[p] == d.files[p])
    && (forall p :: p in d.files && Kept(d, p) ==> p in d'.files)
  }

  // ---------------------------------------------------------------- registering and marking

  datatype Marking = MarkStale | MarkInvalid(reasons: set<string>) | MarkRevoked | MarkValidated(stamp: Option<string>) | Unrevoke

  /** `mark_invalid` refuses other reasons before it takes any lock. */
  predicate ReasonsOk(reasons: set<string>) {
    reasons != {} && |reasons| <= MaxReasons && forall r :: r in reasons ==> IsReason(r)
  }

  type Op = m: Marking | m.MarkInvalid? ==> ReasonsOk(m.reasons) witness MarkStale

  function AllowedFrom(op: Op): set<Status> {
    match op
    case MarkStale => {Active, Stale}
    case MarkInvalid(_) => {Active, Stale, Invalid}
    case MarkRevoked => {Active, Stale, Invalid}
    case MarkValidated(_) => {Active, Stale}
    case Unrevoke => {Revoked}
  }

  function Target(op: Op): Status {
    match op
    case MarkStale => Stale
    case MarkInvalid(_) => Invalid
    case MarkRevoked => Revoked
    case MarkValidated(_) => Active
    case Unrevoke => Stale
  }

  predicate IsReason(r: string) {
    && 1 <= |r| <= 80 && 'a' <= r[0] <= 'z'
    && forall i :: 0 <= i < |r| ==> 'a' <= r[i] <= 'z' || '0' <= r[i] <= '9' || r[i] in "_.-"
  }

  /** `stamp` is the validation time as the configuration parser normalises it, None if it refuses. */
  datatype Request =
    | Register(config: Config)
    | Mark(id: string, op: Op, version: Option<int>, status: Option<Status>)

  datatype Refusal = BadReasons | NoSuchConfig | Conflict | LimitReached | BadStamp

  datatype Verdict = Refused(why: Refusal) | Already(entry: Entry) | Write(record: Record)

  function FirstRecord(c: Config): Record {
    Record(Entry(c.id, c.domain, Active, 1, c.generatedAt, c.lastValidated, {}), c)
  }

  function NextRecord(current: Record, op: Op): Record {
    var reasons := if op.MarkInvalid? then op.reasons else {};
    var config := if op.MarkValidated? && op.stamp.Some? then current.config.(lastValidated := op.stamp.value) else current.config;
    Record(current.entry.(status := Target(op), version := current.entry.version + 1, validated := config.lastValidated,
                          reasons := reasons),
           config)
  }

  predicate NonEmptyChains(h: History) {
    forall id :: id in h ==> h[id] != []
  }

  /** What the call decides on the recovered history, check by check. */
  function Decide(h: History, q: Request, max: nat): Verdict
    requires NonEmptyChains(h)
  {
    match q
    case Register(c) =>
      if c.id in h then
        if h[c.id][0].config != c then Refused(Conflict) else Already(h[c.id][|h[c.id]| - 1].entry)
      else if Total(h) >= max then Refused(LimitReached)
      else Write(FirstRecord(c))
    case Mark(id, op, version, status) =>
      if id !in h then Refused(NoSuchConfig)
      else
        var current := h[id][|h[id]| - 1];
        if version.Some? && current.entry.version != version.value then Refused(Conflict)
        else if status.Some? && current.entry.status != status.value then Refused(Conflict)
        else if current.entry.status !in AllowedFrom(op) then Refused(Conflict)
        else if Total(h) >= max then Refused(LimitReached)
        else if op.MarkValidated? && op.stamp.None? then Refused(BadStamp)
        else Write(NextRecord(current, op))
  }

  /** Where the writing of a revision can be cut. */
  datatype Cut = Whole | BeforePublish | AfterPublish

  function Published(d: Disk, r: Record): Disk
    requires r.entry.version >= 0
  {
    d.(files := d.files[PathOf(r.entry) := Sealed(r.entry, r.config, r.config)])
  }

  function Extended(h: History, r: Record): History {
    h[r.entry.id := (if r.entry.id in h then h[r.entry.id] else []) + [r]]
  }

  function Commit(d: Disk, h: History, r: Record, cut: Cut): Disk
    requires r.entry.version >= 0
  {
    match cut
    case BeforePublish => d
    case AfterPublish => Published(d, r)
    case Whole => Published(d, r).(manifest := Listed(EntriesOf(Extended(h, r))))
  }
}
