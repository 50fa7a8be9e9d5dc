/** The chapter store: rows, leases and content files, and what each storage call does to them.
 *
 *  Every function here is one `BEGIN IMMEDIATE` block of the store. Rows live in a table keyed
 *  by row id; `RowAt` is the lookup that the unique index on (book, chapter) makes well defined.
 *  The clock is an argument of each call, so nothing below assumes that time moves forward. */
module ChapterStore {
  import opened Basics

  datatype Root = Contents | Cache | Elsewhere

  /** A path: a root directory and the components below it. */
  datatype Loc = Loc(root: Root, parts: seq<string>)

  datatype Node = File(bytes: string) | Dir | Link

  type FileSystem = map<Loc, Node>

  /** A collision-free digest. */
  datatype Digest = Sha256(preimage: string)

  datatype Status = Pending | Done | Failed

  /** The three claim columns, which every statement sets or clears together. */
  datatype Holder = Holder(owner: string, until: int, token: nat)

  datatype Row = Row(
    book: int, index: int, title: string, url: string, canonical: string, status: Status,
    path: Option<Loc>, hash: Option<Digest>, error: Option<string>, attempts: nat,
    claim: Option<Holder>, generation: nat)

  type Table = map<nat, Row>

  datatype Lease = Lease(book: int, index: int, owner: string, generation: nat, expiresAt: int, token: nat)

  datatype Book = Book(title: string, site: string)

  datatype Audit = Audit(
    book: int, kept: nat, discarded: nat, reason: string,
    path: Option<seq<string>>, hash: Option<Digest>, manual: bool)

  /** The database and the disk. `leases` records every lease ever handed out. */
  datatype Store = Store(
    table: Table, fs: FileSystem, books: map<int, Book>, audits: seq<Audit>,
    nextRow: nat, leases: set<Lease>)

  // ---------------------------------------------------------------- lookups

  predicate At(r: Row, book: int, index: int) {
    r.book == book && r.index == index
  }

  ghost function RowAt(t: Table, book: int, index: int): (found: Option<nat>)
    ensures found.Some? ==> found.value in t && At(t[found.value], book, index)
    ensures found.None? ==> forall id :: id in t ==> !At(t[id], book, index)
  {
    if exists id :: id in t && At(t[id], book, index)
    then var id :| id in t && At(t[id], book, index); Some(id)
    else None
  }

  predicate BoundTo(r: Row, book: int, canonical: string) {
    r.book == book && r.canonical == canonical
  }

  ghost function RowBoundTo(t: Table, book: int, canonical: string): (found: Option<nat>)
    ensures found.Some? ==> found.value in t && BoundTo(t[found.value], book, canonical)
    ensures found.None? ==> forall id :: id in t ==> !BoundTo(t[id], book, canonical)
  {
    if exists id :: id in t && BoundTo(t[id], book, canonical)
    then var id :| id in t && BoundTo(t[id], book, canonical); Some(id)
    else None
  }

  /** The two unique indexes of the chapters table. */
  ghost predicate Keyed(t: Table) {
    && (forall a, b :: a in t && b in t && a != b ==> !SameChapter(t[a], t[b]))
    && (forall a, b :: a in t && b in t && a != b ==> !SameAddress(t[a], t[b]))
  }

  predicate SameChapter(q: Row, r: Row) {
    q.book == r.book && q.index == r.index
  }

  predicate SameAddress(q: Row, r: Row) {
    q.book == r.book && q.canonical == r.canonical
  }

  predicate IsFile(fs: FileSystem, loc: Loc) {
    loc in fs && fs[loc].File?
  }

  // ---------------------------------------------------------------- claims

  /** The guard of the claiming UPDATE. */
  predicate Claimable(r: Row, owner: string, now: int) {
    !r.status.Done? && (r.claim.None? || r.claim.value.owner == owner || r.claim.value.until <= now)
  }

  function LeaseOf(r: Row, owner: string, until: int, token: nat): Lease {
    Lease(r.book, r.index, owner, r.generation + 1, until, token)
  }

  datatype ClaimReply = Granted(lease: Lease) | Busy | BadClaim

  ghost function ClaimChapter(
    s: Store, book: int, index: int, owner: string, now: int, seconds: int, token: nat): (Store, ClaimReply)
  {
    if owner == "" || seconds <= 0 then (s, BadClaim)
    else match RowAt(s.table, book, index)
      case None => (s, Busy)
      case Some(id) =>
        var r := s.table[id];
        if !Claimable(r, owner, now) then (s, Busy)
        else
          var lease := LeaseOf(r, owner, now + seconds, token);
          (s.(table := s.table[id := r.(claim := Some(Holder(owner, now + seconds, token)),
                                        generation := r.generation + 1,
                                        attempts := r.attempts + 1)],
              leases := s.leases + {lease}),
           Granted(lease))
  }

  predicate Active(r: Row, now: int) {
    r.claim.Some? && r.claim.value.until > now
  }

  /** Every comparison `_validate_claim` makes on a presented lease. */
  predicate LeaseValid(r: Row, lease: Lease, now: int) {
    && Active(r, now)
    && At(r, lease.book, lease.index)
    && r.claim.value.owner == lease.owner
    && r.generation == lease.generation
    && r.claim.value.token == lease.token
    && lease.expiresAt > now
  }

  predicate MayWrite(r: Row, claim: Option<Lease>, now: int) {
    match claim
    case None => !Active(r, now)
    case Some(lease) => LeaseValid(r, lease, now)
  }

  /** The WHERE fence repeated by the UPDATE statements of `mark_done` and `mark_failed`. */
  predicate Fence(r: Row, claim: Option<Lease>, now: int) {
    match claim
    case None => r.claim.None? || r.claim.value.until <= now
    case Some(lease) =>
      && r.claim.Some?
      && r.claim.value.owner == lease.owner
      && r.generation == lease.generation
      && r.claim.value.token == lease.token
      && r.claim.value.until > now
  }

  // ---------------------------------------------------------------- mark_failed, release, reset

  datatype Refusal =
    | NoChapter | ClaimConflict | ContentEmpty | ContentConflict | ContentDuplicate | NoBook | BadBook | DiskError

  ghost function MarkFailed(
    s: Store, book: int, index: int, error: string, claim: Option<Lease>, now: int): (Store, Option<Refusal>)
  {
    match RowAt(s.table, book, index)
    case None => (s, None)
    case Some(id) =>
      var r := s.table[id];
      if !MayWrite(r, claim, now) then (s, Some(ClaimConflict))
      else if r.status.Done? || !Fence(r, claim, now) then (s, None)
      else
        (s.(table := s.table[id := r.(status := Failed, error := Some(SafeError(error)),
                                      attempts := r.attempts + (if r.claim.None? then 1 else 0),
                                      claim := None)]),
         None)
  }

  function SafeError(error: string): string {
    if error in SafeErrorCodes then error else "chapter_download_failed"
  }

  const SafeErrorCodes: set<string> := {
    "chapter_download_failed", "chapter_content_duplicate", "chapter_content_empty",
    "chapter_redirect_mismatch", "chapter_title_mismatch", "chapter_processor_failed",
    "connection_timeout", "duplicate_content", "empty_content", "parse_failed", "source_fetch_failed"}

  predicate Releasable(r: Row, claim: Lease) {
    && !r.status.Done?
    && r.claim.Some?
    && r.claim.value.owner == claim.owner
    && r.generation == claim.generation
    && r.claim.value.token == claim.token
  }

  ghost function ReleaseClaim(s: Store, book: int, index: int, claim: Lease): (Store, Option<Refusal>) {
    match RowAt(s.table, book, index)
    case None => (s, Some(ClaimConflict))
    case Some(id) =>
      if Releasable(s.table[id], claim)
      then (s.(table := s.table[id := s.table[id].(claim := None)]), None)
      else (s, Some(ClaimConflict))
  }

  function ResetRow(r: Row, book: int): Row {
    if r.book == book && r.status.Failed? then r.(status := Pending, error := None) else r
  }

  function ResetFailed(s: Store, book: int): Store {
    s.(table := map id | id in s.table :: ResetRow(s.table[id], book))
  }

  // ---------------------------------------------------------------- upsert

  /** A chapter offered to the store; `canonical` is what `canonical_chapter_url` makes of its
   *  address, or None when that call raises. */
  datatype Incoming = Incoming(index: int, title: string, url: string, status: Status, canonical: Option<string>)

  function NewRow(book: int, c: Incoming): Row
    requires c.canonical.Some?
  {
    Row(book, c.index, c.title, c.url, c.canonical.value, c.status, None, None, None, 0, None, 0)
  }

  function Renamed(r: Row, c: Incoming): Row
    requires c.canonical.Some?
  {
    r.(title := c.title, url := c.url, canonical := c.canonical.value)
  }

  ghost function UpsertOne(s: Store, book: int, c: Incoming): Store
    requires c.canonical.Some?
  {
    var byIndex := RowAt(s.table, book, c.index);
    var byUrl := RowBoundTo(s.table, book, c.canonical.value);
    if byIndex.None? && byUrl.None? then
      s.(table := s.table[s.nextRow := NewRow(book, c)], nextRow := s.nextRow + 1)
    else if byIndex.Some? && (byUrl.None? || byUrl == byIndex) && !s.table[byIndex.value].status.Done? then
      s.(table := s.table[byIndex.value := Renamed(s.table[byIndex.value], c)])
    else s
  }

  ghost function UpsertAll(s: Store, book: int, chapters: seq<Incoming>): Store
    requires forall i :: 0 <= i < |chapters| ==> chapters[i].canonical.Some?
  {
    if chapters == [] then s
    else UpsertOne(UpsertAll(s, book, chapters[..|chapters| - 1]), book, chapters[|chapters| - 1])
  }

  /** One transaction: an address that cannot be normalised rolls the whole batch back. */
  ghost function UpsertChapters(s: Store, book: int, chapters: seq<Incoming>): Store {
    if forall i :: 0 <= i < |chapters| ==> chapters[i].canonical.Some?
    then UpsertAll(s, book, chapters) else s
  }

  // ---------------------------------------------------------------- mark_done

  datatype MarkRequest = MarkRequest(
    book: int, index: int, title: string, content: string, claim: Option<Lease>, now: int,
    rejectDuplicates: bool, suffix: string)

  /** Where a call can be cut after it has begun to write. */
  datatype Point = TempMade | TempWritten | Replaced | Committed

  /** `Raised` runs the exception handler; `Died` is the process disappearing, with `partial`
   *  what had reached a temporary file that was still being written. */
  datatype Fault = Clean | Raised(at: Point) | Died(at: Point, partial: string)

  datatype MarkReply =
    | Stored(path: Loc) | Kept(path: Loc) | Refused(why: Refusal) | Aborted | Dead

  function ContentDir(book: nat): Loc {
    Loc(Contents, [Decimal(book)])
  }

  function ChapterLoc(book: nat, index: int): Loc {
    Loc(Contents, [Decimal(book), FiveDigits(index) + ".txt"])
  }

  function TempLoc(book: nat, index: int, suffix: string): Loc {
    Loc(Contents, [Decimal(book), "." + FiveDigits(index) + "-" + suffix + ".tmp"])
  }

  predicate IsSpace(c: char) {
    || c in " \t\n\r" || '\U{0B}' <= c <= '\U{0C}' || '\U{1C}' <= c <= '\U{1F}'
    || c == '\U{85}' || c == '\U{A0}' || c == '\U{1680}' || '\U{2000}' <= c <= '\U{200A}'
    || '\U{2028}' <= c <= '\U{2029}' || c == '\U{202F}' || c == '\U{205F}' || c == '\U{3000}'
  }

  predicate Blank(content: string) {
    forall i :: 0 <= i < |content| ==> IsSpace(content[i])
  }

  ghost predicate HasDuplicate(t: Table, book: int, index: int, digest: Digest) {
    exists id :: id in t && t[id].book == book && t[id].index != index && t[id].status.Done? && t[id].hash == Some(digest)
  }

  /** What the checks before the first write decide, in the order they are made. A temporary name
   *  that is already taken makes `mkstemp` raise: it never overwrites. */
  datatype Decision = Refuse(why: Refusal) | Keep(at: Loc) | Write(id: nat, digest: Digest)

  ghost function Decide(s: Store, q: MarkRequest): Decision {
    match RowAt(s.table, q.book, q.index)
    case None => Refuse(NoChapter)
    case Some(id) =>
      var r := s.table[id];
      var digest := Sha256(q.content);
      if !MayWrite(r, q.claim, q.now) then Refuse(ClaimConflict)
      else if Blank(q.content) then Refuse(ContentEmpty)
      else if r.status.Done? then
        if r.hash == Some(digest) && r.path.Some? && IsFile(s.fs, r.path.value)
        then Keep(r.path.value) else Refuse(ContentConflict)
      else if q.rejectDuplicates && HasDuplicate(s.table, q.book, q.index, digest) then Refuse(ContentDuplicate)
      else if q.book !in s.books then Refuse(NoBook)
      else if q.book <= 0 then Refuse(BadBook)
      else if ContentDir(q.book) in s.fs && !s.fs[ContentDir(q.book)].Dir? then Refuse(DiskError)
      else if TempLoc(q.book, q.index, q.suffix) in s.fs then Refuse(DiskError)
      else Write(id, digest)
  }

  function Completed(r: Row, q: MarkRequest, path: Loc, digest: Digest): Row {
    r.(title := q.title, status := Done, path := Some(path), hash := Some(digest), error := None, claim := None)
  }

  /** Disk and database when a writing call is cut, or returns. A directory sitting at the
   *  destination makes the rename itself raise. */
  function WriteChapter(s: Store, q: MarkRequest, id: nat, digest: Digest, fault: Fault): (Store, MarkReply)
    requires q.book > 0 && id in s.table
  {
    var path := ChapterLoc(q.book, q.index);
    var temp := TempLoc(q.book, q.index, q.suffix);
    var ready := s.fs[ContentDir(q.book) := Dir];
    var moved := ready[path := File(q.content)] - {temp};
    var row := s.table[id := Completed(s.table[id], q, path, digest)];
    var blocked := path in s.fs && s.fs[path].Dir?;
    match fault
    case Died(TempMade, partial) => (s.(fs := ready[temp := File(partial)]), Dead)
    case Died(TempWritten, _) => (s.(fs := ready[temp := File(q.content)]), Dead)
    case Raised(TempMade) => (s.(fs := ready - {temp}), Aborted)
    case Raised(TempWritten) => (s.(fs := ready - {temp}), Aborted)
    case _ =>
      if blocked then (s.(fs := ready - {temp}), Aborted)
      else match fault
        case Died(Replaced, _) => (s.(fs := moved), Dead)
        case Died(Committed, _) => (s.(fs := moved, table := row), Dead)
        case Raised(Replaced) => (s.(fs := moved - {path}), Aborted)
        case Raised(Committed) => (s.(fs := moved - {path}, table := row), Aborted)
        case _ => (s.(fs := moved, table := row), Stored(path))
  }

  ghost function MarkDone(s: Store, q: MarkRequest, fault: Fault): (Store, MarkReply) {
    match Decide(s, q)
    case Refuse(why) => (s, Refused(why))
    case Keep(path) => (s, Kept(path))
    case Write(id, digest) => WriteChapter(s, q, id, digest, fault)
  }

  // ---------------------------------------------------------------- calls and runs

  /** Any call a client of the store can make. */
  datatype Call =
    | ClaimCall(book: int, index: int, owner: string, now: int, seconds: int, token: nat)
    | DoneCall(q: MarkRequest, fault: Fault)
    | FailedCall(book: int, index: int, error: string, lease: Option<Lease>, now: int)
    | ReleaseCall(book: int, index: int, claim: Lease)
    | ResetCall(book: int)
    | UpsertCall(book: int, chapters: seq<Incoming>)
    | BookCall(book: int, info: Book)

  ghost function Apply(s: Store, c: Call): Store {
    match c
    case ClaimCall(book, index, owner, now, seconds, token) => ClaimChapter(s, book, index, owner, now, seconds, token).0
    case DoneCall(q, fault) => MarkDone(s, q, fault).0
    case FailedCall(book, index, error, lease, now) => MarkFailed(s, book, index, error, lease, now).0
    case ReleaseCall(book, index, claim) => ReleaseClaim(s, book, index, claim).0
    case ResetCall(book) => ResetFailed(s, book)
    case UpsertCall(book, chapters) => UpsertChapters(s, book, chapters)
    case BookCall(book, info) => s.(books := s.books[book := info])
  }

  ghost function Run(s: Store, calls: seq<Call>): Store
    decreases |calls|
  {
    if calls == [] then s else Run(Apply(s, calls[0]), calls[1..])
  }

  /** What the token generator promises: a token never seen before. */
  ghost predicate Fresh(s: Store, c: Call) {
    c.ClaimCall? ==> forall l :: l in s.leases ==> l.token != c.token
  }

  ghost predicate FreshRun(s: Store, calls: seq<Call>)
    decreases |calls|
  {
    calls != [] ==> Fresh(s, calls[0]) && FreshRun(Apply(s, calls[0]), calls[1..])
  }
}
