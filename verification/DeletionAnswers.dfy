/** What deleting a book takes off the disk and what the job table says afterwards: the safety checks
 *  component by component, the paths that go, and the state of a job after each way an attempt can end. */
module DeletionAnswers {
  import opened Basics
  import opened ChapterStore
  import opened Deletion

  // ---------------------------------------------------------------- the checks of a path

  predicate LinkOnWay(fs: FileSystem, p: Loc, n: nat)
    requires n <= |p.parts|
  {
    exists k :: 1 <= k <= n && Prefix(p, k) in fs && fs[Prefix(p, k)] == Link
  }

  predicate FileOnWay(fs: FileSystem, p: Loc, n: nat)
    requires n <= |p.parts|
  {
    exists k :: 0 <= k < n && Prefix(p, k) in fs && fs[Prefix(p, k)].File?
  }

  /** A regular file above a component stops the walk there with an error of the operating system; a link
   *  that is met before that is unsafe. */
  lemma {:induction false} WalkAnswers(fs: FileSystem, p: Loc, n: nat)
    requires n <= |p.parts|
    ensures Walk(fs, p, n) == Fine <==> !LinkOnWay(fs, p, n) && !FileOnWay(fs, p, n)
    ensures Walk(fs, p, n) == Unsafe <==>
      exists k :: 1 <= k <= n && Prefix(p, k) in fs && fs[Prefix(p, k)] == Link && !FileOnWay(fs, p, k) && !LinkOnWay(fs, p, k - 1)
  {
    if n > 0 {
      WalkAnswers(fs, p, n - 1);
      LongerWay(fs, p, n);
    }
  }

  lemma LongerWay(fs: FileSystem, p: Loc, n: nat)
    requires 0 < n <= |p.parts|
    ensures LinkOnWay(fs, p, n) <==> LinkOnWay(fs, p, n - 1) || IsLink(fs, Prefix(p, n))
    ensures FileOnWay(fs, p, n) <==> FileOnWay(fs, p, n - 1) || IsFile(fs, Prefix(p, n - 1))
  {
    if LinkOnWay(fs, p, n) {
      var k :| 1 <= k <= n && Prefix(p, k) in fs && fs[Prefix(p, k)] == Link;
    }
    if FileOnWay(fs, p, n) {
      var k :| 0 <= k < n && Prefix(p, k) in fs && fs[Prefix(p, k)].File?;
    }
  }

  /** A content path is safe when it lies below the content root, meets no link and no file on its way, and
   *  is a regular file itself or not there. */
  lemma FileIsFineIff(fs: FileSystem, p: Loc)
    ensures CheckFile(fs, p) == Fine <==>
      p.root == Contents && p.parts != [] && !LinkOnWay(fs, p, |p.parts|) && !FileOnWay(fs, p, |p.parts|)
      && (p in fs ==> fs[p].File?)
  {
    WalkAnswers(fs, p, |p.parts|);
  }

  /** A tree is safe when it lies below its root, which is no link, and there is no link on its way or
   *  anywhere in it. */
  lemma TreeIsFineIff(fs: FileSystem, root: Root, p: Loc)
    ensures CheckTree(fs, root, p) == Fine <==>
      p.root == root && p.parts != [] && !IsLink(fs, Loc(root, []))
      && !LinkOnWay(fs, p, |p.parts|) && !FileOnWay(fs, p, |p.parts|)
      && forall q :: q in fs && Under(q, p) ==> fs[q] != Link
  {
    WalkAnswers(fs, p, |p.parts|);
  }

  /** Which failures can be tried again: only those of the operating system. */
  lemma OnlyFilesAreTrouble(fs: FileSystem, root: Root, p: Loc)
    ensures CheckFile(fs, p) == Trouble ==> FileOnWay(fs, p, |p.parts|)
    ensures CheckTree(fs, root, p) == Trouble ==> FileOnWay(fs, p, |p.parts|)
    ensures CheckFile(fs, p) == Unsafe ==>
      p.root != Contents || p.parts == [] || LinkOnWay(fs, p, |p.parts|) || (p in fs && !fs[p].File?)
  {
    WalkAnswers(fs, p, |p.parts|);
    if p.parts != [] && Walk(fs, p, |p.parts|) == Trouble {
      TroubleIsAFile(fs, p, |p.parts|);
    }
  }

  lemma {:induction false} TroubleIsAFile(fs: FileSystem, p: Loc, n: nat)
    requires n <= |p.parts| && Walk(fs, p, n) == Trouble
    ensures FileOnWay(fs, p, n)
  {
    if Walk(fs, p, n - 1) == Trouble {
      TroubleIsAFile(fs, p, n - 1);
    }
  }

  // ---------------------------------------------------------------- what goes

  /** A row or an audit entry of the book names this path. */
  ghost predicate IsOwn(s: Store, book: int, p: Loc) {
    || (exists id :: id in s.table && s.table[id].book == book && s.table[id].path == Some(p))
    || (exists a :: a in s.audits && a.book == book && a.path == Some(p.parts) && p.parts != [] && p.root == Contents)
  }

  /** And of another book, below the content root. */
  ghost predicate IsOthers(s: Store, book: int, p: Loc) {
    p.root == Contents && p.parts != []
    && ((exists id :: id in s.table && s.table[id].book != book && s.table[id].path == Some(p))
        || (exists a :: a in s.audits && a.book != book && a.path == Some(p.parts)))
  }

  ghost predicate OthersIn(s: Store, book: int, dir: Loc) {
    exists q :: IsOthers(s, book, q) && Under(q, dir)
  }

  predicate OthersTitle(s: Store, book: int, name: string) {
    exists b :: b in s.books && b != book && SafeFilename(s.books[b].title) == name
  }

  predicate SameCacheElsewhere(s: Store, book: int)
    requires book in s.books
  {
    exists b :: b in s.books && b != book && s.books[b].site == s.books[book].site
      && SafeFilename(s.books[b].title) == SafeFilename(s.books[book].title)
  }

  /** The directory of one of the book's own paths, unless its name is the title of another book. */
  ghost predicate OwnTopDirectory(s: Store, book: int, name: string) {
    exists p :: IsOwn(s, book, p) && 2 <= |p.parts| && p.parts[0] == name && !OthersTitle(s, book, name)
  }

  /** What a deletion takes away: the book's own paths that no other book names; everything in its own
   *  directory, and in those of its paths, where no other book has a path in there; and its cache tree,
   *  unless another book of that site has the same name on disk. */
  ghost predicate Goes(s: Store, book: nat, q: Loc)
    requires book in s.books
  {
    || (IsOwn(s, book, q) && !IsOthers(s, book, q))
    || (Under(q, Loc(Contents, [Decimal(book)])) && !OthersIn(s, book, Loc(Contents, [Decimal(book)])))
    || (q.root == Contents && q.parts != [] && OwnTopDirectory(s, book, q.parts[0]) && !OthersIn(s, book, Loc(Contents, [q.parts[0]])))
    || (!SameCacheElsewhere(s, book) && Under(q, Loc(Cache, [s.books[book].site, SafeFilename(s.books[book].title)])))
  }

  lemma OwnIsRefers(s: Store, book: int, p: Loc)
    ensures IsOwn(s, book, p) <==> Refers(s, book, p)
    ensures IsOthers(s, book, p) <==> Shared(s, book, p)
  {
    if a :| a in s.audits && a.book == book && a.path == Some(p.parts) && p.parts != [] && p.root == Contents {
      assert OwnAudit(a, book) && AuditLoc(a) == p;
    }
    if a :| a in s.audits && a.book != book && a.path == Some(p.parts) && p.root == Contents {
      assert AuditLoc(a) == p;
    }
  }

  lemma HoldsIsOthersIn(s: Store, book: int, dir: Loc)
    ensures HoldsShared(s, book, dir) <==> OthersIn(s, book, dir)
  {
    forall q ensures Shared(s, book, q) <==> IsOthers(s, book, q) {
      OwnIsRefers(s, book, q);
    }
  }

  /** Whatever a listed step hits, goes. */
  lemma HitGoes(s: Store, book: nat, m: Manifest, i: nat, q: Loc)
    requires ManifestOf(s, book, m) && i < |Steps(m)| && Hits(m, i, q)
    ensures Goes(s, book, q)
  {
    HitStep(s, book, m, i, q);
    OwnIsRefers(s, book, q);
    if t :| DoomedTree(s, book, t) && Under(q, t) {
      HoldsIsOthersIn(s, book, t);
      if t != ContentDir(book) {
        var p :| Refers(s, book, p) && 2 <= |p.parts| && t == Loc(Contents, [p.parts[0]]) && !OtherTitle(s.books, book, p.parts[0]);
        OwnIsRefers(s, book, p);
        assert q.parts[0] == p.parts[0] && OwnTopDirectory(s, book, q.parts[0]);
      }
    }
  }

  lemma DoomedGoes(s: Store, book: nat, m: Manifest, q: Loc)
    requires ManifestOf(s, book, m) && Goes(s, book, q)
    ensures Removes(m, q)
  {
    OwnIsRefers(s, book, q);
    if IsOwn(s, book, q) && !IsOthers(s, book, q) {
      FileIsHit(s, book, m, q);
    } else if Under(q, Loc(Contents, [Decimal(book)])) && !OthersIn(s, book, Loc(Contents, [Decimal(book)])) {
      TreeIsHit(s, book, m, ContentDir(book), q);
    } else if !SameCacheElsewhere(s, book) && Under(q, Loc(Cache, [s.books[book].site, SafeFilename(s.books[book].title)])) {
      CacheIsHit(s, book, m, q);
    } else {
      var p :| IsOwn(s, book, p) && 2 <= |p.parts| && p.parts[0] == q.parts[0] && !OthersTitle(s, book, q.parts[0]);
      OwnIsRefers(s, book, p);
      assert !OtherTitle(s.books, book, p.parts[0]);
      TreeIsHit(s, book, m, Loc(Contents, [q.parts[0]]), q);
    }
  }

  lemma FileIsHit(s: Store, book: nat, m: Manifest, q: Loc)
    requires ManifestOf(s, book, m) && DoomedFile(s, book, q)
    ensures Removes(m, q)
  {
    assert q in m.files;
    var k :| 0 <= k < |m.files| && m.files[k] == q;
    assert Hits(m, k, q);
  }

  lemma TreeIsHit(s: Store, book: nat, m: Manifest, tree: Loc, q: Loc)
    requires ManifestOf(s, book, m) && Candidate(s, book, tree) && !OthersIn(s, book, tree) && Under(q, tree)
    ensures Removes(m, q)
  {
    HoldsIsOthersIn(s, book, tree);
    assert tree in m.contentTrees;
    var k :| 0 <= k < |m.contentTrees| && m.contentTrees[k] == tree;
    assert Hits(m, |m.files| + k, q);
  }

  lemma CacheIsHit(s: Store, book: nat, m: Manifest, q: Loc)
    requires ManifestOf(s, book, m) && !SameCacheElsewhere(s, book) && Under(q, CacheTree(s.books[book]))
    ensures Removes(m, q)
  {
    assert !CacheShared(s.books, book);
    var tree := CacheTree(s.books[book]);
    assert tree in m.cacheTrees;
    var k :| 0 <= k < |m.cacheTrees| && m.cacheTrees[k] == tree;
    assert Hits(m, |m.files| + |m.contentTrees| + k, q);
  }

  /** A finished deletion takes away exactly what goes: all of the book's own content that no other book
   *  names, its directories and its cache, and nothing else. What stays is as it was. */
  lemma DeletionTakesExactly(s: Store, book: nat, m: Manifest, fs: FileSystem, cut: Option<Cut>, q: Loc)
    requires ManifestOf(s, book, m) && Attempt(fs, m, cut).1 == Finished
    ensures q in Attempt(fs, m, cut).0 <==> q in fs && !Goes(s, book, q)
    ensures q in Attempt(fs, m, cut).0 ==> Attempt(fs, m, cut).0[q] == fs[q]
  {
    FinishedExactly(fs, m, cut, q);
    if Goes(s, book, q) {
      DoomedGoes(s, book, m, q);
    } else if i :| 0 <= i < |Steps(m)| && Hits(m, i, q) {
      HitGoes(s, book, m, i, q);
    }
  }

  /** A cut attempt has taken away some of it. */
  lemma CutDeletionTakesNoMore(s: Store, book: nat, m: Manifest, fs: FileSystem, cut: Option<Cut>, q: Loc)
    requires ManifestOf(s, book, m)
    ensures q in fs && !Goes(s, book, q) ==> q in Attempt(fs, m, cut).0
    ensures q in Attempt(fs, m, cut).0 ==> q in fs && Attempt(fs, m, cut).0[q] == fs[q]
  {
    AttemptOnlyRemoves(fs, m, cut, q);
    if i :| 0 <= i < |Steps(m)| && Hits(m, i, q) {
      HitGoes(s, book, m, i, q);
    }
  }

  /** So the chapters that `mark_done` has written for a book are gone with it, where no other book has a
   *  path in its directory. */
  lemma ChaptersGo(s: Store, book: nat, m: Manifest, fs: FileSystem, index: int)
    requires ManifestOf(s, book, m) && Attempt(fs, m, None).1 == Finished && !OthersIn(s, book, Loc(Contents, [Decimal(book)]))
    ensures ChapterLoc(book, index) !in Attempt(fs, m, None).0
  {
    DeletionTakesExactly(s, book, m, fs, None, ChapterLoc(book, index));
  }

  // ---------------------------------------------------------------- the limits of a manifest

  /** The characters of the parts, and the slashes between them. */
  function Written(parts: seq<string>): nat {
    if parts == [] then 0 else if |parts| == 1 then |parts[0]| else |parts[0]| + 1 + Written(parts[1..])
  }

  lemma {:induction false} WrittenMore(parts: seq<string>, last: string)
    ensures Written(parts + [last]) == Written(parts) + |last| + if parts == [] then 0 else 1
  {
    if |parts| > 1 {
      assert (parts + [last])[1..] == parts[1..] + [last];
      WrittenMore(parts[1..], last);
    } else if |parts| == 1 {
      assert (parts + [last])[1..] == [last];
    }
  }

  lemma {:induction false} LengthIsWritten(parts: seq<string>)
    ensures JoinedLength(parts) == Written(parts)
  {
    if parts != [] {
      var before := parts[..|parts| - 1];
      LengthIsWritten(before);
      WrittenMore(before, parts[|parts| - 1]);
      assert before + [parts[|parts| - 1]] == parts;
    }
  }

  predicate PlainPart(part: string) {
    && part != "" && part != "." && part != ".."
    && forall i :: 0 <= i < |part| ==> part[i] != '\0' && part[i] != '\\' && part[i] != ':' && part[i] != '/'
  }

  lemma PlainPartIff(part: string)
    ensures ValidPart(part) <==> PlainPart(part)
  {
    if ValidPart(part) {
      forall i | 0 <= i < |part| ensures part[i] != '\0' && part[i] != '\\' && part[i] != ':' && part[i] != '/' {
        assert part[i] in part;
      }
    }
  }

  /** A manifest can be written when it has at most 10000 entries, none of more than 4096 characters, and
   *  all of plain components. */
  lemma WritableIff(m: Manifest)
    ensures Encodable(m) <==>
      |m.files| + |m.contentTrees| + |m.cacheTrees| <= 10_000
      && forall p :: p in Steps(m) ==>
           p.parts != [] && Written(p.parts) <= 4096 && forall i :: 0 <= i < |p.parts| ==> PlainPart(p.parts[i])
  {
    forall p | p in Steps(m) ensures JoinedLength(p.parts) == Written(p.parts)
      ensures forall i :: 0 <= i < |p.parts| ==> (ValidPart(p.parts[i]) <==> PlainPart(p.parts[i]))
    {
      LengthIsWritten(p.parts);
      forall i | 0 <= i < |p.parts| ensures ValidPart(p.parts[i]) <==> PlainPart(p.parts[i]) {
        PlainPartIff(p.parts[i]);
      }
    }
  }

  // ---------------------------------------------------------------- the job afterwards

  /** The first step of the manifest that is not fine. */
  ghost predicate FirstTrouble(fs: FileSystem, m: Manifest, i: nat, safety: Safety) {
    i < |Steps(m)| && CheckStep(fs, m, i) == safety && safety != Fine && forall j :: 0 <= j < i ==> CheckStep(fs, m, j) == Fine
  }

  ghost predicate AllFine(fs: FileSystem, m: Manifest) {
    forall i :: 0 <= i < |Steps(m)| ==> CheckStep(fs, m, i) == Fine
  }

  lemma {:induction false} ChecksDecide(fs: FileSystem, m: Manifest, n: nat)
    requires n <= |Steps(m)|
    ensures CheckSteps(fs, m, n) == Fine <==> forall i :: 0 <= i < n ==> CheckStep(fs, m, i) == Fine
  {
    if n > 0 {
      ChecksDecide(fs, m, n - 1);
    }
  }

  lemma {:induction false} FirstDecides(fs: FileSystem, m: Manifest, n: nat, i: nat, safety: Safety)
    requires n <= |Steps(m)| && i < n && FirstTrouble(fs, m, i, safety)
    ensures CheckSteps(fs, m, n) == safety
  {
    if i < n - 1 {
      FirstDecides(fs, m, n - 1, i, safety);
    } else {
      ChecksDecide(fs, m, i);
    }
  }

  /** An attempt on a pending job whose first bad path is unsafe blocks the job, and one that is refused by
   *  the operating system leaves it to be tried again. Nothing is removed in either case. */
  lemma UnsafeBlocks(fs: FileSystem, jobs: map<nat, Job>, id: nat, cut: Option<Cut>, i: nat)
    requires id in jobs && !jobs[id].blocked
    ensures FirstTrouble(fs, jobs[id].manifest, i, Unsafe) ==>
      Process(fs, jobs, id, cut)
        == (fs, jobs[id := Job(jobs[id].manifest, true, Some("deletion_safety_blocked"), jobs[id].attempts + 1)], Blocked)
    ensures FirstTrouble(fs, jobs[id].manifest, i, Trouble) ==>
      Process(fs, jobs, id, cut)
        == (fs, jobs[id := Job(jobs[id].manifest, false, Some("deletion_cleanup_retryable"), jobs[id].attempts + 1)], Retry)
  {
    var m := jobs[id].manifest;
    if FirstTrouble(fs, m, i, Unsafe) {
      FirstDecides(fs, m, |Steps(m)|, i, Unsafe);
    }
    if FirstTrouble(fs, m, i, Trouble) {
      FirstDecides(fs, m, |Steps(m)|, i, Trouble);
    }
  }

  /** When all paths are fine: an attempt that is not cut takes the job out of the table; an error of the
   *  disk leaves it pending, any other error blocks it, and a crash leaves only the attempt counted. */
  lemma FineAttemptAnswers(fs: FileSystem, jobs: map<nat, Job>, id: nat, cut: Option<Cut>)
    requires id in jobs && !jobs[id].blocked && AllFine(fs, jobs[id].manifest)
    requires cut.Some? ==> cut.value.at <= |Steps(jobs[id].manifest)|
    ensures var (fs', jobs', outcome) := Process(fs, jobs, id, cut);
      var job := jobs[id];
      && (cut.None? ==> jobs' == jobs - {id} && outcome == Finished)
      && (cut.Some? && cut.value.how == How.DiskError ==>
            jobs' == jobs[id := Job(job.manifest, false, Some("deletion_cleanup_retryable"), job.attempts + 1)] && outcome == Retry)
      && (cut.Some? && cut.value.how == OtherError ==>
            jobs' == jobs[id := Job(job.manifest, true, Some("deletion_cleanup_failed"), job.attempts + 1)] && outcome == Broken)
      && (cut.Some? && cut.value.how == Dies ==>
            jobs' == jobs[id := Job(job.manifest, false, job.error, job.attempts + 1)] && outcome == Lost)
  {
    ChecksDecide(fs, jobs[id].manifest, |Steps(jobs[id].manifest)|);
  }

  /** An absent job and a blocked one count as completed, and nothing happens. */
  lemma NothingToProcess(fs: FileSystem, jobs: map<nat, Job>, id: nat, cut: Option<Cut>)
    requires id !in jobs || jobs[id].blocked
    ensures Process(fs, jobs, id, cut) == (fs, jobs, Finished)
  {
  }

  /** A job leaves the table exactly when an attempt on it finishes. */
  lemma JobGoneIff(fs: FileSystem, jobs: map<nat, Job>, id: nat, cut: Option<Cut>)
    requires id in jobs && !jobs[id].blocked
    ensures id !in Process(fs, jobs, id, cut).1 <==>
      AllFine(fs, jobs[id].manifest) && (cut.None? || cut.value.at > |Steps(jobs[id].manifest)|)
  {
    ChecksDecide(fs, jobs[id].manifest, |Steps(jobs[id].manifest)|);
  }

  /** A job that is taken up again is pending, without its error and with its attempts. */
  lemma ReopenedIsPending(job: Job)
    ensures Reopened(job) == if job.blocked then Job(job.manifest, false, None, job.attempts) else job
  {
  }

  // ---------------------------------------------------------------- the rows of a deleted book

  lemma {:induction false} OtherAuditsStay(audits: seq<Audit>, book: int)
    ensures forall a :: a in OthersAudits(audits, book) <==> a in audits && a.book != book
  {
    if audits != [] {
      OtherAuditsStay(audits[..|audits| - 1], book);
      assert audits == audits[..|audits| - 1] + [audits[|audits| - 1]];
    }
  }

  /** The database loses the book with its rows and its audit entries, and nothing else. */
  lemma DatabaseLosesTheBook(s: Store, book: int)
    ensures var v := Purged(s, book);
      && (forall id :: id in v.table <==> id in s.table && s.table[id].book != book)
      && (forall id :: id in v.table ==> v.table[id] == s.table[id])
      && (forall b :: b in v.books <==> b in s.books && b != book) && (forall b :: b in v.books ==> v.books[b] == s.books[b])
      && (forall a :: a in v.audits <==> a in s.audits && a.book != book)
      && v.fs == s.fs && v.nextRow == s.nextRow && v.leases == s.leases
  {
    OtherAuditsStay(s.audits, book);
  }

  // ---------------------------------------------------------------- names on disk

  predicate Forbidden(c: char) {
    || c == '\\' || c == '/' || c == ':' || c == '*' || c == '?' || c == '"' || c == '<' || c == '>' || c == '|'
    || c == '\r' || c == '\n' || c == '\t'
  }

  predicate Edge(c: char) {
    c == ' ' || c == '.' || c == '_'
  }

  lemma {:induction false} CleanedIsClean(s: string, inRun: bool)
    ensures forall i :: 0 <= i < |Cleaned(s, inRun)| ==> !Forbidden(Cleaned(s, inRun)[i])
    ensures (forall i :: 0 <= i < |s| ==> !Forbidden(s[i])) ==> Cleaned(s, inRun) == s
  {
    if s != [] {
      CleanedIsClean(s[1..], s[0] in "\\/:*?\"<>|\r\n\t");
      assert [s[0]] + s[1..] == s;
    }
  }

  /** A run of them becomes one underscore. */
  lemma {:induction false} RunBecomesOne(run: string, rest: string, inRun: bool)
    requires run != "" && forall i :: 0 <= i < |run| ==> Forbidden(run[i])
    requires rest != "" ==> !Forbidden(rest[0])
    ensures Cleaned(run + rest, inRun) == (if inRun then "" else "_") + Cleaned(rest, false)
  {
    assert (run + rest)[0] == run[0] && (run + rest)[1..] == run[1..] + rest;
    if |run| > 1 {
      RunBecomesOne(run[1..], rest, true);
    } else {
      assert run[1..] + rest == rest;
    }
  }

  lemma {:induction false} TrimmedLeft(s: string)
    ensures var t := TrimLeft(s);
      && (t != [] ==> !Edge(t[0])) && |t| <= |s| && t == s[|s| - |t|..]
      && (forall i :: 0 <= i < |s| - |t| ==> Edge(s[i]))
  {
    if s != [] && Trimmed(s[0]) {
      TrimmedLeft(s[1..]);
    }
  }

  lemma {:induction false} TrimmedRight(s: string)
    ensures var t := TrimRight(s);
      && (t != [] ==> !Edge(t[|t| - 1])) && t <= s && (forall i :: |t| <= i < |s| ==> Edge(s[i]))
  {
    if s != [] && Trimmed(s[|s| - 1]) {
      TrimmedRight(s[..|s| - 1]);
    }
  }

  /** A name on disk is never empty, has at most 120 characters, none of those that a file system may
   *  refuse, and does not begin with a space, a dot or an underscore. */
  lemma SafeNameShape(name: string)
    ensures var safe := SafeFilename(name);
      && 0 < |safe| <= 120 && (forall i :: 0 <= i < |safe| ==> !Forbidden(safe[i])) && !Edge(safe[0])
  {
    CleanedIsClean(name, false);
    TrimmedShape(Cleaned(name, false));
  }

  lemma TrimmedShape(s: string)
    requires forall i :: 0 <= i < |s| ==> !Forbidden(s[i])
    ensures var t := TrimRight(TrimLeft(s));
      (forall i :: 0 <= i < |t| ==> !Forbidden(t[i])) && (t != "" ==> !Edge(t[0]))
  {
    var left := TrimLeft(s);
    TrimmedLeft(s);
    forall i | 0 <= i < |left| ensures !Forbidden(left[i]) {
      assert left[i] == s[|s| - |left| + i];
    }
    TrimmedRight(left);
  }

  /** A name that is like that already stays as it is, cut after 120 characters. */
  lemma SafeNameStays(name: string)
    requires name != "" && (forall i :: 0 <= i < |name| ==> !Forbidden(name[i])) && !Edge(name[0]) && !Edge(name[|name| - 1])
    ensures SafeFilename(name) == if |name| <= 120 then name else name[..120]
  {
    CleanedIsClean(name, false);
    assert !Trimmed(name[0]) && !Trimmed(name[|name| - 1]);
  }

  /** And one with nothing else in it than what is trimmed has a name of its own. */
  lemma NothingIsUntitled(name: string)
    requires forall i :: 0 <= i < |name| ==> Edge(name[i])
    ensures SafeFilename(name) == "untitled"
  {
    CleanedIsClean(name, false);
    NothingLeft(name);
  }

  lemma {:induction false} NothingLeft(s: string)
    requires forall i :: 0 <= i < |s| ==> Edge(s[i])
    ensures TrimLeft(s) == ""
  {
    if s != "" {
      NothingLeft(s[1..]);
    }
  }
}
