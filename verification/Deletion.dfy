/** Deleting a book: a manifest of files and trees is written in the transaction that removes the
 *  rows, and a job then works through it, again and again until it has succeeded. */
module Deletion {
  import opened Basics
  import opened ChapterStore

  const MaxPaths := 10_000
  const MaxLength := 4096

  /** `p` is the root of the tree or lies inside it. */
  predicate Under(p: Loc, tree: Loc) {
    p.root == tree.root && tree.parts <= p.parts
  }

  // ---------------------------------------------------------------- path checks

  /** `Unsafe` is a ValueError, `Trouble` an OSError. */
  datatype Safety = Fine | Unsafe | Trouble

  predicate IsLink(fs: FileSystem, p: Loc) {
    p in fs && fs[p].Link?
  }

  function Prefix(p: Loc, n: nat): Loc
    requires n <= |p.parts|
  {
    Loc(p.root, p.parts[..n])
  }

  /** Looks for a link in the first `n` components of a path. Looking below a regular file is an
   *  operating system error, looking below nothing is not. */
  function Walk(fs: FileSystem, p: Loc, n: nat): Safety
    requires n <= |p.parts|
  {
    if n == 0 then Fine
    else
      var before := Walk(fs, p, n - 1);
      if before != Fine then before
      else if IsFile(fs, Prefix(p, n - 1)) then Trouble
      else if IsLink(fs, Prefix(p, n)) then Unsafe
      else Fine
  }

  /** `_validate_content_path`. */
  function CheckFile(fs: FileSystem, p: Loc): Safety {
    if !p.root.Contents? || p.parts == [] then Unsafe
    else
      var walk := Walk(fs, p, |p.parts|);
      if walk.Fine? && p in fs && !fs[p].File? then Unsafe else walk
  }

  predicate LinkInside(fs: FileSystem, p: Loc) {
    exists q :: q in fs && Under(q, p) && fs[q].Link?
  }

  /** `validate_tree_under`. */
  function CheckTree(fs: FileSystem, root: Root, p: Loc): Safety {
    if p.root != root || p.parts == [] || IsLink(fs, Loc(root, [])) then Unsafe
    else
      var walk := Walk(fs, p, |p.parts|);
      if walk.Fine? && LinkInside(fs, p) then Unsafe else walk
  }

  predicate ValidPart(part: string) {
    part != "" && part != "." && part != ".." && forall c :: c in part ==> c !in "\0\\:/"
  }

  /** The length of the parts joined with slashes. */
  function JoinedLength(parts: seq<string>): nat {
    if parts == [] then 0
    else JoinedLength(parts[..|parts| - 1]) + |parts[|parts| - 1]| + (if |parts| == 1 then 0 else 1)
  }

  /** `_valid_manifest_relative_path` on the joined parts. */
  predicate Listable(parts: seq<string>) {
    parts != [] && (forall i :: 0 <= i < |parts| ==> ValidPart(parts[i]))
  }

  // ---------------------------------------------------------------- file names

  predicate Trimmed(c: char) {
    c in " ._"
  }

  function TrimLeft(s: string): string {
    if s != [] && Trimmed(s[0]) then TrimLeft(s[1..]) else s
  }

  function TrimRight(s: string): string {
    if s != [] && Trimmed(s[|s| - 1]) then TrimRight(s[..|s| - 1]) else s
  }

  /** Runs of characters a file name may not hold become one underscore each. */
  function Cleaned(s: string, inRun: bool): string {
    if s == [] then []
    else if s[0] in "\\/:*?\"<>|\r\n\t" then (if inRun then [] else "_") + Cleaned(s[1..], true)
    else [s[0]] + Cleaned(s[1..], false)
  }

  function SafeFilename(name: string): string {
    var trimmed := TrimRight(TrimLeft(Cleaned(name, false)));
    var cut := if |trimmed| <= 120 then trimmed else trimmed[..120];
    if cut == [] then "untitled" else cut
  }

  // ---------------------------------------------------------------- the manifest

  datatype Manifest = Manifest(files: seq<Loc>, contentTrees: seq<Loc>, cacheTrees: seq<Loc>)

  function AuditLoc(a: Audit): Loc
    requires a.path.Some?
  {
    Loc(Contents, a.path.value)
  }

  predicate OwnAudit(a: Audit, book: int) {
    a.book == book && a.path.Some? && a.path.value != []
  }

  /** The content and audit paths that a book refers to. */
  ghost predicate Refers(s: Store, book: int, p: Loc) {
    || (exists id :: id in s.table && s.table[id].book == book && s.table[id].path == Some(p))
    || (exists a :: a in s.audits && OwnAudit(a, book) && AuditLoc(a) == p)
  }

  ghost predicate OthersRefer(s: Store, book: int, p: Loc) {
    || (exists id :: id in s.table && s.table[id].book != book && s.table[id].path == Some(p))
    || (exists a :: a in s.audits && a.book != book && a.path.Some? && AuditLoc(a) == p)
  }

  /** `_content_path_key`: only paths strictly below the content root have a key. */
  ghost predicate Shared(s: Store, book: int, p: Loc) {
    p.root.Contents? && p.parts != [] && OthersRefer(s, book, p)
  }

  predicate OtherTitle(books: map<int, Book>, book: int, name: string) {
    exists b :: b in books && b != book && SafeFilename(books[b].title) == name
  }

  ghost predicate Candidate(s: Store, book: nat, tree: Loc) {
    || tree == ContentDir(book)
    || exists p :: Refers(s, book, p) && 2 <= |p.parts| && tree == Loc(Contents, [p.parts[0]])
         && !OtherTitle(s.books, book, p.parts[0])
  }

  ghost predicate HoldsShared(s: Store, book: int, tree: Loc) {
    exists q :: Shared(s, book, q) && Under(q, tree)
  }

  function CacheTree(info: Book): Loc {
    Loc(Cache, [info.site, SafeFilename(info.title)])
  }

  predicate CacheShared(books: map<int, Book>, book: int)
    requires book in books
  {
    exists b :: b in books && b != book && books[b].site == books[book].site
      && SafeFilename(books[b].title) == SafeFilename(books[book].title)
  }

  ghost predicate DoomedFile(s: Store, book: int, p: Loc) {
    Refers(s, book, p) && !Shared(s, book, p)
  }

  ghost predicate DoomedTree(s: Store, book: nat, tree: Loc) {
    Candidate(s, book, tree) && !HoldsShared(s, book, tree)
  }

  ghost predicate DoomedCache(s: Store, book: int, tree: Loc)
    requires book in s.books
  {
    !CacheShared(s.books, book) && tree == CacheTree(s.books[book])
  }

  /** The order in which a job goes through its manifest. */
  function Steps(m: Manifest): seq<Loc> {
    m.files + m.contentTrees + m.cacheTrees
  }

  /** The manifest lists, without repetition, the doomed files and trees. */
  ghost predicate ManifestOf(s: Store, book: int, m: Manifest) {
    && book in s.books && book > 0
    && (forall p :: p in m.files <==> DoomedFile(s, book, p))
    && (forall p :: p in m.contentTrees <==> DoomedTree(s, book, p))
    && (forall p :: p in m.cacheTrees <==> DoomedCache(s, book, p))
    && Distinct(m.files) && Distinct(m.contentTrees) && Distinct(m.cacheTrees)
  }

  ghost predicate Distinct(l: seq<Loc>) {
    forall i, j :: 0 <= i < j < |l| ==> l[i] != l[j]
  }

  /** What `_decode_deletion_manifest` demands of every entry, and of their number. */
  predicate Encodable(m: Manifest) {
    && |Steps(m)| <= MaxPaths
    && forall p :: p in Steps(m) ==> Listable(p.parts) && JoinedLength(p.parts) <= MaxLength
  }

  /** The checks that precede the manifest: nothing is flagged for manual cleanup, and every path
   *  to be touched lies below its root with no link on the way. */
  ghost predicate Clear(s: Store, book: int)
    requires book in s.books
  {
    && book > 0
    && (forall a :: a in s.audits ==> !(a.book == book && a.manual))
    && (forall a :: a in s.audits && a.path.Some? && (a.path.value != [] || a.book != book) ==> Listable(a.path.value))
    && (forall p :: Refers(s, book, p) ==> CheckFile(s.fs, p).Fine?)
    && (forall t :: Candidate(s, book, t) ==> CheckTree(s.fs, Contents, t).Fine?)
    && (CacheShared(s.books, book) || CheckTree(s.fs, Cache, CacheTree(s.books[book])).Fine?)
  }

  // ---------------------------------------------------------------- working through a job

  function CheckStep(fs: FileSystem, m: Manifest, i: nat): Safety
    requires i < |Steps(m)|
  {
    if i < |m.files| then CheckFile(fs, Steps(m)[i])
    else if i < |m.files| + |m.contentTrees| then CheckTree(fs, Contents, Steps(m)[i])
    else CheckTree(fs, Cache, Steps(m)[i])
  }

  /** The first of the first `n` steps that is not fine decides. */
  function CheckSteps(fs: FileSystem, m: Manifest, n: nat): Safety
    requires n <= |Steps(m)|
  {
    if n == 0 then Fine
    else
      var before := CheckSteps(fs, m, n - 1);
      if before != Fine then before else CheckStep(fs, m, n - 1)
  }

  /** What step `i` removes when it is not cut: a file, or a tree with everything in it. */
  predicate Hits(m: Manifest, i: nat, p: Loc)
    requires i < |Steps(m)|
  {
    if i < |m.files| then p == Steps(m)[i] else Under(p, Steps(m)[i])
  }

  predicate Removes(m: Manifest, p: Loc) {
    exists i :: 0 <= i < |Steps(m)| && Hits(m, i, p)
  }

  function Without(fs: FileSystem, m: Manifest, i: nat): FileSystem
    requires i < |Steps(m)|
  {
    map p | p in fs && !Hits(m, i, p) :: fs[p]
  }

  function Sweep(fs: FileSystem, m: Manifest, n: nat): FileSystem
    requires n <= |Steps(m)|
  {
    if n == 0 then fs else Without(Sweep(fs, m, n - 1), m, n - 1)
  }

  /** How an attempt is cut: the process dies, the operating system raises, or anything else does. */
  datatype How = Dies | DiskError | OtherError

  /** An attempt that is cut in step `at`: of what that step removes, `gone` went before. The step
   *  behind the last removal is the one that takes the job out of the database. */
  datatype Cut = Cut(at: nat, gone: set<Loc>, how: How)

  function Half(fs: FileSystem, m: Manifest, i: nat, gone: set<Loc>): FileSystem
    requires i < |Steps(m)|
  {
    map p | p in fs && !(Hits(m, i, p) && p in gone) :: fs[p]
  }

  datatype Outcome = Finished | Retry | Blocked | Broken | Lost

  function Ending(how: How): Outcome {
    match how
    case Dies => Lost
    case DiskError => Retry
    case OtherError => Broken
  }

  function Attempt(fs: FileSystem, m: Manifest, cut: Option<Cut>): (FileSystem, Outcome) {
    match CheckSteps(fs, m, |Steps(m)|)
    case Unsafe => (fs, Blocked)
    case Trouble => (fs, Retry)
    case Fine =>
      if cut.None? || cut.value.at > |Steps(m)| then (Sweep(fs, m, |Steps(m)|), Finished)
      else if cut.value.at == |Steps(m)| then (Sweep(fs, m, |Steps(m)|), Ending(cut.value.how))
      else (Half(Sweep(fs, m, cut.value.at), m, cut.value.at, cut.value.gone), Ending(cut.value.how))
  }

  /** The disk after a series of attempts that were all cut. */
  function Attempts(fs: FileSystem, m: Manifest, cuts: seq<Cut>): FileSystem
    decreases |cuts|
  {
    if cuts == [] then fs else Attempts(Attempt(fs, m, Some(cuts[0])).0, m, cuts[1..])
  }

  // ---------------------------------------------------------------- what an attempt removes

  ghost predicate Shrinks(fs: FileSystem, fs': FileSystem) {
    fs'.Keys <= fs.Keys && forall p :: p in fs' ==> fs'[p] == fs[p]
  }

  lemma {:induction false} SweepExactly(fs: FileSystem, m: Manifest, n: nat)
    requires n <= |Steps(m)|
    ensures Shrinks(fs, Sweep(fs, m, n))
    ensures forall p :: p in fs ==> (p !in Sweep(fs, m, n) <==> exists i :: 0 <= i < n && Hits(m, i, p))
  {
    if n > 0 {
      SweepExactly(fs, m, n - 1);
      forall p | p in fs ensures p !in Sweep(fs, m, n) <==> exists i :: 0 <= i < n && Hits(m, i, p) {
        if i :| 0 <= i < n && Hits(m, i, p) {
          assert i == n - 1 || i < n - 1;
        }
      }
    }
  }

  /** A job that finishes has removed exactly what its manifest says: the listed files, and every
   *  listed tree with everything in it. */
  lemma FinishedExactly(fs: FileSystem, m: Manifest, cut: Option<Cut>, p: Loc)
    requires Attempt(fs, m, cut).1.Finished?
    ensures p in Attempt(fs, m, cut).0 <==> p in fs && !Removes(m, p)
    ensures p in Attempt(fs, m, cut).0 ==> Attempt(fs, m, cut).0[p] == fs[p]
  {
    SweepExactly(fs, m, |Steps(m)|);
  }

  /** However an attempt ends, it changes nothing outside what the manifest says. */
  lemma AttemptOnlyRemoves(fs: FileSystem, m: Manifest, cut: Option<Cut>, p: Loc)
    ensures p in Attempt(fs, m, cut).0 ==> p in fs && Attempt(fs, m, cut).0[p] == fs[p]
    ensures p in fs && !Removes(m, p) ==> p in Attempt(fs, m, cut).0
  {
    SweepExactly(fs, m, |Steps(m)|);
    if cut.Some? && cut.value.at < |Steps(m)| {
      SweepExactly(fs, m, cut.value.at);
    }
  }

  // ---------------------------------------------------------------- replay

  lemma {:induction false} WalkShrinks(fs: FileSystem, fs': FileSystem, p: Loc, n: nat)
    requires Shrinks(fs, fs') && n <= |p.parts| && Walk(fs, p, n).Fine?
    ensures Walk(fs', p, n).Fine?
  {
    if n > 0 {
      WalkShrinks(fs, fs', p, n - 1);
    }
  }

  lemma CheckStepShrinks(fs: FileSystem, fs': FileSystem, m: Manifest, i: nat)
    requires Shrinks(fs, fs') && i < |Steps(m)| && CheckStep(fs, m, i).Fine?
    ensures CheckStep(fs', m, i).Fine?
  {
    var p := Steps(m)[i];
    WalkShrinks(fs, fs', p, |p.parts|);
  }

  /** What was safe stays safe while things are only removed: checking each path again just before
   *  it is removed, as the code does, cannot fail unless somebody else has been at work. */
  lemma {:induction false} ChecksShrink(fs: FileSystem, fs': FileSystem, m: Manifest, n: nat)
    requires Shrinks(fs, fs') && n <= |Steps(m)| && CheckSteps(fs, m, n).Fine?
    ensures CheckSteps(fs', m, n).Fine?
    ensures forall i :: 0 <= i < n ==> CheckStep(fs', m, i).Fine?
  {
    if n > 0 {
      ChecksShrink(fs, fs', m, n - 1);
      CheckStepShrinks(fs, fs', m, n - 1);
    }
  }

  lemma SameFinish(fs: FileSystem, fs': FileSystem, m: Manifest)
    requires Attempt(fs, m, None).1.Finished? && Shrinks(fs, fs') && forall p :: p in fs && !Removes(m, p) ==> p in fs'
    ensures Attempt(fs', m, None) == Attempt(fs, m, None)
  {
    ChecksShrink(fs, fs', m, |Steps(m)|);
    var a, b := Attempt(fs, m, None).0, Attempt(fs', m, None).0;
    forall p ensures p in a <==> p in b
      ensures p in a ==> a[p] == b[p]
    {
      FinishedExactly(fs, m, None, p);
      FinishedExactly(fs', m, None, p);
    }
    assert a == b;
  }

  /** Replay: after any number of attempts, each cut anywhere by an error or a crash, one more
   *  attempt finishes, and ends in the same file system as one uninterrupted run. */
  lemma {:induction false} ReplayEndsTheSame(fs: FileSystem, m: Manifest, cuts: seq<Cut>)
    requires Attempt(fs, m, None).1.Finished?
    ensures Attempt(Attempts(fs, m, cuts), m, None) == Attempt(fs, m, None)
    decreases |cuts|
  {
    if cuts != [] {
      var fs1 := Attempt(fs, m, Some(cuts[0])).0;
      forall p ensures p in fs1 ==> p in fs && fs1[p] == fs[p]
        ensures p in fs && !Removes(m, p) ==> p in fs1
      {
        AttemptOnlyRemoves(fs, m, Some(cuts[0]), p);
      }
      SameFinish(fs, fs1, m);
      ReplayEndsTheSame(fs1, m, cuts[1..]);
    }
  }

  // ---------------------------------------------------------------- other books

  /** A path another book refers to, below the content root, is not removed at any later time, and
   *  neither is a directory it lies in: whatever the disk looks like when the job runs, and
   *  wherever an attempt is cut. */
  lemma SharedPathsStay(s: Store, book: int, m: Manifest, fs: FileSystem, cut: Option<Cut>, q: Loc, p: Loc)
    requires ManifestOf(s, book, m) && Shared(s, book, q)
    requires p in fs && Under(q, p) && (p == q || fs[p].Dir?)
    ensures p in Attempt(fs, m, cut).0 && Attempt(fs, m, cut).0[p] == fs[p]
  {
    AttemptOnlyRemoves(fs, m, cut, p);
    if Removes(m, p) {
      var i :| 0 <= i < |Steps(m)| && Hits(m, i, p);
      var step := Steps(m)[i];
      if i < |m.files| {
        assert step in m.files;
        StepDecides(fs, m, |Steps(m)|, i);
      } else {
        assert Under(q, step);
        TreesMissShared(s, book, m, i, q);
      }
    }
  }

  lemma {:induction false} StepDecides(fs: FileSystem, m: Manifest, n: nat, i: nat)
    requires n <= |Steps(m)| && i < n && !CheckStep(fs, m, i).Fine?
    ensures !CheckSteps(fs, m, n).Fine?
  {
    if i < n - 1 {
      StepDecides(fs, m, n - 1, i);
    }
  }

  lemma TreesMissShared(s: Store, book: int, m: Manifest, i: nat, q: Loc)
    requires ManifestOf(s, book, m) && Shared(s, book, q) && |m.files| <= i < |Steps(m)|
    ensures !Under(q, Steps(m)[i])
  {
    var step := Steps(m)[i];
    if i < |m.files| + |m.contentTrees| {
      assert step in m.contentTrees;
    } else {
      assert step in m.cacheTrees;
    }
  }

  /** Which paths of other books a finished job does remove: exactly those that do not lie below
   *  the content root but inside the deleted book's own cache tree. */
  lemma ReferenceSurvives(s: Store, book: int, m: Manifest, fs: FileSystem, q: Loc)
    requires ManifestOf(s, book, m) && OthersRefer(s, book, q) && Attempt(fs, m, None).1.Finished? && q in fs && q.parts != []
    ensures q in Attempt(fs, m, None).0 <==> CacheShared(s.books, book) || !Under(q, CacheTree(s.books[book]))
  {
    FinishedExactly(fs, m, None, q);
    var tree := CacheTree(s.books[book]);
    if !CacheShared(s.books, book) && Under(q, tree) {
      assert tree in m.cacheTrees;
      var k :| 0 <= k < |m.cacheTrees| && m.cacheTrees[k] == tree;
      assert Hits(m, |m.files| + |m.contentTrees| + k, q);
    } else if Removes(m, q) {
      var i :| 0 <= i < |Steps(m)| && Hits(m, i, q);
      HitStep(s, book, m, i, q);
      if !CheckStep(fs, m, i).Fine? {
        StepDecides(fs, m, |Steps(m)|, i);
      }
    }
  }

  /** Book 2 keeps content inside the cache tree of book 1. */
  function Tangled(title: string, other: string, site: string, r: Row): Store
    requires r.path.Some?
  {
    Store(map[7 := r], map[r.path.value := File("text")], map[1 := Book(title, site), 2 := Book(other, site)], [], 8, {})
  }

  function TangledManifest(title: string, site: string): Manifest {
    Manifest([], [ContentDir(1)], [CacheTree(Book(title, site))])
  }

  lemma TangledIsListed(title: string, other: string, site: string, r: Row)
    requires r.book == 2 && r.path == Some(Loc(Cache, [site, SafeFilename(title), "0.txt"]))
    requires SafeFilename(other) != SafeFilename(title)
    ensures ManifestOf(Tangled(title, other, site, r), 1, TangledManifest(title, site))
    ensures OthersRefer(Tangled(title, other, site, r), 1, r.path.value)
  {
    var s := Tangled(title, other, site, r);
    assert s.table[7].path == Some(r.path.value);
    forall p ensures !Refers(s, 1, p) && !Shared(s, 1, p) {}
    assert !CacheShared(s.books, 1);
    forall t ensures Candidate(s, 1, t) <==> t == ContentDir(1) {}
    forall t ensures !HoldsShared(s, 1, t) {}
  }

  lemma TangledFinishes(title: string, other: string, site: string, r: Row)
    requires r.path == Some(Loc(Cache, [site, SafeFilename(title), "0.txt"]))
    ensures Attempt(Tangled(title, other, site, r).fs, TangledManifest(title, site), None).1.Finished?
  {
    var fs, m := Tangled(title, other, site, r).fs, TangledManifest(title, site);
    NothingInTheWay(fs, ContentDir(1), 1);
    NothingInTheWay(fs, CacheTree(Book(title, site)), 2);
    assert CheckStep(fs, m, 0).Fine? && CheckStep(fs, m, 1).Fine?;
    assert CheckSteps(fs, m, 1).Fine? && CheckSteps(fs, m, 2).Fine?;
  }

  /** In such a store, deleting book 1 takes content of book 2 away. */
  lemma CacheReferenceLost(title: string, other: string, site: string, r: Row)
    requires r.book == 2 && r.path == Some(Loc(Cache, [site, SafeFilename(title), "0.txt"]))
    requires SafeFilename(other) != SafeFilename(title)
    ensures var s := Tangled(title, other, site, r);
      r.path.value in s.fs && r.path.value !in Attempt(s.fs, TangledManifest(title, site), None).0
  {
    TangledIsListed(title, other, site, r);
    TangledFinishes(title, other, site, r);
    var s := Tangled(title, other, site, r);
    assert !CacheShared(s.books, 1);
    ReferenceSurvives(s, 1, TangledManifest(title, site), s.fs, r.path.value);
  }

  lemma {:induction false} NothingInTheWay(fs: FileSystem, p: Loc, n: nat)
    requires n <= |p.parts| && forall k :: 0 <= k <= n ==> Prefix(p, k) !in fs
    ensures Walk(fs, p, n).Fine?
  {
    if n > 0 {
      NothingInTheWay(fs, p, n - 1);
    }
  }

  /** A removed path is an unshared path of the book, or lies in one of its trees. */
  lemma HitStep(s: Store, book: int, m: Manifest, i: nat, q: Loc)
    requires ManifestOf(s, book, m) && i < |Steps(m)| && Hits(m, i, q)
    ensures (DoomedFile(s, book, q) && i < |m.files| && Steps(m)[i] == q) || (exists t :: DoomedTree(s, book, t) && Under(q, t))
            || (DoomedCache(s, book, CacheTree(s.books[book])) && Under(q, CacheTree(s.books[book])))
  {
    var step := Steps(m)[i];
    if i < |m.files| {
      assert step in m.files;
    } else if i < |m.files| + |m.contentTrees| {
      assert step in m.contentTrees;
    } else {
      assert step in m.cacheTrees;
    }
  }

  /** A book whose content was all written by `mark_done` keeps the directory of every other book
   *  out of its manifest: however late the job runs, it cannot touch content they store meanwhile. */
  lemma LateContentIsSafe(s: Store, book: nat, m: Manifest, other: nat, index: int)
    requires ManifestOf(s, book, m) && other > 0 && other != book
    requires forall p :: Refers(s, book, p) ==> exists i: int :: p == ChapterLoc(book, i)
    ensures !Removes(m, ChapterLoc(other, index))
  {
    var q := ChapterLoc(other, index);
    if Removes(m, q) {
      var i :| 0 <= i < |Steps(m)| && Hits(m, i, q);
      HitStep(s, book, m, i, q);
      assert q.parts[0] == Decimal(other);
      if t :| DoomedTree(s, book, t) && Under(q, t) {
        OwnTree(s, book, t);
        assert t.parts[0] == q.parts[0];
      }
      DecimalInjective(other, book);
    }
  }

  lemma OwnTree(s: Store, book: nat, t: Loc)
    requires Candidate(s, book, t) && forall p :: Refers(s, book, p) ==> exists i: int :: p == ChapterLoc(book, i)
    ensures t.parts == [Decimal(book)]
  {
  }

  /** A content or audit path of the book lies in the content directory of another. */
  ghost predicate ReachesInto(s: Store, book: int, other: nat) {
    exists p :: Refers(s, book, p) && 2 <= |p.parts| && p.parts[0] == Decimal(other)
  }

  /** What a manifest holds against a chapter file of another book, written or yet to be written. */
  ghost predicate LateContentDoomed(s: Store, book: int, other: nat, index: int) {
    || DoomedFile(s, book, ChapterLoc(other, index))
    || (ReachesInto(s, book, other) && !OtherTitle(s.books, book, Decimal(other)) && !HoldsShared(s, book, ContentDir(other)))
  }

  /** Exactly when a manifest covers a chapter file of another book: it is a path of the deleted book
   *  that nobody else refers to, or some path of the deleted book lies in that directory, whose name
   *  is no other book's title and in which nobody else had anything at the time. */
  lemma LateContentIff(s: Store, book: nat, m: Manifest, other: nat, index: int)
    requires ManifestOf(s, book, m) && other > 0 && other != book
    ensures Removes(m, ChapterLoc(other, index)) <==> LateContentDoomed(s, book, other, index)
  {
    var q, tree := ChapterLoc(other, index), ContentDir(other);
    if Removes(m, q) {
      var i :| 0 <= i < |Steps(m)| && Hits(m, i, q);
      HitStep(s, book, m, i, q);
      if t :| DoomedTree(s, book, t) && Under(q, t) {
        TreeOfOther(s, book, t, other, index);
      }
    }
    if DoomedFile(s, book, q) {
      assert q in m.files;
      var k :| 0 <= k < |m.files| && m.files[k] == q;
      assert Hits(m, k, q);
    } else if LateContentDoomed(s, book, other, index) {
      assert tree == Loc(Contents, [Decimal(other)]) && DoomedTree(s, book, tree) && tree in m.contentTrees;
      var k :| 0 <= k < |m.contentTrees| && m.contentTrees[k] == tree;
      assert Hits(m, |m.files| + k, q);
    }
  }

  /** A doomed tree with a chapter file of another book in it is that book's directory. */
  lemma TreeOfOther(s: Store, book: nat, t: Loc, other: nat, index: int)
    requires DoomedTree(s, book, t) && Under(ChapterLoc(other, index), t) && other > 0 && other != book
    ensures ReachesInto(s, book, other) && !OtherTitle(s.books, book, Decimal(other)) && !HoldsShared(s, book, ContentDir(other))
  {
    var q := ChapterLoc(other, index);
    assert q.parts[0] == Decimal(other) && t.parts[0] == q.parts[0];
    if t == ContentDir(book) {
      assert t.parts[0] == Decimal(book);
      DecimalInjective(other, book);
    } else {
      assert t == ContentDir(other);
    }
  }

  /** So much for the disk: a job that finishes takes a chapter file of another book away exactly
   *  then, whenever it runs and whenever the file was written. */
  lemma LateContentLostIff(s: Store, book: nat, m: Manifest, other: nat, index: int, fs: FileSystem)
    requires ManifestOf(s, book, m) && other > 0 && other != book
    requires ChapterLoc(other, index) in fs && Attempt(fs, m, None).1.Finished?
    ensures ChapterLoc(other, index) !in Attempt(fs, m, None).0 <==> LateContentDoomed(s, book, other, index)
  {
    LateContentIff(s, book, m, other, index);
    FinishedExactly(fs, m, None, ChapterLoc(other, index));
  }

  /** A store whose only row is left over from an old database: it names a file in the directory that
   *  the next book to be added, book 2, will write to. */
  function Leftover(info: Book, name: string, r: Row): Store {
    Store(map[7 := r.(book := 1, path := Some(Loc(Contents, [Decimal(2), name])))], map[], map[1 := info], [], 8, {})
  }

  function LeftoverManifest(info: Book, name: string): Manifest {
    Manifest([Loc(Contents, [Decimal(2), name])], [ContentDir(1), ContentDir(2)], [CacheTree(info)])
  }

  /** The disk after book 2 has been added and one of its chapters has been written. */
  function LaterDisk(index: int, content: string): FileSystem {
    map[ContentDir(2) := Dir, ChapterLoc(2, index) := File(content)]
  }

  lemma LeftoverIsListed(info: Book, name: string, r: Row)
    ensures ManifestOf(Leftover(info, name, r), 1, LeftoverManifest(info, name))
    ensures LateContentDoomed(Leftover(info, name, r), 1, 2, 0) && ReachesInto(Leftover(info, name, r), 1, 2)
    ensures !OtherTitle(Leftover(info, name, r).books, 1, Decimal(2)) && !HoldsShared(Leftover(info, name, r), 1, ContentDir(2))
  {
    var s, m, own := Leftover(info, name, r), LeftoverManifest(info, name), Loc(Contents, [Decimal(2), name]);
    assert Decimal(1) != Decimal(2);
    assert ContentDir(1).parts[0] == Decimal(1) && ContentDir(2).parts[0] == Decimal(2);
    assert s.table[7].book == 1 && s.table[7].path == Some(own);
    forall p ensures Refers(s, 1, p) <==> p == own {}
    forall p ensures !Shared(s, 1, p) {}
    forall t ensures !HoldsShared(s, 1, t) {}
    assert own.parts[0] == Decimal(2) && !OtherTitle(s.books, 1, Decimal(2)) && !CacheShared(s.books, 1);
    forall t ensures Candidate(s, 1, t) <==> t == ContentDir(1) || t == ContentDir(2) {
      if t == ContentDir(2) {
        assert Refers(s, 1, own) && t == Loc(Contents, [own.parts[0]]);
      }
    }
  }

  lemma LeftoverFinishes(info: Book, name: string, index: int, content: string)
    ensures Attempt(LaterDisk(index, content), LeftoverManifest(info, name), None).1.Finished?
  {
    var fs, m, own := LaterDisk(index, content), LeftoverManifest(info, name), Loc(Contents, [Decimal(2), name]);
    assert Decimal(1) != Decimal(2);
    assert ContentDir(1).parts[0] == Decimal(1) && ContentDir(2).parts[0] == Decimal(2);
    assert |ContentDir(2).parts| == 1 && |ChapterLoc(2, index).parts| == 2;
    assert Prefix(own, 1) == ContentDir(2) && Prefix(own, 2) == own && Prefix(own, 0) == Loc(Contents, []);
    assert Walk(fs, own, 0).Fine? && Walk(fs, own, 1).Fine? && Walk(fs, own, 2).Fine?;
    NothingInTheWay(fs, ContentDir(1), 1);
    assert Prefix(ContentDir(2), 1) == ContentDir(2) && Walk(fs, ContentDir(2), 0).Fine? && Walk(fs, ContentDir(2), 1).Fine?;
    NothingInTheWay(fs, CacheTree(info), 2);
    assert Steps(m) == [own, ContentDir(1), ContentDir(2), CacheTree(info)];
    assert CheckStep(fs, m, 0).Fine? && CheckStep(fs, m, 1).Fine? && CheckStep(fs, m, 2).Fine? && CheckStep(fs, m, 3).Fine?;
    assert CheckSteps(fs, m, 0).Fine? && CheckSteps(fs, m, 1).Fine? && CheckSteps(fs, m, 2).Fine? && CheckSteps(fs, m, 3).Fine?;
  }

  /** In that store the job of book 1, retried once book 2 has been added, takes its chapter away. */
  lemma LateContentLost(info: Book, name: string, r: Row, index: int, content: string)
    ensures ManifestOf(Leftover(info, name, r), 1, LeftoverManifest(info, name))
    ensures var (fs, outcome) := Attempt(LaterDisk(index, content), LeftoverManifest(info, name), None);
      outcome.Finished? && ChapterLoc(2, index) !in fs
  {
    LeftoverIsListed(info, name, r);
    LeftoverFinishes(info, name, index, content);
    LateContentLostIff(Leftover(info, name, r), 1, LeftoverManifest(info, name), 2, index, LaterDisk(index, content));
  }

  // ---------------------------------------------------------------- jobs

  datatype Job = Job(manifest: Manifest, blocked: bool, error: Option<string>, attempts: nat)

  /** One call of `_process_deletion_job`: an absent or blocked job counts as done. */
  function Process(fs: FileSystem, jobs: map<nat, Job>, id: nat, cut: Option<Cut>): (FileSystem, map<nat, Job>, Outcome) {
    if id !in jobs || jobs[id].blocked then (fs, jobs, Finished)
    else
      var job := jobs[id].(attempts := jobs[id].attempts + 1);
      var (fs', outcome) := Attempt(fs, job.manifest, cut);
      match outcome
      case Finished => (fs', jobs - {id}, Finished)
      case Retry => (fs', jobs[id := job.(error := Some("deletion_cleanup_retryable"))], Retry)
      case Blocked => (fs', jobs[id := job.(blocked := true, error := Some("deletion_safety_blocked"))], Blocked)
      case Broken => (fs', jobs[id := job.(blocked := true, error := Some("deletion_cleanup_failed"))], Broken)
      case Lost => (fs', jobs[id := job], Lost)
  }

  /** A job disappears only when nothing that it lists is left. */
  lemma JobGoneMeansCleaned(fs: FileSystem, jobs: map<nat, Job>, id: nat, cut: Option<Cut>, p: Loc)
    requires id in jobs && id !in Process(fs, jobs, id, cut).1
    ensures Removes(jobs[id].manifest, p) ==> p !in Process(fs, jobs, id, cut).0
  {
    FinishedExactly(fs, jobs[id].manifest, cut, p);
  }

  /** The database without a book. */
  function Purged(s: Store, book: int): Store {
    s.(table := map id | id in s.table && s.table[id].book != book :: s.table[id],
       audits := OthersAudits(s.audits, book),
       books := s.books - {book})
  }

  function OthersAudits(audits: seq<Audit>, book: int): seq<Audit> {
    if audits == [] then []
    else
      var before := OthersAudits(audits[..|audits| - 1], book);
      var last := audits[|audits| - 1];
      if last.book == book then before else before + [last]
  }

  /** Two lists of the same manifest differ only in order. */
  lemma SameCount(s: Store, book: int, m: Manifest, m': Manifest)
    requires ManifestOf(s, book, m) && ManifestOf(s, book, m')
    ensures Encodable(m) ==> Encodable(m')
  {
    SameLength(m.files, m'.files);
    SameLength(m.contentTrees, m'.contentTrees);
    SameLength(m.cacheTrees, m'.cacheTrees);
    forall p | p in Steps(m') ensures p in Steps(m) {
      assert p in m'.files || p in m'.contentTrees || p in m'.cacheTrees;
      assert p in m.files || p in m.contentTrees || p in m.cacheTrees;
    }
  }

  lemma SameLength(a: seq<Loc>, b: seq<Loc>)
    requires Distinct(a) && Distinct(b) && forall p :: p in a <==> p in b
    ensures |a| == |b|
  {
    ElementCount(a);
    ElementCount(b);
    assert (set p | p in a) == (set p | p in b);
  }

  lemma {:induction false} ElementCount(a: seq<Loc>)
    requires Distinct(a)
    ensures |set p | p in a| == |a|
  {
    if a != [] {
      var rest := a[..|a| - 1];
      ElementCount(rest);
      assert (set p | p in a) == (set p | p in rest) + {a[|a| - 1]};
      assert a[|a| - 1] !in rest;
    }
  }

  class Deleter {
    var db: Store
    var jobs: map<nat, Job>
    var nextJob: nat

    constructor (db: Store)
      ensures this.db == db && jobs == map[] && nextJob == 0
    {
      this.db, jobs, nextJob := db, map[], 0;
    }

    /** The book's own content and audit paths, all of them checked. */
    method OwnPaths(book: int) returns (paths: Option<seq<Loc>>)
      ensures paths.Some? ==> forall p :: p in paths.value <==> Refers(db, book, p)
      ensures paths.Some? ==> forall p :: p in paths.value ==> CheckFile(db.fs, p).Fine?
      ensures paths.Some? ==> forall a :: a in db.audits && a.book == book ==>
        !a.manual && (a.path.Some? && a.path.value != [] ==> Listable(a.path.value))
      ensures paths.None? && book in db.books ==> !Clear(db, book)
    {
      var found: seq<Loc> := [];
      var ids := db.table.Keys;
      while ids != {}
        invariant ids <= db.table.Keys
        invariant forall p :: p in found <==> exists id :: id in db.table && id !in ids && db.table[id].book == book && db.table[id].path == Some(p)
        invariant forall p :: p in found ==> CheckFile(db.fs, p).Fine?
        decreases ids
      {
        var id :| id in ids;
        var r := db.table[id];
        if r.book == book && r.path.Some? {
          if !CheckFile(db.fs, r.path.value).Fine? {
            assert Refers(db, book, r.path.value);
            return None;
          }
          found := found + [r.path.value];
        }
        ids := ids - {id};
      }
      ghost var fromRows := found;
      for k := 0 to |db.audits|
        invariant forall p :: p in found <==> p in fromRows || (exists j :: 0 <= j < k && OwnAudit(db.audits[j], book) && AuditLoc(db.audits[j]) == p)
        invariant forall p :: p in found ==> CheckFile(db.fs, p).Fine?
        invariant forall j :: 0 <= j < k && db.audits[j].book == book ==>
          !db.audits[j].manual && (db.audits[j].path.Some? && db.audits[j].path.value != [] ==> Listable(db.audits[j].path.value))
      {
        var a := db.audits[k];
        assert a in db.audits;
        if a.book == book {
          if a.manual {
            return None;
          }
          if a.path.Some? && a.path.value != [] {
            if !Listable(a.path.value) {
              return None;
            }
            if !CheckFile(db.fs, AuditLoc(a)).Fine? {
              assert Refers(db, book, AuditLoc(a));
              return None;
            }
            found := found + [AuditLoc(a)];
          }
        }
      }
      paths := Some(found);
    }

    /** The keys of all paths below the content root that other books refer to. */
    method SharedKeys(book: int) returns (keys: Option<set<Loc>>)
      ensures keys.Some? ==> forall p :: p in keys.value <==> Shared(db, book, p)
      ensures keys.Some? ==> forall a :: a in db.audits && a.book != book && a.path.Some? ==> Listable(a.path.value)
      ensures keys.None? && book in db.books ==> !Clear(db, book)
    {
      var found: set<Loc> := set id | id in db.table && db.table[id].book != book && db.table[id].path.Some?
        && db.table[id].path.value.root.Contents? && db.table[id].path.value.parts != [] :: db.table[id].path.value;
      ghost var fromRows := found;
      for k := 0 to |db.audits|
        invariant forall p :: p in found <==> p in fromRows || (exists j :: 0 <= j < k && db.audits[j].book != book && db.audits[j].path.Some? && AuditLoc(db.audits[j]) == p)
        invariant forall j :: 0 <= j < k && db.audits[j].book != book && db.audits[j].path.Some? ==> Listable(db.audits[j].path.value)
      {
        var a := db.audits[k];
        assert a in db.audits;
        if a.book != book && a.path.Some? {
          if !Listable(a.path.value) {
            return None;
          }
          found := found + {AuditLoc(a)};
        }
      }
      keys := Some(found);
    }

    method DoomedFiles(book: int, paths: seq<Loc>, keys: set<Loc>) returns (files: seq<Loc>)
      requires forall p :: p in paths <==> Refers(db, book, p)
      requires forall p :: p in keys <==> Shared(db, book, p)
      ensures (forall p :: p in files <==> DoomedFile(db, book, p)) && Distinct(files)
    {
      files := [];
      for k := 0 to |paths|
        invariant forall p :: p in files <==> p in paths[..k] && p !in keys
        invariant Distinct(files)
      {
        if paths[k] !in keys && paths[k] !in files {
          files := files + [paths[k]];
        }
      }
    }

    method Candidates(book: nat, paths: seq<Loc>) returns (trees: seq<Loc>)
      requires book in db.books && book > 0 && forall p :: p in paths <==> Refers(db, book, p)
      requires forall p :: p in paths ==> p.parts != []
      ensures (forall t :: t in trees <==> Candidate(db, book, t)) && Distinct(trees)
    {
      trees := [ContentDir(book)];
      for k := 0 to |paths|
        invariant forall t :: t in trees <==> t == ContentDir(book) || (exists j :: 0 <= j < k && 2 <= |paths[j].parts| && t == Loc(Contents, [paths[j].parts[0]]) && !OtherTitle(db.books, book, paths[j].parts[0]))
        invariant Distinct(trees)
      {
        var path := paths[k];
        if 2 <= |path.parts| {
          var parent := Loc(Contents, [path.parts[0]]);
          if (parent == ContentDir(book) || !OtherTitle(db.books, book, path.parts[0])) && parent !in trees {
            trees := trees + [parent];
          }
        }
      }
    }

    method DoomedTrees(book: nat, candidates: seq<Loc>, keys: set<Loc>) returns (trees: Option<seq<Loc>>)
      requires book in db.books && (forall t :: t in candidates <==> Candidate(db, book, t)) && Distinct(candidates)
      requires forall p :: p in keys <==> Shared(db, book, p)
      ensures trees.Some? ==> (forall t :: t in trees.value <==> DoomedTree(db, book, t)) && Distinct(trees.value)
      ensures trees.Some? ==> forall t :: t in candidates ==> CheckTree(db.fs, Contents, t).Fine?
      ensures trees.None? ==> !Clear(db, book)
    {
      var kept: seq<Loc> := [];
      for k := 0 to |candidates|
        invariant forall j :: 0 <= j < k ==> CheckTree(db.fs, Contents, candidates[j]).Fine?
        invariant forall t :: t in kept <==> t in candidates[..k] && !HoldsShared(db, book, t)
        invariant Distinct(kept)
      {
        var tree := candidates[k];
        assert tree in candidates;
        if !CheckTree(db.fs, Contents, tree).Fine? {
          return None;
        }
        if !exists key :: key in keys && Under(key, tree) {
          assert !HoldsShared(db, book, tree);
          kept := kept + [tree];
        }
      }
      trees := Some(kept);
    }

    /** `_build_deletion_manifest_locked`; None when it raises. */
    method BuildManifest(book: int) returns (manifest: Option<Manifest>)
      requires book in db.books
      ensures manifest.Some? ==> ManifestOf(db, book, manifest.value) && Clear(db, book) && Encodable(manifest.value)
      ensures manifest.None? ==> !Clear(db, book) || forall m :: ManifestOf(db, book, m) ==> !Encodable(m)
    {
      var paths := OwnPaths(book);
      if paths.None? {
        return None;
      }
      var keys := SharedKeys(book);
      if keys.None? || book <= 0 {
        return None;
      }
      var files := DoomedFiles(book, paths.value, keys.value);
      var candidates := Candidates(book, paths.value);
      var trees := DoomedTrees(book, candidates, keys.value);
      if trees.None? {
        return None;
      }
      var cacheTrees: seq<Loc> := [];
      if !CacheShared(db.books, book) {
        if !CheckTree(db.fs, Cache, CacheTree(db.books[book])).Fine? {
          return None;
        }
        cacheTrees := [CacheTree(db.books[book])];
      }
      var m := Manifest(files, trees.value, cacheTrees);
      assert ManifestOf(db, book, m);
      if !Encodable(m) {
        forall m' | ManifestOf(db, book, m') ensures !Encodable(m') {
          SameCount(db, book, m', m);
        }
        return None;
      }
      manifest := Some(m);
    }

    /** The transaction of `delete_book`. A manifest that cannot be built rolls it back. */
    method DeleteBook(book: int) returns (raised: bool, job: Option<nat>)
      modifies this
      ensures raised ==> db == old(db) && jobs == old(jobs) && nextJob == old(nextJob) && book in old(db).books
      ensures !raised ==> db == Purged(old(db), book)
      ensures !raised && job.None? ==> book !in old(db).books && jobs == old(jobs)
      ensures !raised && job.Some? ==>
        && job == Some(old(nextJob)) && nextJob == old(nextJob) + 1 && job.value in jobs
        && jobs == old(jobs)[job.value := Job(jobs[job.value].manifest, false, None, 0)]
        && ManifestOf(old(db), book, jobs[job.value].manifest) && Clear(old(db), book) && Encodable(jobs[job.value].manifest)
    {
      raised, job := false, None;
      if book in db.books {
        var manifest := BuildManifest(book);
        if manifest.None? {
          return true, None;
        }
        jobs, job, nextJob := jobs[nextJob := Job(manifest.value, false, None, 0)], Some(nextJob), nextJob + 1;
      }
      var kept: seq<Audit> := [];
      for k := 0 to |db.audits|
        invariant kept == OthersAudits(db.audits[..k], book)
      {
        assert db.audits[..k + 1][..k] == db.audits[..k];
        if db.audits[k].book != book {
          kept := kept + [db.audits[k]];
        }
      }
      assert db.audits[..|db.audits|] == db.audits;
      db := db.(table := map id | id in db.table && db.table[id].book != book :: db.table[id],
                audits := kept, books := db.books - {book});
    }

    /** Everything the manifest names is checked before anything is removed. */
    method CheckManifest(m: Manifest) returns (safety: Safety)
      ensures safety == CheckSteps(db.fs, m, |Steps(m)|)
    {
      var n := 0;
      while n < |Steps(m)|
        invariant 0 <= n <= |Steps(m)| && CheckSteps(db.fs, m, n).Fine?
      {
        safety := CheckStep(db.fs, m, n);
        n := n + 1;
        if !safety.Fine? {
          FirstBad(db.fs, m, n, |Steps(m)|);
          return;
        }
      }
      safety := Fine;
    }

    lemma {:induction false} FirstBad(fs: FileSystem, m: Manifest, n: nat, all: nat)
      requires n <= all <= |Steps(m)| && !CheckSteps(fs, m, n).Fine?
      ensures CheckSteps(fs, m, all) == CheckSteps(fs, m, n)
    {
      if n < all {
        FirstBad(fs, m, n, all - 1);
      }
    }

    /** One file is unlinked, or one tree removed with everything in it. */
    method RemoveStep(m: Manifest, n: nat)
      requires n < |Steps(m)|
      modifies this`db
      ensures db == old(db).(fs := Without(old(db).fs, m, n))
    {
      var step := Steps(m)[n];
      if n < |m.files| {
        if step in db.fs {
          db := db.(fs := db.fs - {step});
        }
        assert db.fs == Without(old(db).fs, m, n);
      } else {
        db := db.(fs := map p | p in db.fs && !Under(p, step) :: db.fs[p]);
      }
    }

    lemma StillFine(before: FileSystem, m: Manifest, n: nat)
      requires CheckSteps(before, m, |Steps(m)|).Fine? && n < |Steps(m)|
      ensures CheckStep(Sweep(before, m, n), m, n).Fine?
    {
      SweepExactly(before, m, n);
      ChecksShrink(before, Sweep(before, m, n), m, |Steps(m)|);
    }

    /** Unlinks the files, then removes the trees, checking each again just before. */
    method RemoveAll(m: Manifest, cut: Option<Cut>) returns (outcome: Outcome)
      requires CheckSteps(db.fs, m, |Steps(m)|).Fine?
      modifies this`db
      ensures db == old(db).(fs := Attempt(old(db).fs, m, cut).0) && outcome == Attempt(old(db).fs, m, cut).1
    {
      ghost var before := db.fs;
      for n := 0 to |Steps(m)|
        invariant db == old(db).(fs := Sweep(before, m, n))
        invariant cut.Some? ==> n <= cut.value.at
      {
        StillFine(before, m, n);
        var again := CheckStep(db.fs, m, n);
        assert again.Fine?;
        if cut.Some? && cut.value.at == n {
          db := db.(fs := Half(db.fs, m, n, cut.value.gone));
          return Ending(cut.value.how);
        }
        RemoveStep(m, n);
      }
      outcome := if cut.Some? && cut.value.at == |Steps(m)| then Ending(cut.value.how) else Finished;
    }

    /** `_process_deletion_job`. */
    method ProcessJob(id: nat, cut: Option<Cut>) returns (outcome: Outcome)
      modifies this
      ensures (db.fs, jobs, outcome) == Process(old(db).fs, old(jobs), id, cut)
      ensures db == old(db).(fs := db.fs) && nextJob == old(nextJob)
    {
      if id !in jobs || jobs[id].blocked {
        return Finished;
      }
      var job := jobs[id].(attempts := jobs[id].attempts + 1);
      jobs := jobs[id := job];
      var safety := CheckManifest(job.manifest);
      match safety {
        case Unsafe => outcome := Blocked;
        case Trouble => outcome := Retry;
        case Fine => outcome := RemoveAll(job.manifest, cut);
      }
      assert (db.fs, outcome) == Attempt(old(db).fs, job.manifest, cut);
      match outcome {
        case Finished =>
          jobs := jobs - {id};
          assert jobs == old(jobs) - {id};
        case Retry =>
          jobs := jobs[id := job.(error := Some("deletion_cleanup_retryable"))];
          assert jobs == old(jobs)[id := job.(error := Some("deletion_cleanup_retryable"))];
        case Blocked =>
          jobs := jobs[id := job.(blocked := true, error := Some("deletion_safety_blocked"))];
          assert jobs == old(jobs)[id := job.(blocked := true, error := Some("deletion_safety_blocked"))];
        case Broken =>
          jobs := jobs[id := job.(blocked := true, error := Some("deletion_cleanup_failed"))];
          assert jobs == old(jobs)[id := job.(blocked := true, error := Some("deletion_cleanup_failed"))];
        case Lost =>
      }
    }

    /** `retry_deletion_job`: a blocked job is only taken up again by force, and not even then when
     *  its manifest was lost in a migration. */
    method RetryJob(id: nat, force: bool, cut: Option<Cut>) returns (outcome: Outcome)
      modifies this
      ensures var retriable := force && (id in old(jobs) ==> old(jobs)[id].error != Some("deletion_manifest_migration_blocked"));
        if id !in old(jobs) then outcome == Finished && db == old(db) && jobs == old(jobs)
        else if old(jobs)[id].blocked && !retriable then outcome == Blocked && db == old(db) && jobs == old(jobs)
        else (db.fs, jobs, outcome) == Process(old(db).fs, old(jobs)[id := Reopened(old(jobs)[id])], id, cut)
    {
      if id !in jobs {
        return Finished;
      }
      if jobs[id].blocked {
        if !force || jobs[id].error == Some("deletion_manifest_migration_blocked") {
          return Blocked;
        }
        jobs := jobs[id := jobs[id].(blocked := false, error := None)];
      }
      assert jobs == old(jobs)[id := Reopened(old(jobs)[id])];
      outcome := ProcessJob(id, cut);
    }
  }

  function Reopened(job: Job): Job {
    if job.blocked then job.(blocked := false, error := None) else job
  }
}
