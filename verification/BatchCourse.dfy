/** The course of a batch run that nobody interferes with: what its local variables, the table and the
 *  checkpoint have to do with each other at each place of the loop. */
module BatchCourse {
  import opened Basics
  import opened ChapterStore
  import opened ChapterLaws
  import opened BatchMachine
  import opened BatchLaws

  // ---------------------------------------------------------------- counting rows

  /** The rows of the whole range that have a status. */
  ghost function Rows(t: Table, cfg: Config, status: Status): set<nat> {
    set id | id in t && t[id].book == cfg.book && cfg.start <= t[id].index
      && (cfg.end.None? || t[id].index <= cfg.end.value) && t[id].status == status
  }

  lemma CountsAreRows(t: Table, cfg: Config)
    ensures CountDone(t, cfg) == |Rows(t, cfg, Done)| && CountFailed(t, cfg) == |Rows(t, cfg, Failed)|
  {
    assert Rows(t, cfg, Done) == WithStatus(t, RowsIn(t, cfg.book, cfg.start, cfg.end), Done);
    assert Rows(t, cfg, Failed) == WithStatus(t, RowsIn(t, cfg.book, cfg.start, cfg.end), Failed);
  }

  /** The checkpoint table is where the run believes it to be. */
  ghost predicate SameVersion(checkpoints: map<string, Checkpoint>, task: string, version: Option<nat>) {
    if version.None? then task !in checkpoints
    else task in checkpoints && checkpoints[task].version == version.value
  }

  // ---------------------------------------------------------------- the course of a run

  function FirstIndex(cfg: Config, c0: Option<Checkpoint>): int {
    if c0.Some? then c0.value.next else cfg.start
  }

  function Saved(checkpoints: map<string, Checkpoint>, task: string): Option<Checkpoint> {
    if task in checkpoints then Some(checkpoints[task]) else None
  }

  predicate IsListed(r: BatchRun, index: int) {
    exists k :: 0 <= k < |r.chapters| && r.chapters[k].index == index
  }

  /** The list is the rows from the loaded index on, in rising order. */
  ghost predicate Listed(t: Table, r: BatchRun) {
    RisingList(r) && OnlyRows(t, r) && AllRows(t, r)
  }

  predicate RisingList(r: BatchRun) {
    forall j, k :: 0 <= j < k < |r.chapters| ==> r.chapters[j].index < r.chapters[k].index
  }

  ghost predicate OnlyRows(t: Table, r: BatchRun) {
    forall k :: 0 <= k < |r.chapters| ==>
      InRange(r.chapters[k].index, r.next, r.cfg.end) && RowAt(t, r.cfg.book, r.chapters[k].index).Some?
  }

  ghost predicate AllRows(t: Table, r: BatchRun) {
    forall id :: id in t && t[id].book == r.cfg.book && InRange(t[id].index, r.next, r.cfg.end) ==> IsListed(r, t[id].index)
  }

  predicate IsPassed(r: BatchRun, index: int)
    requires r.pos <= |r.chapters|
  {
    exists k :: 0 <= k < r.pos && r.chapters[k].index == index
  }

  ghost predicate DoneNow(t: Table, r: BatchRun, k: nat)
    requires k < |r.chapters|
  {
    DoneAt(t, r.cfg.book, r.chapters[k].index)
  }

  /** Chapters passed are done or to be tried again, never both; the others are as they were listed. */
  ghost predicate Settled(t: Table, r: BatchRun) {
    r.pos <= |r.chapters| && PassedOk(t, r, r.pos) && AheadOk(t, r, r.pos) && TriedOk(r)
  }

  ghost predicate PassedOk(t: Table, r: BatchRun, pos: nat)
    requires pos <= |r.chapters|
  {
    forall k :: 0 <= k < pos ==> (DoneNow(t, r, k) <==> r.chapters[k].index !in r.retry)
  }

  ghost predicate AheadOk(t: Table, r: BatchRun, from: nat) {
    forall k :: from <= k < |r.chapters| ==> (DoneNow(t, r, k) <==> r.chapters[k].done)
  }

  predicate TriedOk(r: BatchRun)
    requires r.pos <= |r.chapters|
  {
    forall x :: x in r.retry ==> IsPassed(r, x)
  }

  /** Just past the chapters passed. */
  function Edge(r: BatchRun, seen: nat): int
    requires seen <= |r.chapters|
  {
    if seen == 0 then r.next else r.chapters[seen - 1].index + 1
  }

  ghost predicate Working(t: Table, r: BatchRun, seen: nat, c0: Option<Checkpoint>) {
    && r.next == FirstIndex(r.cfg, c0)
    && Listed(t, r) && Settled(t, r)
    && r.pos <= seen <= |r.chapters| && r.finalNext == Edge(r, seen)
    && r.pending <= r.pos
  }

  /** The run is at a chapter that is not done. */
  ghost predicate InHand(t: Table, r: BatchRun, c0: Option<Checkpoint>) {
    r.pos < |r.chapters| && !r.chapters[r.pos].done && Working(t, r, r.pos + 1, c0)
  }

  predicate Loaded(r: BatchRun, c0: Option<Checkpoint>) {
    if c0.Some? then r.version == Some(c0.value.version) else r.version.None?
  }

  /** Nobody else writes the checkpoint. */
  ghost predicate InStep(checkpoints: map<string, Checkpoint>, r: BatchRun, c0: Option<Checkpoint>) {
    && SameVersion(checkpoints, r.cfg.task, r.version)
    && (Loaded(r, c0) ==> Saved(checkpoints, r.cfg.task) == c0)
    && (c0.Some? ==> r.version.Some? && r.version.value >= c0.value.version)
    && (c0.Some? && !Loaded(r, c0) ==> r.pos > 0)
  }

  /** A run resumed at `n` begins with the first chapter that is to be tried again. */
  ghost predicate Resumes(r: BatchRun, n: int)
    requires r.pos <= |r.chapters|
  {
    && (r.retry == [] ==> n == Edge(r, r.pos))
    && (forall x :: x in r.retry ==> n <= x)
    && (r.retry != [] ==> forall k :: 0 <= k < |r.chapters| && n <= r.chapters[k].index ==> TriedBelow(r, r.chapters[k].index))
  }

  predicate TriedBelow(r: BatchRun, index: int) {
    exists x :: x in r.retry && x <= index
  }

  /** With nothing pending the checkpoint says what is so, unless it is still the one loaded. */
  ghost predicate UpToDate(t: Table, checkpoints: map<string, Checkpoint>, r: BatchRun, c0: Option<Checkpoint>) {
    r.pending == 0 && r.version.Some? ==>
      && r.cfg.task in checkpoints && r.pos <= |r.chapters|
      && Resumes(r, checkpoints[r.cfg.task].next)
      && r.failed == checkpoints[r.cfg.task].failed
      && if Loaded(r, c0) then forall k :: 0 <= k < r.pos ==> r.chapters[k].index in r.retry
         else Tallied(t, r.cfg, checkpoints[r.cfg.task].succeeded, checkpoints[r.cfg.task].failed)
  }

  ghost predicate Tallied(t: Table, cfg: Config, succeeded: nat, failed: nat) {
    succeeded == |Rows(t, cfg, Done)| && failed == |Rows(t, cfg, Failed)|
  }

  /** A save is due: a batch is full, or the list is at its end. */
  predicate SaveDue(r: BatchRun) {
    r.pending >= r.cfg.batchSize || (r.pos == |r.chapters| && (r.pending > 0 || r.version.None?))
  }

  ghost predicate CourseOf(t: Table, checkpoints: map<string, Checkpoint>, r: BatchRun, c0: Option<Checkpoint>) {
    match r.pc
    case Loading => r == Start(r.cfg) && Saved(checkpoints, r.cfg.task) == c0
    case Listing =>
      && Loaded(r, c0) && InStep(checkpoints, r, c0) && r.next == r.finalNext == FirstIndex(r.cfg, c0)
      && r.retry == [] && r.chapters == [] && r.pos == 0 && r.pending == 0
      && (c0.Some? ==> r.failed == c0.value.failed)
    case Visiting => Working(t, r, r.pos, c0) && InStep(checkpoints, r, c0) && UpToDate(t, checkpoints, r, c0) && r.pending < r.cfg.batchSize
    case Counting => Working(t, r, r.pos, c0) && InStep(checkpoints, r, c0) && SaveDue(r)
    case Saving => Working(t, r, r.pos, c0) && InStep(checkpoints, r, c0) && SaveDue(r) && Tallied(t, r.cfg, r.succeeded, r.failed)
    case Claiming => InHand(t, r, c0) && InStep(checkpoints, r, c0) && UpToDate(t, checkpoints, r, c0) && r.pending < r.cfg.batchSize
    case Processing(_) => InHand(t, r, c0) && InStep(checkpoints, r, c0)
    case Finishing(_, _) => InHand(t, r, c0) && InStep(checkpoints, r, c0)
    case Failing(_) => InHand(t, r, c0) && InStep(checkpoints, r, c0)
    case Releasing(_) => true
    case Ended(outcome) =>
      (outcome.Completed? || outcome.RecoverableFailed?) ==>
        && Working(t, r, r.pos, c0) && r.pos == |r.chapters| && InStep(checkpoints, r, c0) && UpToDate(t, checkpoints, r, c0)
        && r.pending == 0 && r.version.Some? && (outcome.Completed? <==> r.failed == 0 && r.retry == [])
  }

  /** The exception handler of `mark_done` is not run after the commit. */
  predicate Prompt(act: Act) {
    !(act.Go? && act.fault == Raised(Committed))
  }

  // ---------------------------------------------------------------- one step

  lemma SameListed(t: Table, r: BatchRun, r': BatchRun)
    requires Listed(t, r) && r'.chapters == r.chapters && r'.next == r.next && r'.cfg == r.cfg
    ensures Listed(t, r')
  {
    assert RisingList(r') && OnlyRows(t, r');
    forall id | id in t && t[id].book == r.cfg.book && InRange(t[id].index, r.next, r.cfg.end) ensures IsListed(r', t[id].index) {
      assert IsListed(r, t[id].index);
    }
  }

  lemma SameSettled(t: Table, r: BatchRun, r': BatchRun)
    requires Settled(t, r) && r'.chapters == r.chapters && r'.cfg == r.cfg && r'.pos == r.pos && r'.retry == r.retry
    ensures Settled(t, r')
  {
    forall x | x in r'.retry ensures IsPassed(r', x) {
      assert IsPassed(r, x);
    }
    forall k | 0 <= k < |r.chapters| ensures DoneNow(t, r', k) <==> DoneNow(t, r, k) {}
  }

  lemma SameCourse(t: Table, r: BatchRun, r': BatchRun, seen: nat, c0: Option<Checkpoint>)
    requires Working(t, r, seen, c0)
    requires r'.cfg == r.cfg && r'.next == r.next && r'.finalNext == r.finalNext && r'.chapters == r.chapters
    requires r'.pos == r.pos && r'.retry == r.retry && r'.pending <= r.pos
    ensures Working(t, r', seen, c0)
  {
    SameListed(t, r, r');
    SameSettled(t, r, r');
  }

  lemma LoadCourse(t: Table, checkpoints: map<string, Checkpoint>, r: BatchRun, c0: Option<Checkpoint>)
    requires r.pc.Loading? && CourseOf(t, checkpoints, r, c0)
    ensures CourseOf(t, checkpoints, Load(r, checkpoints), c0)
  {
  }

  lemma ListingListed(t: Table, r: BatchRun)
    requires List(r, t).pc.Visiting?
    ensures Listed(t, List(r, t)) && AheadOk(t, List(r, t), 0)
  {
    var r' := List(r, t);
    if !(r.cfg.end.Some? && r.next > r.cfg.end.value) {
      ListingIsRight(t, r.cfg.book, r.next, r.cfg.end);
      forall id | id in t && t[id].book == r.cfg.book && InRange(t[id].index, r.next, r.cfg.end) ensures IsListed(r', t[id].index) {
        var k :| 0 <= k < |r'.chapters| && r'.chapters[k].index == t[id].index;
      }
    }
  }

  lemma ListCourse(t: Table, checkpoints: map<string, Checkpoint>, r: BatchRun, c0: Option<Checkpoint>)
    requires r.pc.Listing? && CourseOf(t, checkpoints, r, c0) && r.cfg.batchSize > 0
    ensures CourseOf(t, checkpoints, List(r, t), c0)
  {
    if List(r, t).pc.Visiting? {
      ListingListed(t, r);
      assert TriedOk(List(r, t)) && PassedOk(t, List(r, t), 0);
    }
  }

  /** Going on by one in the list. */
  lemma EdgeMoves(t: Table, r: BatchRun)
    requires Listed(t, r) && r.pos < |r.chapters|
    ensures Edge(r, r.pos) <= r.chapters[r.pos].index < Edge(r, r.pos + 1)
  {
    if r.pos > 0 {
      assert r.chapters[r.pos - 1].index < r.chapters[r.pos].index;
    } else {
      assert InRange(r.chapters[0].index, r.next, r.cfg.end);
    }
  }

  /** The chapter at hand is seen. */
  lemma SeenCourse(t: Table, r: BatchRun, r': BatchRun, c0: Option<Checkpoint>)
    requires Working(t, r, r.pos, c0) && r.pos < |r.chapters| && !r.chapters[r.pos].done
    requires r' == r.(finalNext := Max(r.finalNext, r.chapters[r.pos].index + 1), pc := r'.pc)
    ensures InHand(t, r', c0)
  {
    EdgeMoves(t, r);
    SameListed(t, r, r');
    SameSettled(t, r, r');
  }

  lemma NotTriedYet(r: BatchRun)
    requires RisingList(r) && r.pos < |r.chapters| && TriedOk(r)
    ensures r.chapters[r.pos].index !in r.retry
    ensures forall k :: 0 <= k < r.pos ==> r.chapters[k].index != r.chapters[r.pos].index
  {
    var index := r.chapters[r.pos].index;
    forall k | 0 <= k < r.pos ensures r.chapters[k].index != index {
      assert r.chapters[k].index < r.chapters[r.pos].index;
    }
    assert index in r.retry ==> IsPassed(r, index);
  }

  /** The list of chapters to try again after one more has been passed. */
  function Tried(r: BatchRun, done: bool): seq<int>
    requires r.pos < |r.chapters|
  {
    if done then r.retry else r.retry + [r.chapters[r.pos].index]
  }

  lemma PassTried(r: BatchRun, r': BatchRun, done: bool)
    requires r.pos < |r.chapters| && TriedOk(r)
    requires r'.chapters == r.chapters && r'.pos == r.pos + 1 && r'.retry == Tried(r, done)
    ensures TriedOk(r')
  {
    forall x | x in r'.retry ensures IsPassed(r', x) {
      if x in r.retry {
        assert IsPassed(r, x);
        var k :| 0 <= k < r.pos && r.chapters[k].index == x;
        assert r'.chapters[k].index == x;
      } else {
        assert r'.chapters[r.pos].index == x;
      }
    }
  }

  lemma PassPassed(t: Table, r: BatchRun, r': BatchRun, done: bool)
    requires RisingList(r) && r.pos < |r.chapters| && TriedOk(r)
    requires PassedOk(t, r, r.pos) && DoneNow(t, r, r.pos) == done
    requires r'.cfg == r.cfg && r'.chapters == r.chapters && r'.pos == r.pos + 1 && r'.retry == Tried(r, done)
    ensures PassedOk(t, r', r'.pos)
  {
    NotTriedYet(r);
    var index := r.chapters[r.pos].index;
    assert !done ==> r'.retry[|r.retry|] == index;
    forall k | 0 <= k < r'.pos ensures DoneNow(t, r', k) <==> r'.chapters[k].index !in r'.retry {
      assert DoneNow(t, r', k) <==> DoneNow(t, r, k);
      if k < r.pos {
        assert r.chapters[k].index in r'.retry <==> r.chapters[k].index in r.retry;
      }
    }
  }

  lemma PassAhead(t: Table, r: BatchRun, r': BatchRun)
    requires AheadOk(t, r, r.pos + 1) && r'.cfg == r.cfg && r'.chapters == r.chapters && r'.pos == r.pos + 1
    ensures AheadOk(t, r', r'.pos)
  {
    forall k | r'.pos <= k < |r'.chapters| ensures DoneNow(t, r', k) <==> r'.chapters[k].done {
      assert DoneNow(t, r', k) <==> DoneNow(t, r, k);
    }
  }

  /** What a passed chapter leaves, given how it stands now. */
  lemma PassCourse(t: Table, r: BatchRun, r': BatchRun, done: bool, c0: Option<Checkpoint>)
    requires Listed(t, r) && r.next == FirstIndex(r.cfg, c0) && r.pos < |r.chapters| && r.pending <= r.pos
    requires PassedOk(t, r, r.pos) && AheadOk(t, r, r.pos + 1) && TriedOk(r) && DoneNow(t, r, r.pos) == done
    requires r' == r.(pos := r.pos + 1, pc := r'.pc, pending := r'.pending, finalNext := Edge(r, r.pos + 1), retry := Tried(r, done))
    requires r'.pending <= r'.pos
    ensures Working(t, r', r'.pos, c0)
  {
    SameListed(t, r, r');
    PassTried(r, r', done);
    PassPassed(t, r, r', done);
    PassAhead(t, r, r');
  }

  lemma SkipCourse(t: Table, checkpoints: map<string, Checkpoint>, r: BatchRun, c0: Option<Checkpoint>)
    requires r.pc.Visiting? && CourseOf(t, checkpoints, r, c0) && r.pos < |r.chapters| && r.chapters[r.pos].done
    ensures CourseOf(t, checkpoints, Visit(r), c0)
  {
    EdgeMoves(t, r);
    assert DoneNow(t, r, r.pos);
    PassCourse(t, r, Visit(r), true, c0);
  }

  lemma VisitCourse(t: Table, checkpoints: map<string, Checkpoint>, r: BatchRun, c0: Option<Checkpoint>)
    requires r.pc.Visiting? && CourseOf(t, checkpoints, r, c0)
    ensures CourseOf(t, checkpoints, Visit(r), c0)
  {
    var r' := Visit(r);
    if r.pos >= |r.chapters| {
      SameCourse(t, r, r', r.pos, c0);
      if r'.pc.Ended? {
        SameDate(t, checkpoints, r, r', c0);
      }
    } else if r.chapters[r.pos].done {
      SkipCourse(t, checkpoints, r, c0);
    } else {
      SeenCourse(t, r, r', c0);
      SameDate(t, checkpoints, r, r', c0);
    }
  }

  lemma SameDate(t: Table, checkpoints: map<string, Checkpoint>, r: BatchRun, r': BatchRun, c0: Option<Checkpoint>)
    requires UpToDate(t, checkpoints, r, c0)
    requires r'.cfg == r.cfg && r'.version == r.version && r'.pending == r.pending && r'.failed == r.failed && r'.next == r.next
    requires r'.chapters == r.chapters && r'.pos == r.pos && r'.retry == r.retry
    ensures UpToDate(t, checkpoints, r', c0)
  {
    if r.pending == 0 && r.version.Some? && r.retry != [] {
      forall k | 0 <= k < |r.chapters| && checkpoints[r.cfg.task].next <= r.chapters[k].index
        ensures TriedBelow(r', r.chapters[k].index)
      {
        assert TriedBelow(r, r.chapters[k].index);
      }
    }
  }

  lemma CountCourse(w: World, r: BatchRun, act: Act, c0: Option<Checkpoint>)
    requires r.pc.Counting? && CourseOf(w.store.table, w.checkpoints, r, c0)
    ensures CourseOf(w.store.table, w.checkpoints, NextRun(w, r, act), c0)
  {
    CountsAreRows(w.store.table, r.cfg);
    SameCourse(w.store.table, r, NextRun(w, r, act), r.pos, c0);
  }

  /** What is saved is where a resumed run should begin. */
  lemma SavedResumes(r: BatchRun, r': BatchRun)
    requires r.pos <= |r.chapters| && r.finalNext == Edge(r, r.pos)
    requires r'.chapters == r.chapters && r'.pos == r.pos && r'.retry == r.retry && r'.next == r.next
    ensures Resumes(r', NextToSave(r))
  {
    var n := NextToSave(r);
    if r.retry != [] {
      forall k | 0 <= k < |r.chapters| && n <= r.chapters[k].index ensures TriedBelow(r', r.chapters[k].index) {
        assert n in r'.retry;
      }
    }
  }

  lemma SaveCourse(w: World, r: BatchRun, act: Act, c0: Option<Checkpoint>)
    requires r.pc.Saving? && CourseOf(w.store.table, w.checkpoints, r, c0) && r.cfg.batchSize > 0
    ensures CourseOf(w.store.table, NextCheckpoints(w, r, act), NextRun(w, r, act), c0)
  {
    if Saves(w, r, act) {
      SameCourse(w.store.table, r, NextRun(w, r, act), r.pos, c0);
      SavedResumes(r, NextRun(w, r, act));
    }
  }

  // ---------------------------------------------------------------- a step in a chapter

  lemma OtherIndex(r: BatchRun, k: nat)
    requires RisingList(r) && r.pos < |r.chapters| && k < |r.chapters| && k != r.pos
    ensures r.chapters[k].index != r.chapters[r.pos].index
  {
    assert if k < r.pos then r.chapters[k].index < r.chapters[r.pos].index else r.chapters[r.pos].index < r.chapters[k].index;
  }

  lemma ListedKept(t: Table, t': Table, r: BatchRun)
    requires Listed(t, r) && Grows(t, t') && r.pos < |r.chapters|
    requires OthersSame(t, t', r.cfg.book, r.chapters[r.pos].index)
    ensures Listed(t', r)
  {
    forall k | 0 <= k < |r.chapters| ensures RowAt(t', r.cfg.book, r.chapters[k].index).Some? {
      RowAtStays(t, t', r.cfg.book, r.chapters[k].index);
    }
    forall id | id in t' && t'[id].book == r.cfg.book && InRange(t'[id].index, r.next, r.cfg.end) ensures IsListed(r, t'[id].index) {
      if At(t'[id], r.cfg.book, r.chapters[r.pos].index) {
        assert r.chapters[r.pos].index == t'[id].index;
      } else {
        assert id in t && t[id] == t'[id];
      }
    }
  }

  /** Other chapters stand as before. */
  lemma OthersKept(t: Table, t': Table, r: BatchRun)
    requires RisingList(r) && Grows(t, t') && r.pos < |r.chapters|
    requires OthersSame(t, t', r.cfg.book, r.chapters[r.pos].index)
    requires PassedOk(t, r, r.pos) && AheadOk(t, r, r.pos)
    ensures PassedOk(t', r, r.pos) && AheadOk(t', r, r.pos + 1)
  {
    forall k | 0 <= k < |r.chapters| && k != r.pos ensures DoneNow(t', r, k) <==> DoneNow(t, r, k) {
      OtherIndex(r, k);
      OtherDoneSame(t, t', r.cfg.book, r.chapters[r.pos].index, r.chapters[k].index);
    }
  }

  /** The chapter at hand is still not done. */
  lemma StillInHand(t: Table, t': Table, r: BatchRun, pc: Pc, c0: Option<Checkpoint>)
    requires InHand(t, r, c0) && Grows(t, t') && OthersSame(t, t', r.cfg.book, r.chapters[r.pos].index)
    requires !DoneAt(t', r.cfg.book, r.chapters[r.pos].index)
    ensures InHand(t', r.(pc := pc), c0)
  {
    ListedKept(t, t', r);
    OthersKept(t, t', r);
    HandAhead(t', r);
    assert Working(t', r, r.pos + 1, c0);
    SameCourse(t', r, r.(pc := pc), r.pos + 1, c0);
  }

  lemma HandAhead(t: Table, r: BatchRun)
    requires r.pos < |r.chapters| && !r.chapters[r.pos].done && !DoneNow(t, r, r.pos) && AheadOk(t, r, r.pos + 1)
    ensures AheadOk(t, r, r.pos)
  {
    forall k | r.pos <= k < |r.chapters| ensures DoneNow(t, r, k) <==> r.chapters[k].done {
      if k != r.pos {
        assert r.pos + 1 <= k;
      }
    }
  }

  lemma NotDoneYet(t: Table, r: BatchRun, c0: Option<Checkpoint>)
    requires InHand(t, r, c0)
    ensures !DoneAt(t, r.cfg.book, r.chapters[r.pos].index)
  {
    assert !DoneNow(t, r, r.pos);
  }

  /** With something pending a checkpoint need not be up to date. */
  lemma PendingCourse(t: Table, checkpoints: map<string, Checkpoint>, r: BatchRun, c0: Option<Checkpoint>)
    requires Working(t, r, r.pos, c0) && InStep(checkpoints, r, c0) && r.pending > 0
    requires r.pc == if r.pending >= r.cfg.batchSize then Counting else Visiting
    ensures CourseOf(t, checkpoints, r, c0)
  {
  }

  /** The chapter at hand has been dealt with. */
  lemma PassedCourse(t: Table, t': Table, checkpoints: map<string, Checkpoint>, r: BatchRun, r': BatchRun, done: bool, c0: Option<Checkpoint>)
    requires InHand(t, r, c0) && InStep(checkpoints, r, c0)
    requires Grows(t, t') && OthersSame(t, t', r.cfg.book, r.chapters[r.pos].index)
    requires DoneAt(t', r.cfg.book, r.chapters[r.pos].index) == done
    requires r' == Advance(r.(pending := r.pending + 1, retry := Tried(r, done)))
    ensures CourseOf(t', checkpoints, r', c0)
  {
    ListedKept(t, t', r);
    OthersKept(t, t', r);
    PassCourse(t', r, r', done, c0);
    PendingCourse(t', checkpoints, r', c0);
  }

  lemma BusyCourse(t: Table, checkpoints: map<string, Checkpoint>, r: BatchRun, c0: Option<Checkpoint>)
    requires r.pc.Claiming? && CourseOf(t, checkpoints, r, c0)
    ensures CourseOf(t, checkpoints, Advance(Retry(r)), c0)
  {
    var r' := Advance(Retry(r));
    NotDoneYet(t, r, c0);
    PassCourse(t, r, r', false, c0);
    if r.pending == 0 && r.version.Some? {
      NotPastTheBusy(t, r, checkpoints[r.cfg.task].next);
      BusyResumes(r, r', checkpoints[r.cfg.task].next);
      BusyDate(t, checkpoints, r, r', c0);
    }
  }

  lemma TriedAreBelow(r: BatchRun, x: int)
    requires RisingList(r) && r.pos < |r.chapters| && TriedOk(r) && x in r.retry
    ensures x < r.chapters[r.pos].index
  {
    assert IsPassed(r, x);
    var k :| 0 <= k < r.pos && r.chapters[k].index == x;
  }

  lemma BelowEdge(r: BatchRun, k: nat)
    requires RisingList(r) && r.pos <= |r.chapters| && k < r.pos
    ensures r.chapters[k].index < Edge(r, r.pos)
  {
    assert k < r.pos - 1 ==> r.chapters[k].index < r.chapters[r.pos - 1].index;
  }

  lemma NotPastTheBusy(t: Table, r: BatchRun, n: int)
    requires Listed(t, r) && r.pos < |r.chapters| && TriedOk(r) && Resumes(r, n)
    ensures n <= r.chapters[r.pos].index
  {
    EdgeMoves(t, r);
    if r.retry != [] {
      TriedAreBelow(r, r.retry[0]);
      assert r.retry[0] in r.retry;
    }
  }

  lemma BusyBelow(r: BatchRun, r': BatchRun, n: int, k: nat)
    requires RisingList(r) && r.pos < |r.chapters| && Resumes(r, n) && k < |r.chapters| && n <= r.chapters[k].index
    requires r'.retry == r.retry + [r.chapters[r.pos].index]
    ensures TriedBelow(r', r.chapters[k].index)
  {
    if r.retry != [] {
      assert TriedBelow(r, r.chapters[k].index);
      var x :| x in r.retry && x <= r.chapters[k].index;
      assert x in r'.retry;
    } else {
      if k < r.pos {
        BelowEdge(r, k);
      }
      assert r.pos < k ==> r.chapters[r.pos].index < r.chapters[k].index;
      assert r'.retry[|r.retry|] == r.chapters[r.pos].index;
      assert r.chapters[r.pos].index in r'.retry && r.chapters[r.pos].index <= r.chapters[k].index;
    }
  }

  /** A chapter that is busy is where a resumed run should begin, unless there is one before it. */
  lemma BusyResumes(r: BatchRun, r': BatchRun, n: int)
    requires RisingList(r) && r.pos < |r.chapters| && n <= r.chapters[r.pos].index && Resumes(r, n)
    requires r' == r.(retry := r.retry + [r.chapters[r.pos].index], pos := r.pos + 1, pc := r'.pc)
    ensures Resumes(r', n)
  {
    assert r'.retry[|r.retry|] == r.chapters[r.pos].index;
    forall k | 0 <= k < |r'.chapters| && n <= r'.chapters[k].index ensures TriedBelow(r', r'.chapters[k].index) {
      BusyBelow(r, r', n, k);
    }
  }

  lemma AllTried(r: BatchRun, r': BatchRun)
    requires r.pos < |r.chapters| && r'.chapters == r.chapters && r'.retry == r.retry + [r.chapters[r.pos].index] && r'.pos == r.pos + 1
    requires forall k :: 0 <= k < r.pos ==> r.chapters[k].index in r.retry
    ensures forall k :: 0 <= k < r'.pos ==> r'.chapters[k].index in r'.retry
  {
    assert r'.retry[|r.retry|] == r.chapters[r.pos].index;
    forall k | 0 <= k < r'.pos ensures r'.chapters[k].index in r'.retry {
      assert k < r.pos ==> r.chapters[k].index in r.retry;
    }
  }

  lemma BusyDate(t: Table, checkpoints: map<string, Checkpoint>, r: BatchRun, r': BatchRun, c0: Option<Checkpoint>)
    requires r.pos < |r.chapters| == |r'.chapters| && r.pos < r'.pos <= |r.chapters| && r.cfg.task in checkpoints && Resumes(r', checkpoints[r.cfg.task].next)
    requires UpToDate(t, checkpoints, r, c0) && r.pending == 0 && r.version.Some?
    requires r' == r.(retry := r.retry + [r.chapters[r.pos].index], pos := r.pos + 1, pc := r'.pc)
    ensures UpToDate(t, checkpoints, r', c0)
  {
    if Loaded(r, c0) {
      AllTried(r, r');
    }
  }

  // the calls themselves, whoever makes them

  lemma ClaimDecidesNothing(s: Store, c: Call)
    requires TableInv(s) && c.ClaimCall? && !DoneAt(s.table, c.book, c.index)
    ensures var s' := Apply(s, c);
      && TableInv(s') && Grows(s.table, s'.table) && OthersSame(s.table, s'.table, c.book, c.index)
      && !DoneAt(s'.table, c.book, c.index)
  {
    ApplyKeepsTable(s, c);
    CallTouchesOneChapter(s, c, c.book, c.index);
    var s' := Apply(s, c);
    forall id | id in s'.table && At(s'.table[id], c.book, c.index) ensures !s'.table[id].status.Done? {
      assert id in s.table && At(s.table[id], c.book, c.index);
    }
  }

  lemma BusyChangesNothing(s: Store, book: int, index: int, owner: string, now: int, seconds: int, token: nat)
    requires !ClaimChapter(s, book, index, owner, now, seconds, token).1.Granted?
    ensures ClaimChapter(s, book, index, owner, now, seconds, token).0 == s
  {
  }

  lemma FailureFinishesNothing(s: Store, c: Call)
    requires TableInv(s) && c.FailedCall? && !DoneAt(s.table, c.book, c.index)
    ensures var s' := Apply(s, c);
      && TableInv(s') && Grows(s.table, s'.table) && OthersSame(s.table, s'.table, c.book, c.index)
      && !DoneAt(s'.table, c.book, c.index)
  {
    ApplyKeepsTable(s, c);
    CallTouchesOneChapter(s, c, c.book, c.index);
    var s' := Apply(s, c);
    forall id | id in s'.table && At(s'.table[id], c.book, c.index) ensures !s'.table[id].status.Done? {
      assert id in s.table && At(s.table[id], c.book, c.index);
    }
  }

  lemma ReplyDecides(s: Store, q: MarkRequest, fault: Fault)
    requires TableInv(s) && fault != Raised(Committed) && !DoneAt(s.table, q.book, q.index)
    ensures var (s', reply) := MarkDone(s, q, fault);
      && TableInv(s') && Grows(s.table, s'.table) && OthersSame(s.table, s'.table, q.book, q.index)
      && (!reply.Dead? ==> (DoneAt(s'.table, q.book, q.index) <==> reply.Stored? || reply.Kept?))
  {
    ApplyKeepsTable(s, DoneCall(q, fault));
    CallTouchesOneChapter(s, DoneCall(q, fault), q.book, q.index);
    MarkedIsDone(s, q, fault);
    UnmarkedChangesNothing(s, q, fault);
  }

  lemma UnmarkedChangesNothing(s: Store, q: MarkRequest, fault: Fault)
    requires fault != Raised(Committed)
    ensures var (s', reply) := MarkDone(s, q, fault); !reply.Stored? && !reply.Kept? && !reply.Dead? ==> s'.table == s.table
  {
  }

  lemma GrantedStep(s: Store, r: BatchRun, act: Act)
    requires TableInv(s) && r.pc.Claiming? && r.pos < |r.chapters| && act.Go?
    requires !DoneAt(s.table, r.cfg.book, r.chapters[r.pos].index)
    ensures var (s', reply) := ClaimChapter(s, r.cfg.book, r.chapters[r.pos].index, r.cfg.task, act.now, r.cfg.seconds, act.token);
      && s' == NextStore(s, r, act) && NextInChapter(s, r, act) == AfterClaim(r, reply)
      && Grows(s.table, s'.table) && OthersSame(s.table, s'.table, r.cfg.book, r.chapters[r.pos].index)
      && !DoneAt(s'.table, r.cfg.book, r.chapters[r.pos].index)
      && (!reply.Granted? ==> s' == s)
  {
    ClaimDecidesNothing(s, CallOf(r, act).value);
    if !ClaimChapter(s, r.cfg.book, r.chapters[r.pos].index, r.cfg.task, act.now, r.cfg.seconds, act.token).1.Granted? {
      BusyChangesNothing(s, r.cfg.book, r.chapters[r.pos].index, r.cfg.task, act.now, r.cfg.seconds, act.token);
    }
  }

  lemma ClaimCourse(w: World, r: BatchRun, act: Act, c0: Option<Checkpoint>)
    requires TableInv(w.store) && r.pc.Claiming? && CourseOf(w.store.table, w.checkpoints, r, c0)
    ensures CourseOf(NextStore(w.store, r, act).table, w.checkpoints, NextInChapter(w.store, r, act), c0)
  {
    if act.Go? {
      NotDoneYet(w.store.table, r, c0);
      GrantedStep(w.store, r, act);
      var t, t' := w.store.table, NextStore(w.store, r, act).table;
      var reply := ClaimChapter(w.store, r.cfg.book, r.chapters[r.pos].index, r.cfg.task, act.now, r.cfg.seconds, act.token).1;
      if reply.Granted? {
        StillInHand(t, t', r, Processing(reply.lease), c0);
      } else {
        BusyCourse(t, w.checkpoints, r, c0);
      }
    }
  }

  /** After a commit that was tried, given what it did. */
  lemma StoredCourse(t: Table, t': Table, checkpoints: map<string, Checkpoint>, r: BatchRun, lease: Lease, reply: MarkReply,
                     interrupt: bool, c0: Option<Checkpoint>)
    requires InHand(t, r, c0) && InStep(checkpoints, r, c0)
    requires Grows(t, t') && OthersSame(t, t', r.cfg.book, r.chapters[r.pos].index)
    requires DoneAt(t', r.cfg.book, r.chapters[r.pos].index) && (reply.Stored? || reply.Kept?)
    ensures CourseOf(t', checkpoints, AfterMark(r, lease, reply, interrupt), c0)
  {
    PassedCourse(t, t', checkpoints, r, AfterMark(r, lease, reply, interrupt), true, c0);
  }

  lemma RepliedCourse(t: Table, t': Table, checkpoints: map<string, Checkpoint>, r: BatchRun, lease: Lease, reply: MarkReply,
                      interrupt: bool, c0: Option<Checkpoint>)
    requires InHand(t, r, c0) && InStep(checkpoints, r, c0)
    requires Grows(t, t') && OthersSame(t, t', r.cfg.book, r.chapters[r.pos].index)
    requires !reply.Dead? ==> (DoneAt(t', r.cfg.book, r.chapters[r.pos].index) <==> reply.Stored? || reply.Kept?)
    ensures CourseOf(t', checkpoints, AfterMark(r, lease, reply, interrupt), c0)
  {
    if reply.Stored? || reply.Kept? {
      StoredCourse(t, t', checkpoints, r, lease, reply, interrupt, c0);
    } else if !reply.Dead? && !interrupt {
      FailingCourse(t, t', checkpoints, r, lease, c0);
    }
  }

  lemma FailingCourse(t: Table, t': Table, checkpoints: map<string, Checkpoint>, r: BatchRun, lease: Lease, c0: Option<Checkpoint>)
    requires InHand(t, r, c0) && InStep(checkpoints, r, c0)
    requires Grows(t, t') && OthersSame(t, t', r.cfg.book, r.chapters[r.pos].index)
    requires !DoneAt(t', r.cfg.book, r.chapters[r.pos].index)
    ensures CourseOf(t', checkpoints, r.(pc := Failing(lease)), c0)
  {
    StillInHand(t, t', r, Failing(lease), c0);
  }

  lemma FinishStep(s: Store, r: BatchRun, act: Act)
    requires TableInv(s) && r.pc.Finishing? && r.pos < |r.chapters| && act.Go? && Prompt(act)
    requires !DoneAt(s.table, r.cfg.book, r.chapters[r.pos].index)
    ensures var t' := NextStore(s, r, act).table;
      var reply := MarkDone(s, Request(r, r.pc.content, r.pc.lease, act.now, act.suffix), act.fault).1;
      && Grows(s.table, t') && OthersSame(s.table, t', r.cfg.book, r.chapters[r.pos].index)
      && (!reply.Dead? ==> (DoneAt(t', r.cfg.book, r.chapters[r.pos].index) <==> reply.Stored? || reply.Kept?))
      && NextInChapter(s, r, act) == AfterMark(r, r.pc.lease, reply, act.interrupt)
  {
    ReplyDecides(s, Request(r, r.pc.content, r.pc.lease, act.now, act.suffix), act.fault);
  }

  lemma FinishCourse(w: World, r: BatchRun, act: Act, c0: Option<Checkpoint>)
    requires TableInv(w.store) && r.pc.Finishing? && InHand(w.store.table, r, c0) && InStep(w.checkpoints, r, c0) && Prompt(act)
    ensures CourseOf(NextStore(w.store, r, act).table, w.checkpoints, NextInChapter(w.store, r, act), c0)
  {
    if act.Go? {
      NotDoneYet(w.store.table, r, c0);
      FinishStep(w.store, r, act);
      var reply := MarkDone(w.store, Request(r, r.pc.content, r.pc.lease, act.now, act.suffix), act.fault).1;
      RepliedCourse(w.store.table, NextStore(w.store, r, act).table, w.checkpoints, r, r.pc.lease, reply, act.interrupt, c0);
    }
  }

  lemma FailStep(s: Store, r: BatchRun, act: Act)
    requires TableInv(s) && r.pc.Failing? && r.pos < |r.chapters| && !DoneAt(s.table, r.cfg.book, r.chapters[r.pos].index) && act.Go?
    ensures var t' := NextStore(s, r, act).table;
      && Grows(s.table, t') && OthersSame(s.table, t', r.cfg.book, r.chapters[r.pos].index)
      && !DoneAt(t', r.cfg.book, r.chapters[r.pos].index)
      && NextInChapter(s, r, act) == Advance(r.(pending := r.pending + 1, retry := Tried(r, false)))
  {
    FailureFinishesNothing(s, CallOf(r, act).value);
  }

  lemma FailCourse(w: World, r: BatchRun, act: Act, c0: Option<Checkpoint>)
    requires TableInv(w.store) && r.pc.Failing? && InHand(w.store.table, r, c0) && InStep(w.checkpoints, r, c0)
    ensures CourseOf(NextStore(w.store, r, act).table, w.checkpoints, NextInChapter(w.store, r, act), c0)
  {
    if act.Go? {
      NotDoneYet(w.store.table, r, c0);
      FailStep(w.store, r, act);
      PassedCourse(w.store.table, NextStore(w.store, r, act).table, w.checkpoints, r, NextInChapter(w.store, r, act), false, c0);
    }
  }

  lemma ProcessCourse(w: World, r: BatchRun, act: Act, c0: Option<Checkpoint>)
    requires r.pc.Processing? && CourseOf(w.store.table, w.checkpoints, r, c0)
    ensures CourseOf(w.store.table, w.checkpoints, NextInChapter(w.store, r, act), c0)
  {
    SameCourse(w.store.table, r, NextInChapter(w.store, r, act), r.pos + 1, c0);
  }

  lemma NextInChapterCourse(w: World, r: BatchRun, act: Act, c0: Option<Checkpoint>)
    requires TableInv(w.store) && CourseOf(w.store.table, w.checkpoints, r, c0) && Prompt(act)
    requires InChapter(r.pc) && r.pos < |r.chapters|
    ensures CourseOf(NextStore(w.store, r, act).table, w.checkpoints, NextInChapter(w.store, r, act), c0)
  {
    if r.pc.Claiming? {
      ClaimCourse(w, r, act, c0);
    } else if r.pc.Processing? {
      ProcessCourse(w, r, act, c0);
    } else if r.pc.Finishing? {
      FinishCourse(w, r, act, c0);
    } else if r.pc.Failing? {
      FailCourse(w, r, act, c0);
    }
  }

  lemma LookStep(w: World, r: BatchRun, act: Act, c0: Option<Checkpoint>)
    requires r.pc.Visiting? && CourseOf(w.store.table, w.checkpoints, r, c0)
    ensures CourseOf(w.store.table, NextCheckpoints(w, r, act), NextRun(w, r, act), c0)
  {
    if !act.Interrupted? || r.pos >= |r.chapters| {
      VisitCourse(w.store.table, w.checkpoints, r, c0);
    }
  }

  lemma FirstSteps(w: World, r: BatchRun, act: Act, c0: Option<Checkpoint>)
    requires CourseOf(w.store.table, w.checkpoints, r, c0) && r.cfg.batchSize > 0 && (r.pc.Loading? || r.pc.Listing?)
    ensures CourseOf(w.store.table, NextCheckpoints(w, r, act), NextRun(w, r, act), c0)
  {
    if r.pc.Loading? {
      LoadCourse(w.store.table, w.checkpoints, r, c0);
    } else {
      ListCourse(w.store.table, w.checkpoints, r, c0);
    }
  }

  lemma SavingSteps(w: World, r: BatchRun, act: Act, c0: Option<Checkpoint>)
    requires CourseOf(w.store.table, w.checkpoints, r, c0) && r.cfg.batchSize > 0 && (r.pc.Counting? || r.pc.Saving?)
    ensures CourseOf(w.store.table, NextCheckpoints(w, r, act), NextRun(w, r, act), c0)
  {
    if r.pc.Counting? {
      CountCourse(w, r, act, c0);
    } else {
      SaveCourse(w, r, act, c0);
    }
  }

  lemma QuietCourse(w: World, r: BatchRun, act: Act, c0: Option<Checkpoint>)
    requires CourseOf(w.store.table, w.checkpoints, r, c0) && r.cfg.batchSize > 0 && !InChapter(r.pc)
    ensures CourseOf(w.store.table, NextCheckpoints(w, r, act), NextRun(w, r, act), c0)
  {
    if r.pc.Loading? || r.pc.Listing? {
      FirstSteps(w, r, act, c0);
    } else if r.pc.Visiting? {
      LookStep(w, r, act, c0);
    } else if r.pc.Counting? || r.pc.Saving? {
      SavingSteps(w, r, act, c0);
    }
  }

  lemma WhereItActs(w: World, r: BatchRun, act: Act)
    ensures InChapter(r.pc) && r.pos < |r.chapters| ==> NextRun(w, r, act) == NextInChapter(w.store, r, act)
    ensures InChapter(r.pc) && r.pos >= |r.chapters| ==> NextRun(w, r, act) == r && NextStore(w.store, r, act) == w.store
    ensures InChapter(r.pc) ==> NextCheckpoints(w, r, act) == w.checkpoints
    ensures !InChapter(r.pc) ==> NextStore(w.store, r, act) == w.store
  {
  }

  lemma NextCourse(w: World, r: BatchRun, act: Act, c0: Option<Checkpoint>)
    requires TableInv(w.store) && CourseOf(w.store.table, w.checkpoints, r, c0) && r.cfg.batchSize > 0 && Prompt(act)
    ensures CourseOf(NextStore(w.store, r, act).table, NextCheckpoints(w, r, act), NextRun(w, r, act), c0)
  {
    WhereItActs(w, r, act);
    if !InChapter(r.pc) {
      QuietCourse(w, r, act, c0);
    } else if r.pos < |r.chapters| {
      NextInChapterCourse(w, r, act, c0);
    }
  }
}
