/** How a batch run ends when nobody interferes: which runs complete, what their checkpoint says, and
 *  that a run which is not stopped does end. The outcome is told from the rows and the checkpoint. */
module BatchAnswers {
  import opened Basics
  import opened ChapterStore
  import opened ChapterLaws
  import opened ChapterAnswers
  import opened BatchMachine
  import opened BatchLaws
  import opened BatchCourse

  // ---------------------------------------------------------------- what a save records

  /** The two steps of a save, with anything in between: it is accepted exactly when the version is the
   *  one the run knows, and then records how many rows of the range were done and how many failed when
   *  they were counted, and the first chapter to be tried again or else the end of the work. */
  lemma SaveRecords(w: World, run: nat, counting: Act, v: World, saving: Act)
    requires run in w.runs && w.runs[run].pc.Counting? && run in v.runs
    requires v.runs[run] == Take(w, RunStep(run, counting)).runs[run] && !saving.Interrupted?
    ensures var r := w.runs[run];
      var u := Take(v, RunStep(run, saving));
      && u.store == v.store
      && (SameVersion(v.checkpoints, r.cfg.task, r.version) ==>
           && r.cfg.task in u.checkpoints && u.runs[run].pc == Visiting && u.runs[run].pending == 0
           && var c := u.checkpoints[r.cfg.task];
             && u.checkpoints == v.checkpoints[r.cfg.task := c]
             && c.version == (if r.version.Some? then r.version.value + 1 else 0)
             && c.succeeded == |Rows(w.store.table, r.cfg, Done)|
             && c.failed == |Rows(w.store.table, r.cfg, Failed)|
             && (r.retry == [] ==> c.next == r.finalNext)
             && (r.retry != [] ==> c.next in r.retry && forall x :: x in r.retry ==> c.next <= x))
      && (!SameVersion(v.checkpoints, r.cfg.task, r.version) ==> u.checkpoints == v.checkpoints && u.runs[run].pc == Ended(Stopped))
  {
    CountsAreRows(w.store.table, w.runs[run].cfg);
  }

  // ---------------------------------------------------------------- a whole run

  /** A run that nobody interferes with, whose checkpoint was `c0` when it began. */
  ghost predicate OnCourse(w: World, run: nat, cfg: Config, c0: Option<Checkpoint>) {
    && TableInv(w.store) && ValidConfig(cfg)
    && run in w.runs && w.runs[run].cfg == cfg && CourseOf(w.store.table, w.checkpoints, w.runs[run], c0)
  }

  /** No exception handler runs after a commit. */
  predicate AllPrompt(steps: seq<Step>) {
    forall k :: 0 <= k < |steps| && steps[k].RunStep? ==> Prompt(steps[k].act)
  }

  lemma StepOnCourse(w: World, run: nat, act: Act, cfg: Config, c0: Option<Checkpoint>)
    requires OnCourse(w, run, cfg, c0) && Prompt(act)
    ensures OnCourse(Take(w, RunStep(run, act)), run, cfg, c0)
  {
    var r := w.runs[run];
    NextStoreGrows(w.store, r, act);
    NextRunKeepsCfg(w, r, act);
    NextCourse(w, r, act, c0);
  }

  lemma {:induction false} PlayOnCourse(w: World, steps: seq<Step>, run: nat, cfg: Config, c0: Option<Checkpoint>)
    requires OnCourse(w, run, cfg, c0) && Undisturbed(steps, run) && AllPrompt(steps)
    ensures OnCourse(Play(w, steps), run, cfg, c0)
    decreases |steps|
  {
    if steps != [] {
      var before, last := steps[..|steps| - 1], steps[|steps| - 1];
      PlayOnCourse(w, before, run, cfg, c0);
      if last.RunStep? {
        StepOnCourse(Play(w, before), run, last.act, cfg, c0);
      }
    }
  }

  // ---------------------------------------------------------------- the answers

  /** A row that the run has to see to. */
  ghost predicate InWork(t: Table, cfg: Config, first: int, id: nat) {
    id in t && t[id].book == cfg.book && first <= t[id].index && (cfg.end.None? || t[id].index <= cfg.end.value)
  }

  ghost predicate FirstTime(w: World, run: nat, cfg: Config) {
    TableInv(w.store) && ValidConfig(cfg) && run in w.runs && w.runs[run] == Start(cfg)
  }

  predicate EndsByItself(pc: Pc) {
    pc == Ended(Completed) || pc == Ended(RecoverableFailed)
  }

  ghost predicate NothingInWork(t: Table, cfg: Config, first: int) {
    forall id :: !InWork(t, cfg, first, id)
  }

  /** Every row from the first index on is done. */
  ghost predicate WorkDone(t: Table, cfg: Config, first: int) {
    forall id :: InWork(t, cfg, first, id) ==> t[id].status == Done
  }

  ghost predicate NoneFailed(t: Table, cfg: Config) {
    forall id :: InWork(t, cfg, cfg.start, id) ==> t[id].status != Failed
  }

  lemma RowDecides(t: Table, id: nat)
    requires Keyed(t) && id in t
    ensures DoneAt(t, t[id].book, t[id].index) <==> t[id].status == Done
  {
    if DoneAt(t, t[id].book, t[id].index) {
      var other :| other in t && At(t[other], t[id].book, t[id].index) && t[other].status.Done?;
      assert SameChapter(t[other], t[id]);
    } else {
      assert At(t[id], t[id].book, t[id].index);
    }
  }

  lemma ListedRow(t: Table, r: BatchRun, k: nat) returns (id: nat)
    requires Keyed(t) && Listed(t, r) && k < |r.chapters|
    ensures InWork(t, r.cfg, r.next, id) && t[id].index == r.chapters[k].index
    ensures DoneNow(t, r, k) <==> t[id].status == Done
  {
    id := RowAt(t, r.cfg.book, r.chapters[k].index).value;
    RowDecides(t, id);
  }

  lemma RowListed(t: Table, r: BatchRun, id: nat) returns (k: nat)
    requires Keyed(t) && Listed(t, r) && InWork(t, r.cfg, r.next, id)
    ensures k < |r.chapters| && t[id].index == r.chapters[k].index
    ensures DoneNow(t, r, k) <==> t[id].status == Done
  {
    assert IsListed(r, t[id].index);
    k :| 0 <= k < |r.chapters| && r.chapters[k].index == t[id].index;
    RowDecides(t, id);
  }

  /** At the end of the list, nothing is left to be tried again exactly when everything is done. */
  lemma NothingToTryIff(t: Table, r: BatchRun)
    requires Keyed(t) && Listed(t, r) && Settled(t, r) && r.pos == |r.chapters|
    ensures r.retry == [] <==> WorkDone(t, r.cfg, r.next)
  {
    if r.retry == [] {
      forall id | InWork(t, r.cfg, r.next, id) ensures t[id].status == Done {
        var k := RowListed(t, r, id);
      }
    } else {
      assert r.retry[0] in r.retry && IsPassed(r, r.retry[0]);
      var k :| 0 <= k < r.pos && r.chapters[k].index == r.retry[0];
      var id := ListedRow(t, r, k);
    }
  }

  lemma NothingListedIff(t: Table, r: BatchRun)
    requires Keyed(t) && Listed(t, r)
    ensures r.chapters == [] <==> NothingInWork(t, r.cfg, r.next)
  {
    if r.chapters != [] {
      var id := ListedRow(t, r, 0);
    }
    forall id | InWork(t, r.cfg, r.next, id) ensures r.chapters != [] {
      var k := RowListed(t, r, id);
    }
  }

  lemma NoneFailedIff(t: Table, cfg: Config)
    ensures |Rows(t, cfg, Failed)| == 0 <==> NoneFailed(t, cfg)
  {
    if |Rows(t, cfg, Failed)| == 0 {
      assert Rows(t, cfg, Failed) == {};
      forall id | InWork(t, cfg, cfg.start, id) ensures t[id].status != Failed {
        assert id !in Rows(t, cfg, Failed);
      }
    } else {
      var id :| id in Rows(t, cfg, Failed);
      assert InWork(t, cfg, cfg.start, id);
    }
  }

  lemma CourseBegins(w: World, steps: seq<Step>, run: nat, cfg: Config)
    requires FirstTime(w, run, cfg) && Undisturbed(steps, run) && AllPrompt(steps)
    ensures OnCourse(Play(w, steps), run, cfg, Saved(w.checkpoints, cfg.task))
  {
    PlayOnCourse(w, steps, run, cfg, Saved(w.checkpoints, cfg.task));
  }

  lemma OutcomeOf(t: Table, checkpoints: map<string, Checkpoint>, r: BatchRun, c0: Option<Checkpoint>)
    requires CourseOf(t, checkpoints, r, c0) && EndsByItself(r.pc)
    ensures r.pos == |r.chapters| && r.next == FirstIndex(r.cfg, c0) && Listed(t, r) && Settled(t, r)
    ensures r.pc == Ended(Completed) <==>
      if c0.Some? && r.chapters == [] then c0.value.failed == 0 else r.retry == [] && |Rows(t, r.cfg, Failed)| == 0
  {
    if r.chapters == [] {
      assert r.retry != [] ==> r.retry[0] in r.retry && IsPassed(r, r.retry[0]);
    } else if Loaded(r, c0) {
      assert r.chapters[0].index in r.retry;
    }
  }

  /** Exactly when a run completes. A run that nobody interferes with and that comes to its end is
   *  COMPLETED if and only if every row from its first index on is done in the end and no row of the
   *  whole range is failed; when it found nothing to look at, the loaded checkpoint decides. */
  lemma CompletesIff(w: World, steps: seq<Step>, run: nat, cfg: Config)
    requires FirstTime(w, run, cfg) && Undisturbed(steps, run) && AllPrompt(steps)
    requires run in Play(w, steps).runs && EndsByItself(Play(w, steps).runs[run].pc)
    ensures var t := Play(w, steps).store.table;
      var known := cfg.task in w.checkpoints;
      var first := if known then w.checkpoints[cfg.task].next else cfg.start;
      Play(w, steps).runs[run].pc == Ended(Completed) <==>
        if known && NothingInWork(t, cfg, first) then w.checkpoints[cfg.task].failed == 0
        else WorkDone(t, cfg, first) && NoneFailed(t, cfg)
  {
    CourseBegins(w, steps, run, cfg);
    var c0 := Saved(w.checkpoints, cfg.task);
    var v := Play(w, steps);
    var t, r := v.store.table, v.runs[run];
    OutcomeOf(t, v.checkpoints, r, c0);
    NothingToTryIff(t, r);
    NothingListedIff(t, r);
    NoneFailedIff(t, cfg);
  }

  // ---------------------------------------------------------------- the checkpoint it leaves

  /** Where a resumed run begins: what lies before is done, and whatever comes from there on is, or comes
   *  after, a row that is not done. */
  ghost predicate BeginsWithUndone(t: Table, cfg: Config, first: int, n: int) {
    && (forall id :: InWork(t, cfg, first, id) && t[id].index < n ==> t[id].status == Done)
    && (forall id :: InWork(t, cfg, first, id) && n <= t[id].index ==> UndoneBetween(t, cfg, first, n, t[id].index))
  }

  ghost predicate UndoneBetween(t: Table, cfg: Config, first: int, lo: int, hi: int) {
    exists id :: InWork(t, cfg, first, id) && lo <= t[id].index <= hi && t[id].status != Done
  }

  /** The index just past the last row, or the first index when there is none. */
  ghost predicate JustPast(t: Table, cfg: Config, first: int, n: int) {
    if NothingInWork(t, cfg, first) then n == first
    else (forall id :: InWork(t, cfg, first, id) ==> t[id].index < n) && exists id :: InWork(t, cfg, first, id) && t[id].index + 1 == n
  }

  lemma TriedIsUndone(t: Table, r: BatchRun, x: int) returns (id: nat)
    requires Keyed(t) && Listed(t, r) && Settled(t, r) && x in r.retry
    ensures InWork(t, r.cfg, r.next, id) && t[id].index == x && t[id].status != Done
  {
    assert IsPassed(r, x);
    var k :| 0 <= k < r.pos && r.chapters[k].index == x;
    id := ListedRow(t, r, k);
  }

  lemma DoneBefore(t: Table, r: BatchRun, n: int, id: nat)
    requires Keyed(t) && Listed(t, r) && Settled(t, r) && r.pos == |r.chapters| && Resumes(r, n)
    requires InWork(t, r.cfg, r.next, id) && t[id].index < n
    ensures t[id].status == Done
  {
    var k := RowListed(t, r, id);
    assert r.chapters[k].index !in r.retry;
  }

  lemma UndoneFrom(t: Table, r: BatchRun, n: int, id: nat)
    requires Keyed(t) && Listed(t, r) && Settled(t, r) && r.pos == |r.chapters| && Resumes(r, n)
    requires InWork(t, r.cfg, r.next, id) && n <= t[id].index
    ensures UndoneBetween(t, r.cfg, r.next, n, t[id].index)
  {
    var k := RowListed(t, r, id);
    BelowEdge(r, k);
    assert r.retry != [] && TriedBelow(r, r.chapters[k].index);
    var x :| x in r.retry && x <= r.chapters[k].index;
    var u := TriedIsUndone(t, r, x);
  }

  lemma ResumesAtUndone(t: Table, r: BatchRun, n: int)
    requires Keyed(t) && Listed(t, r) && Settled(t, r) && r.pos == |r.chapters| && Resumes(r, n)
    ensures BeginsWithUndone(t, r.cfg, r.next, n)
  {
    forall id | InWork(t, r.cfg, r.next, id) && t[id].index < n ensures t[id].status == Done {
      DoneBefore(t, r, n, id);
    }
    forall id | InWork(t, r.cfg, r.next, id) && n <= t[id].index ensures UndoneBetween(t, r.cfg, r.next, n, t[id].index) {
      UndoneFrom(t, r, n, id);
    }
  }

  lemma ResumesPastTheEnd(t: Table, r: BatchRun, n: int)
    requires Keyed(t) && Listed(t, r) && Settled(t, r) && r.pos == |r.chapters| && Resumes(r, n) && r.retry == []
    ensures JustPast(t, r.cfg, r.next, n)
  {
    NothingListedIff(t, r);
    if r.chapters != [] {
      var last := ListedRow(t, r, |r.chapters| - 1);
      forall id | InWork(t, r.cfg, r.next, id) ensures t[id].index < n {
        var k := RowListed(t, r, id);
        BelowEdge(r, k);
      }
    }
  }

  /** Whether the run has written the checkpoint, and what it says then. */
  lemma CheckpointOf(t: Table, checkpoints: map<string, Checkpoint>, r: BatchRun, c0: Option<Checkpoint>)
    requires CourseOf(t, checkpoints, r, c0) && EndsByItself(r.pc)
    ensures r.cfg.task in checkpoints && r.pos == |r.chapters| && Resumes(r, checkpoints[r.cfg.task].next)
    ensures var c := checkpoints[r.cfg.task];
      if c0.Some? && c.version == c0.value.version
      then c == c0.value && forall k :: 0 <= k < r.pos ==> r.chapters[k].index in r.retry
      else c.succeeded == |Rows(t, r.cfg, Done)| && c.failed == |Rows(t, r.cfg, Failed)|
  {
  }

  /** What the checkpoint `c` says about the table. A run that resumes there begins with the first row that
   *  is not done, or just past the last one when all are. The counts are those of the range, unless the
   *  run has left the checkpoint as it was: then it found all its chapters busy, or none at all. */
  ghost predicate SaysHowFar(t: Table, cfg: Config, first: int, c0: Option<Checkpoint>, c: Checkpoint) {
    && BeginsWithUndone(t, cfg, first, c.next)
    && (WorkDone(t, cfg, first) ==> JustPast(t, cfg, first, c.next))
    && (if c0.Some? && c.version == c0.value.version
        then c == c0.value && forall id :: InWork(t, cfg, first, id) ==> t[id].status != Done
        else c.succeeded == |Rows(t, cfg, Done)| && c.failed == |Rows(t, cfg, Failed)|)
  }

  lemma AllTriedMeansUndone(t: Table, r: BatchRun)
    requires Keyed(t) && Listed(t, r) && Settled(t, r) && r.pos == |r.chapters|
    requires forall k :: 0 <= k < r.pos ==> r.chapters[k].index in r.retry
    ensures forall id :: InWork(t, r.cfg, r.next, id) ==> t[id].status != Done
  {
    forall id | InWork(t, r.cfg, r.next, id) ensures t[id].status != Done {
      var k := RowListed(t, r, id);
      assert r.chapters[k].index in r.retry;
    }
  }

  lemma EndSaysHowFar(t: Table, checkpoints: map<string, Checkpoint>, r: BatchRun, c0: Option<Checkpoint>)
    requires Keyed(t) && CourseOf(t, checkpoints, r, c0) && EndsByItself(r.pc)
    ensures r.cfg.task in checkpoints && SaysHowFar(t, r.cfg, FirstIndex(r.cfg, c0), c0, checkpoints[r.cfg.task])
  {
    OutcomeOf(t, checkpoints, r, c0);
    CheckpointOf(t, checkpoints, r, c0);
    NothingToTryIff(t, r);
    ResumesAtUndone(t, r, checkpoints[r.cfg.task].next);
    if r.retry == [] {
      ResumesPastTheEnd(t, r, checkpoints[r.cfg.task].next);
    }
    if c0.Some? && checkpoints[r.cfg.task].version == c0.value.version {
      AllTriedMeansUndone(t, r);
    }
  }

  /** What a run that comes to its end leaves in the checkpoint table. */
  lemma CheckpointSays(w: World, steps: seq<Step>, run: nat, cfg: Config)
    requires FirstTime(w, run, cfg) && Undisturbed(steps, run) && AllPrompt(steps)
    requires run in Play(w, steps).runs && EndsByItself(Play(w, steps).runs[run].pc)
    ensures var v := Play(w, steps);
      var c0 := if cfg.task in w.checkpoints then Some(w.checkpoints[cfg.task]) else None;
      var first := if c0.Some? then c0.value.next else cfg.start;
      cfg.task in v.checkpoints && SaysHowFar(v.store.table, cfg, first, c0, v.checkpoints[cfg.task])
  {
    CourseBegins(w, steps, run, cfg);
    var v := Play(w, steps);
    EndSaysHowFar(v.store.table, v.checkpoints, v.runs[run], Saved(w.checkpoints, cfg.task));
  }

  /** A save is made when a batch is full, or at the end of the list when something is not saved yet or
   *  the task has no checkpoint. So there are never as many as a batch of chapters behind the checkpoint
   *  when the next one is taken up. */
  lemma SavesWhenDue(w: World, steps: seq<Step>, run: nat, cfg: Config)
    requires FirstTime(w, run, cfg) && Undisturbed(steps, run) && AllPrompt(steps)
    ensures var v := Play(w, steps);
      && run in v.runs
      && var r := v.runs[run];
        && (r.pc.Visiting? || r.pc.Claiming? ==> r.pending < cfg.batchSize)
        && (r.pc.Counting? || r.pc.Saving? ==>
             r.pending >= cfg.batchSize || (r.pos == |r.chapters| && (r.pending > 0 || cfg.task !in v.checkpoints)))
  {
    CourseBegins(w, steps, run, cfg);
  }

  // ---------------------------------------------------------------- a run that is let alone ends

  /** Nobody asks the run to stop and the process does not die. */
  predicate LetsGoOn(r: BatchRun, act: Act) {
    match r.pc
    case Visiting => !act.Interrupted?
    case Saving => !act.Interrupted?
    case Claiming => act.Go?
    case Failing(_) => act.Go?
    case Processing(_) => act.Content? || act.ProcessorFails?
    case Finishing(_, _) => act.Go? && !act.fault.Died? && !act.interrupt
    case _ => true
  }

  /** Steps of one run alone, none of which stops it. */
  ghost predicate LeftAlone(w: World, steps: seq<Step>, run: nat)
    decreases |steps|
  {
    steps == [] ||
    (var before, last := steps[..|steps| - 1], steps[|steps| - 1];
     && LeftAlone(w, before, run) && last.RunStep? && last.run == run && Prompt(last.act)
     && run in Play(w, before).runs && LetsGoOn(Play(w, before).runs[run], last.act))
  }

  /** The loaded checkpoint is one that the run accepts. */
  predicate Usable(c0: Option<Checkpoint>, cfg: Config) {
    c0.Some? ==>
      && cfg.start <= c0.value.next
      && (cfg.end.Some? ==> c0.value.next <= cfg.end.value + 1)
      && (cfg.end.None? ==> c0.value.next <= 10_000_000)
  }

  /** Any other is refused, and nothing is touched. */
  lemma UnusableIsRefused(w: World, run: nat, cfg: Config, act: Act)
    requires FirstTime(w, run, cfg) && cfg.task in w.checkpoints && !Usable(Some(w.checkpoints[cfg.task]), cfg)
    ensures var v := Take(Take(w, RunStep(run, act)), RunStep(run, act));
      v.runs[run].pc == Ended(Stopped) && v.store == w.store && v.checkpoints == w.checkpoints
  {
  }

  /** How many steps a run has left at most, when its list has `n` chapters. */
  function StepsLeft(r: BatchRun, n: nat): int {
    var inLoop := 10 * (|r.chapters| - r.pos);
    match r.pc
    case Loading => 10 * n + 6
    case Listing => 10 * n + 5
    case Visiting => inLoop + if r.pending > 0 || r.version.None? then 4 else 1
    case Counting => inLoop + 3
    case Saving => inLoop + 2
    case Claiming => inLoop - 1
    case Processing(_) => inLoop - 2
    case Finishing(_, _) => inLoop - 3
    case Failing(_) => inLoop - 4
    case Releasing(_) => inLoop - 5
    case Ended(_) => 0
  }

  lemma NobodyDies(s: Store, q: MarkRequest, fault: Fault)
    requires !fault.Died?
    ensures !MarkDone(s, q, fault).1.Dead?
  {
  }

  predicate GoesOn(pc: Pc) {
    !pc.Releasing? && (pc.Ended? ==> EndsByItself(pc))
  }

  /** The little of its course that a run needs in order to go on. */
  ghost predicate Fit(checkpoints: map<string, Checkpoint>, r: BatchRun, c0: Option<Checkpoint>) {
    && (r.pc.Loading? ==> r == Start(r.cfg) && Saved(checkpoints, r.cfg.task) == c0)
    && (r.pc.Listing? ==> r.next == FirstIndex(r.cfg, c0) && r.chapters == [] && r.pos == 0 && r.pending == 0)
    && (r.pc.Visiting? || r.pc.Counting? || r.pc.Saving? ==> r.pos <= |r.chapters|)
    && (r.pc.Saving? ==> SameVersion(checkpoints, r.cfg.task, r.version))
    && (r.pc.Counting? || r.pc.Saving? ==> SaveDue(r))
    && (InChapter(r.pc) && !r.pc.Releasing? ==> r.pos < |r.chapters|)
  }

  lemma OnCourseIsFit(w: World, run: nat, cfg: Config, c0: Option<Checkpoint>)
    requires OnCourse(w, run, cfg, c0)
    ensures Fit(w.checkpoints, w.runs[run], c0)
  {
  }

  lemma ChapterStepLess(s: Store, r: BatchRun, act: Act, n: nat)
    requires r.pos < |r.chapters| && InChapter(r.pc) && !r.pc.Releasing? && LetsGoOn(r, act)
    ensures var r' := NextInChapter(s, r, act);
      GoesOn(r'.pc) && !r'.pc.Listing? && StepsLeft(r', n) < StepsLeft(r, n)
  {
    if r.pc.Finishing? {
      NobodyDies(s, Request(r, r.pc.content, r.pc.lease, act.now, act.suffix), act.fault);
    }
  }

  lemma FirstStepsLess(w: World, r: BatchRun, act: Act, c0: Option<Checkpoint>, n: nat)
    requires ValidConfig(r.cfg) && Fit(w.checkpoints, r, c0) && Usable(c0, r.cfg) && (r.pc.Loading? || r.pc.Listing?)
    requires |ListChapters(w.store.table, r.cfg.book, FirstIndex(r.cfg, c0), r.cfg.end)| <= n
    ensures var r' := NextRun(w, r, act); GoesOn(r'.pc) && StepsLeft(r', n) < StepsLeft(r, n)
  {
  }

  lemma QuietStepLess(w: World, r: BatchRun, act: Act, c0: Option<Checkpoint>, n: nat)
    requires r.cfg.batchSize > 0 && Fit(w.checkpoints, r, c0) && LetsGoOn(r, act)
    requires r.pc.Visiting? || r.pc.Counting? || r.pc.Saving?
    ensures var r' := NextRun(w, r, act); GoesOn(r'.pc) && StepsLeft(r', n) < StepsLeft(r, n)
  {
  }

  /** The list that the run will make, or has made, is no longer than `n`. */
  ghost predicate ListFits(t: Table, r: BatchRun, c0: Option<Checkpoint>, n: nat) {
    r.pc.Loading? || r.pc.Listing? ==> |ListChapters(t, r.cfg.book, FirstIndex(r.cfg, c0), r.cfg.end)| <= n
  }

  /** A step of a run that is let go on does not stop it, and is one of those it had left. */
  lemma OneStepLess(w: World, run: nat, act: Act, cfg: Config, c0: Option<Checkpoint>, n: nat)
    requires OnCourse(w, run, cfg, c0) && Usable(c0, cfg) && LetsGoOn(w.runs[run], act) && GoesOn(w.runs[run].pc)
    requires ListFits(w.store.table, w.runs[run], c0, n)
    ensures var r, r' := w.runs[run], NextRun(w, w.runs[run], act);
      GoesOn(r'.pc) && (r.pc.Ended? || StepsLeft(r', n) < StepsLeft(r, n))
  {
    var r := w.runs[run];
    OnCourseIsFit(w, run, cfg, c0);
    WhereItActs(w, r, act);
    if InChapter(r.pc) {
      ChapterStepLess(w.store, r, act, n);
    } else if r.pc.Loading? || r.pc.Listing? {
      FirstStepsLess(w, r, act, c0, n);
    } else if !r.pc.Ended? {
      QuietStepLess(w, r, act, c0, n);
    }
  }

  lemma ListFitsOn(w: World, r: BatchRun, act: Act, c0: Option<Checkpoint>, n: nat)
    requires ListFits(w.store.table, r, c0, n)
    ensures ListFits(NextStore(w.store, r, act).table, NextRun(w, r, act), c0, n)
  {
    WhereItActs(w, r, act);
    NextRunKeepsCfg(w, r, act);
    if !r.pc.Loading? {
      ListsOnce(w, r, act);
    }
  }

  predicate PastListing(pc: Pc) {
    !pc.Loading? && !pc.Listing?
  }

  lemma PastListingStays(r: BatchRun, lease: Lease, claim: ClaimReply, mark: MarkReply, interrupt: bool)
    requires r.pos < |r.chapters|
    ensures PastListing(AfterClaim(r, claim).pc) && PastListing(AfterMark(r, lease, mark, interrupt).pc)
  {
  }

  lemma ListsOnceInChapter(s: Store, r: BatchRun, act: Act)
    requires InChapter(r.pc) && r.pos < |r.chapters|
    ensures PastListing(NextInChapter(s, r, act).pc)
  {
    if r.pc.Claiming? && act.Go? {
      var claim := ClaimChapter(s, r.cfg.book, r.chapters[r.pos].index, r.cfg.task, act.now, r.cfg.seconds, act.token).1;
      assert NextInChapter(s, r, act) == AfterClaim(r, claim);
      PastListingStays(r, Lease(0, 0, "", 0, 0, 0), claim, Dead, false);
    } else if r.pc.Finishing? && act.Go? {
      var mark := MarkDone(s, Request(r, r.pc.content, r.pc.lease, act.now, act.suffix), act.fault).1;
      assert NextInChapter(s, r, act) == AfterMark(r, r.pc.lease, mark, act.interrupt);
      PastListingStays(r, r.pc.lease, Busy, mark, act.interrupt);
    }
  }

  lemma ListsOnce(w: World, r: BatchRun, act: Act)
    requires !r.pc.Loading?
    ensures PastListing(NextRun(w, r, act).pc)
  {
    WhereItActs(w, r, act);
    if InChapter(r.pc) && r.pos < |r.chapters| {
      ListsOnceInChapter(w.store, r, act);
    }
  }

  lemma {:induction false} GoesOnOrEnds(w: World, steps: seq<Step>, run: nat, cfg: Config, n: nat)
    requires FirstTime(w, run, cfg) && Usable(Saved(w.checkpoints, cfg.task), cfg) && LeftAlone(w, steps, run)
    requires ListFits(w.store.table, w.runs[run], Saved(w.checkpoints, cfg.task), n)
    ensures OnCourse(Play(w, steps), run, cfg, Saved(w.checkpoints, cfg.task))
    ensures ListFits(Play(w, steps).store.table, Play(w, steps).runs[run], Saved(w.checkpoints, cfg.task), n)
    ensures var r := Play(w, steps).runs[run];
      GoesOn(r.pc) && (r.pc.Ended? || StepsLeft(r, n) + |steps| <= 10 * n + 6)
    decreases |steps|
  {
    if steps != [] {
      var before, last := steps[..|steps| - 1], steps[|steps| - 1];
      GoesOnOrEnds(w, before, run, cfg, n);
      var c0, v := Saved(w.checkpoints, cfg.task), Play(w, before);
      OneStepLess(v, run, last.act, cfg, c0, n);
      ListFitsOn(v, v.runs[run], last.act, c0, n);
      StepOnCourse(v, run, last.act, cfg, c0);
    }
  }

  lemma {:induction false} AloneIsUndisturbed(w: World, steps: seq<Step>, run: nat)
    requires LeftAlone(w, steps, run)
    ensures Undisturbed(steps, run) && AllPrompt(steps)
    decreases |steps|
  {
    if steps != [] {
      AloneIsUndisturbed(w, steps[..|steps| - 1], run);
    }
  }

  lemma StepsLeftPositive(w: World, run: nat, cfg: Config, c0: Option<Checkpoint>, n: nat)
    requires OnCourse(w, run, cfg, c0) && GoesOn(w.runs[run].pc) && !w.runs[run].pc.Ended?
    ensures StepsLeft(w.runs[run], n) > 0
  {
    OnCourseIsFit(w, run, cfg, c0);
  }

  /** A run that is let alone, with a checkpoint it can use, comes to its end: within ten steps for each
   *  row from its first index on, and six. */
  lemma LeftAloneEnds(w: World, steps: seq<Step>, run: nat, cfg: Config)
    requires FirstTime(w, run, cfg) && Usable(Saved(w.checkpoints, cfg.task), cfg) && LeftAlone(w, steps, run)
    requires |steps| >= 10 * |ListChapters(w.store.table, cfg.book, FirstIndex(cfg, Saved(w.checkpoints, cfg.task)), cfg.end)| + 6
    ensures EndsByItself(Play(w, steps).runs[run].pc)
  {
    var c0 := Saved(w.checkpoints, cfg.task);
    var n := |ListChapters(w.store.table, cfg.book, FirstIndex(cfg, c0), cfg.end)|;
    GoesOnOrEnds(w, steps, run, cfg, n);
    if !Play(w, steps).runs[run].pc.Ended? {
      StepsLeftPositive(Play(w, steps), run, cfg, c0, n);
    }
  }

  // ---------------------------------------------------------------- a flawless run

  /** A step at which nothing goes wrong: claims are granted, content is found and stored. */
  ghost predicate Flawless(s: Store, r: BatchRun, act: Act) {
    LetsGoOn(r, act)
    && (r.pos < |r.chapters| ==>
      match r.pc
      case Claiming =>
        ClaimChapter(s, r.cfg.book, r.chapters[r.pos].index, r.cfg.task, act.now, r.cfg.seconds, act.token).1.Granted?
      case Processing(_) => act.Content?
      case Finishing(lease, content) =>
        var reply := MarkDone(s, Request(r, content, lease, act.now, act.suffix), act.fault).1;
        reply.Stored? || reply.Kept?
      case _ => true)
  }

  ghost predicate AllFlawless(w: World, steps: seq<Step>, run: nat)
    decreases |steps|
  {
    steps == [] ||
    (var before, last := steps[..|steps| - 1], steps[|steps| - 1];
     && AllFlawless(w, before, run) && last.RunStep? && last.run == run && Prompt(last.act)
     && run in Play(w, before).runs && Flawless(Play(w, before).store, Play(w, before).runs[run], last.act))
  }

  lemma {:induction false} FlawlessIsLeftAlone(w: World, steps: seq<Step>, run: nat)
    requires AllFlawless(w, steps, run)
    ensures LeftAlone(w, steps, run)
    decreases |steps|
  {
    if steps != [] {
      FlawlessIsLeftAlone(w, steps[..|steps| - 1], run);
    }
  }

  lemma NothingGoesWrong(w: World, r: BatchRun, act: Act)
    requires Flawless(w.store, r, act) && r.retry == [] && !r.pc.Failing?
    ensures NextRun(w, r, act).retry == [] && !NextRun(w, r, act).pc.Failing?
  {
  }

  lemma {:induction false} NothingToTryAgain(w: World, steps: seq<Step>, run: nat, cfg: Config)
    requires FirstTime(w, run, cfg) && AllFlawless(w, steps, run)
    ensures run in Play(w, steps).runs && Play(w, steps).runs[run].retry == [] && !Play(w, steps).runs[run].pc.Failing?
    decreases |steps|
  {
    if steps != [] {
      var before, last := steps[..|steps| - 1], steps[|steps| - 1];
      NothingToTryAgain(w, before, run, cfg);
      NothingGoesWrong(Play(w, before), Play(w, before).runs[run], last.act);
    }
  }

  /** A flawless crawl completes: every listed chapter that was not done is granted and stored, nobody
   *  stops the run and it has the steps it needs. Then it ends COMPLETED, with every row from its first
   *  index on done, if and only if no row of the whole range is failed. */
  lemma FlawlessCompletes(w: World, steps: seq<Step>, run: nat, cfg: Config)
    requires FirstTime(w, run, cfg) && Usable(Saved(w.checkpoints, cfg.task), cfg) && AllFlawless(w, steps, run)
    requires |steps| >= 10 * |ListChapters(w.store.table, cfg.book, FirstIndex(cfg, Saved(w.checkpoints, cfg.task)), cfg.end)| + 6
    ensures var t := Play(w, steps).store.table;
      var first := if cfg.task in w.checkpoints then w.checkpoints[cfg.task].next else cfg.start;
      && WorkDone(t, cfg, first)
      && (cfg.task !in w.checkpoints || !NothingInWork(t, cfg, first) ==>
            (Play(w, steps).runs[run].pc == Ended(Completed) <==> NoneFailed(t, cfg)))
  {
    FlawlessIsLeftAlone(w, steps, run);
    AloneIsUndisturbed(w, steps, run);
    LeftAloneEnds(w, steps, run, cfg);
    CourseBegins(w, steps, run, cfg);
    CompletesIff(w, steps, run, cfg);
    NothingToTryAgain(w, steps, run, cfg);
    var v := Play(w, steps);
    OutcomeOf(v.store.table, v.checkpoints, v.runs[run], Saved(w.checkpoints, cfg.task));
    NothingToTryIff(v.store.table, v.runs[run]);
  }

  // ---------------------------------------------------------------- chapters to be tried again

  lemma RetryIsKept(w: World, r: BatchRun, act: Act)
    requires r.retry != [] && r.pc != Ended(Completed)
    ensures NextRun(w, r, act).retry != [] && NextRun(w, r, act).pc != Ended(Completed)
  {
    WhereItActs(w, r, act);
    if InChapter(r.pc) && r.pos < |r.chapters| {
      RetryIsKeptInChapter(w.store, r, act);
    }
  }

  lemma RetryIsKeptInChapter(s: Store, r: BatchRun, act: Act)
    requires r.retry != [] && InChapter(r.pc) && r.pos < |r.chapters|
    ensures NextInChapter(s, r, act).retry != [] && NextInChapter(s, r, act).pc != Ended(Completed)
  {
    if r.pc.Claiming? && act.Go? {
      var claim := ClaimChapter(s, r.cfg.book, r.chapters[r.pos].index, r.cfg.task, act.now, r.cfg.seconds, act.token).1;
      assert NextInChapter(s, r, act) == AfterClaim(r, claim);
    } else if r.pc.Finishing? && act.Go? {
      var mark := MarkDone(s, Request(r, r.pc.content, r.pc.lease, act.now, act.suffix), act.fault).1;
      assert NextInChapter(s, r, act) == AfterMark(r, r.pc.lease, mark, act.interrupt);
    }
  }

  /** Whatever anybody does: a run that has a chapter to be tried again does not end COMPLETED. */
  lemma {:induction false} RetryForbidsCompleted(w: World, steps: seq<Step>, run: nat)
    requires run in w.runs && w.runs[run].retry != [] && w.runs[run].pc != Ended(Completed)
    ensures var v := Play(w, steps); run in v.runs && v.runs[run].retry != [] && v.runs[run].pc != Ended(Completed)
    decreases |steps|
  {
    if steps != [] {
      var before, last := steps[..|steps| - 1], steps[|steps| - 1];
      RetryForbidsCompleted(w, before, run);
      if last.RunStep? && last.run == run {
        RetryIsKept(Play(w, before), Play(w, before).runs[run], last.act);
      }
    }
  }

  /** That includes a chapter whose `mark_done` raises after its commit: it is done, and to be tried again. */
  lemma LateHandlerIsTriedAgain(w: World, run: nat, act: Act, act': Act)
    requires run in w.runs && w.runs[run].pos < |w.runs[run].chapters| && w.runs[run].pc.Finishing?
    requires act.Go? && act.fault == Raised(Committed) && !act.interrupt && act'.Go?
    requires var r := w.runs[run]; !MarkDone(w.store, Request(r, r.pc.content, r.pc.lease, act.now, act.suffix), act.fault).1.Kept?
    ensures var r, v := w.runs[run], Take(Take(w, RunStep(run, act)), RunStep(run, act'));
      v.runs[run].retry == r.retry + [r.chapters[r.pos].index] && (v.runs[run].pc.Visiting? || v.runs[run].pc.Counting?)
  {
    var r := w.runs[run];
    var q := Request(r, r.pc.content, r.pc.lease, act.now, act.suffix);
    LateHandlerAborts(w.store, q);
    var v := Take(w, RunStep(run, act));
    assert v.runs[run] == r.(pc := Failing(r.pc.lease));
    FailedStep(v.store, v.runs[run], act');
  }

  lemma LateHandlerAborts(s: Store, q: MarkRequest)
    ensures var reply := MarkDone(s, q, Raised(Committed)).1; !reply.Stored? && !reply.Dead?
  {
  }

  // ---------------------------------------------------------------- one chapter of a run

  /** The run is at this row. */
  ghost predicate Facing(w: World, run: nat, id: nat) {
    && TableInv(w.store) && run in w.runs && w.runs[run].pos < |w.runs[run].chapters|
    && RowIs(w.store, id, w.runs[run].cfg.book, w.runs[run].chapters[w.runs[run].pos].index)
  }

  /** A claim is made in the name of the task and for the configured time. */
  lemma ClaimsForItsTask(w: World, run: nat, id: nat, act: Act)
    requires Facing(w, run, id) && w.runs[run].pc.Claiming? && act.Go? && ValidConfig(w.runs[run].cfg)
    ensures var r, row := w.runs[run], w.store.table[id];
      var v := Take(w, RunStep(run, act));
      var free := row.claim.None? || row.claim.value.owner == r.cfg.task || row.claim.value.until <= act.now;
      if r.cfg.task != "" && row.status != Done && free
      then v.runs[run] == r.(pc := Processing(Lease(row.book, row.index, r.cfg.task, row.generation + 1, act.now + r.cfg.seconds, act.token)))
           && OnlyRow(w.store, v.store, id, row.(claim := Some(Holder(r.cfg.task, act.now + r.cfg.seconds, act.token)),
                                                 generation := row.generation + 1, attempts := row.attempts + 1))
      else v.store == w.store && v.runs[run].retry == r.retry + [row.index] && v.runs[run].pos == r.pos + 1
           && v.runs[run].pending == r.pending
  {
    var r := w.runs[run];
    TheRow(w.store, id, r.cfg.book, r.chapters[r.pos].index);
  }

  /** A processor that fails is recorded in the row while the lease lasts, and not after; either way the
   *  run goes on with the next chapter and will have this one tried again. */
  lemma FailureIsRecorded(w: World, run: nat, id: nat, until: int, act: Act)
    requires Facing(w, run, id) && w.runs[run].pc.Failing? && act.Go?
    requires HeldUntil(w.store.table[id], w.runs[run].pc.lease, until)
    ensures var r, row := w.runs[run], w.store.table[id];
      var v := Take(w, RunStep(run, act));
      && v.runs[run].retry == r.retry + [row.index] && v.runs[run].pos == r.pos + 1 && v.runs[run].pending == r.pending + 1
      && (v.runs[run].pc.Visiting? || v.runs[run].pc.Counting?)
      && if act.now < until then OnlyRow(w.store, v.store, id, row.(status := Failed, error := Some("chapter_processor_failed"), claim := None))
         else v.store == w.store
  {
    var r := w.runs[run];
    TheRow(w.store, id, r.cfg.book, r.chapters[r.pos].index);
  }

  /** A run that is paused or cancelled while it processes gives its lease back, and the row is otherwise
   *  as it was; the checkpoint is not written. */
  lemma PauseGivesBack(w: World, run: nat, id: nat, until: int, act: Act)
    requires Facing(w, run, id) && w.runs[run].pc.Processing?
    requires HeldUntil(w.store.table[id], w.runs[run].pc.lease, until)
    ensures var v := Take(Take(w, RunStep(run, Interrupted)), RunStep(run, act));
      && OnlyRow(w.store, v.store, id, w.store.table[id].(claim := None)) && v.checkpoints == w.checkpoints
      && v.runs[run].pc == Ended(Stopped)
  {
    var r := w.runs[run];
    TheRow(w.store, id, r.cfg.book, r.chapters[r.pos].index);
  }

  /** Content goes into the chapter's own file, under the title it was listed with. */
  lemma ContentIsStored(w: World, run: nat, id: nat, act: Act)
    requires Facing(w, run, id) && w.runs[run].pc.Finishing? && act.Go? && act.fault == Clean && w.runs[run].cfg.book > 0
    requires w.store.table[id].status != Done
    ensures var r, row := w.runs[run], w.store.table[id];
      var v := Take(w, RunStep(run, act));
      var path := ChapterLoc(row.book, row.index);
      var ok := !Fenced(row, Some(r.pc.lease), act.now) && !Blank(r.pc.content) && row.book in w.store.books
        && !(r.cfg.rejectDuplicates && ContentKnown(w.store, row.book, row.index, r.pc.content))
        && DiskReady(w.store, row.book, row.index, act.suffix);
      && (ok ==>
           && id in v.store.table
           && v.store.table[id] == row.(title := r.chapters[r.pos].title, status := Done, path := Some(path),
                                        hash := Some(Sha256(r.pc.content)), error := None, claim := None)
           && path in v.store.fs && v.store.fs[path] == File(r.pc.content)
           && v.runs[run].retry == r.retry && v.runs[run].pos == r.pos + 1 && v.runs[run].pending == r.pending + 1)
      && (!ok ==>
           && v.store.table == w.store.table
           && v.runs[run] == r.(pc := if act.interrupt then Releasing(r.pc.lease) else Failing(r.pc.lease)))
  {
    var r := w.runs[run];
    var q := Request(r, r.pc.content, r.pc.lease, act.now, act.suffix);
    StoredIff(w.store, id, q);
    if MarkDone(w.store, q, Clean).1.Stored? {
      StoreGives(w.store, id, q);
    }
    UnmarkedChangesNothing(w.store, q, Clean);
  }
}
