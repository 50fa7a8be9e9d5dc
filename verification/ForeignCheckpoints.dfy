/** Why the runs of one task have to share their first chapter: one run leaves a checkpoint, and
 *  another, over an earlier part of the book, skips all of its chapters. */
module ForeignCheckpoints {
  import opened Basics
  import opened ChapterStore
  import opened BatchMachine
  import opened BatchLaws

  lemma {:induction false} PlayMore(w: World, a: seq<Step>, b: seq<Step>)
    ensures Play(w, a + b) == Play(Play(w, a), b)
    decreases |b|
  {
    if b == [] {
      assert a + b == a;
    } else {
      var n := |b| - 1;
      assert (a + b)[..|a + b| - 1] == a + b[..n];
      PlayMore(w, a, b[..n]);
    }
  }

  lemma PlayOne(w: World, step: Step)
    ensures Play(w, [step]) == Take(w, step)
  {
    assert [step][..0] == [] && Play(w, []) == w;
  }

  /** No chapter of the range has a row yet. */
  ghost predicate NothingThere(t: Table, cfg: Config) {
    RowsIn(t, cfg.book, cfg.start, cfg.end) == {}
  }

  lemma RowInRange(t: Table, cfg: Config, index: int)
    requires RowAt(t, cfg.book, index).Some? && InRange(index, cfg.start, cfg.end)
    ensures !NothingThere(t, cfg)
  {
    assert RowAt(t, cfg.book, index).value in RowsIn(t, cfg.book, cfg.start, cfg.end);
  }

  lemma EmptyListing(t: Table, cfg: Config)
    requires NothingThere(t, cfg)
    ensures ListChapters(t, cfg.book, cfg.start, cfg.end) == [] && CountDone(t, cfg) == 0 && CountFailed(t, cfg) == 0
  {
    var list := ListChapters(t, cfg.book, cfg.start, cfg.end);
    ListingIsRight(t, cfg.book, cfg.start, cfg.end);
    if list != [] {
      RowInRange(t, cfg, list[0].index);
    }
    assert WithStatus(t, {}, Done) == {} && WithStatus(t, {}, Failed) == {};
  }

  /** What a run over an empty range goes through, once its task has no checkpoint. */
  function EmptyRun(cfg: Config, k: nat): BatchRun
    requires k <= 6
  {
    var r := Start(cfg);
    if k == 0 then r
    else if k == 1 then r.(pc := Listing)
    else if k == 2 then r.(pc := Visiting)
    else if k == 3 then r.(pc := Counting)
    else if k == 4 then r.(pc := Saving)
    else r.(pc := if k == 5 then Visiting else Ended(Completed), version := Some(0))
  }

  function AfterEmpty(w: World, run: nat, cfg: Config, k: nat): World
    requires k <= 6
  {
    World(w.store, if k >= 5 then w.checkpoints[cfg.task := Checkpoint(0, cfg.start, 0, 0)] else w.checkpoints,
          w.runs[run := EmptyRun(cfg, k)])
  }

  lemma EmptyRunGoesOn(w: World, run: nat, cfg: Config, k: nat)
    requires ValidConfig(cfg) && cfg.task !in w.checkpoints && NothingThere(w.store.table, cfg) && k < 6
    ensures Take(AfterEmpty(w, run, cfg, k), RunStep(run, ProcessorFails)) == AfterEmpty(w, run, cfg, k + 1)
  {
    EmptyListing(w.store.table, cfg);
    var v, r := AfterEmpty(w, run, cfg, k), EmptyRun(cfg, k);
    assert NextRun(v, r, ProcessorFails) == EmptyRun(cfg, k + 1);
    assert v.runs[run := EmptyRun(cfg, k + 1)] == w.runs[run := EmptyRun(cfg, k + 1)];
  }

  function Steps(run: nat, cfg: Config, k: nat): seq<Step> {
    if k == 0 then [SpawnStep(run, cfg)] else Steps(run, cfg, k - 1) + [RunStep(run, ProcessorFails)]
  }

  lemma {:induction false} EmptyRunPlays(w: World, run: nat, cfg: Config, k: nat)
    requires ValidConfig(cfg) && cfg.task !in w.checkpoints && NothingThere(w.store.table, cfg) && run !in w.runs && k <= 6
    ensures Play(w, Steps(run, cfg, k)) == AfterEmpty(w, run, cfg, k)
  {
    if k == 0 {
      PlayOne(w, SpawnStep(run, cfg));
    } else {
      EmptyRunPlays(w, run, cfg, k - 1);
      PlayMore(w, Steps(run, cfg, k - 1), [RunStep(run, ProcessorFails)]);
      PlayOne(AfterEmpty(w, run, cfg, k - 1), RunStep(run, ProcessorFails));
      EmptyRunGoesOn(w, run, cfg, k - 1);
    }
  }

  /** A run that starts just behind the range of another, and finds nothing there yet. */
  predicate JustBehind(later: Config, cfg: Config) {
    && ValidConfig(later) && ValidConfig(cfg) && later.task == cfg.task && later.book == cfg.book
    && cfg.end.Some? && later.start == cfg.end.value + 1
  }

  function SkippingSteps(run: nat, cfg: Config): seq<Step> {
    [SpawnStep(run, cfg), RunStep(run, ProcessorFails), RunStep(run, ProcessorFails), RunStep(run, ProcessorFails)]
  }

  lemma {:induction false} OthersUntouched(w: World, run: nat, cfg: Config, other: nat, steps: seq<Step>)
    requires other in w.runs && other != run
    requires forall k :: 0 <= k < |steps| ==> steps[k] == SpawnStep(run, cfg) || steps[k] == RunStep(run, ProcessorFails)
    ensures other in Play(w, steps).runs && Play(w, steps).runs[other] == w.runs[other]
    decreases |steps|
  {
    if steps != [] {
      OthersUntouched(w, run, cfg, other, steps[..|steps| - 1]);
    }
  }

  lemma SkipsEverything(w: World, run: nat, cfg: Config, other: nat)
    requires ValidConfig(cfg) && cfg.end.Some? && run !in w.runs && cfg.task in w.checkpoints
    requires w.checkpoints[cfg.task].next == cfg.end.value + 1 && w.checkpoints[cfg.task].failed == 0
    requires other in w.runs
    ensures var v := Play(w, SkippingSteps(run, cfg));
      && run in v.runs && v.runs[run].pc == Ended(Completed) && v.runs[run].cfg == cfg && v.store == w.store
      && other in v.runs && v.runs[other] == w.runs[other]
  {
    ForeignCheckpointSkips(w, run, cfg, ProcessorFails);
    OthersUntouched(w, run, cfg, other, SkippingSteps(run, cfg));
  }

  function Story(first: nat, later: Config, second: nat, cfg: Config): seq<Step> {
    Steps(first, later, 6) + SkippingSteps(second, cfg)
  }

  /** Both runs end COMPLETED, the store has not been touched, and whatever chapter of the range was
   *  not done is still not done. */
  lemma CompletedWithoutWork(w: World, first: nat, later: Config, second: nat, cfg: Config, members: set<int>, m: int)
    requires Ready(w, Job(cfg.task, cfg.book, cfg.start, members))
    requires first !in w.runs && second !in w.runs && first != second
    requires JustBehind(later, cfg) && NothingThere(w.store.table, later)
    requires m in members && InRange(m, cfg.start, cfg.end) && !DoneAt(w.store.table, cfg.book, m)
    ensures var v := Play(w, Story(first, later, second, cfg));
      && first in v.runs && v.runs[first].pc == Ended(Completed) && second in v.runs && v.runs[second].pc == Ended(Completed)
      && v.runs[second].cfg == cfg && v.store == w.store && !AllDone(v.store.table, cfg, members)
  {
    EmptyRunPlays(w, first, later, 6);
    PlayMore(w, Steps(first, later, 6), SkippingSteps(second, cfg));
    SkipsEverything(AfterEmpty(w, first, later, 6), second, cfg, first);
  }

  /** One book with one pending chapter. */
  function Pending1(book: int): Table {
    map[0 := Row(book, 1, "", "", "", Pending, None, None, None, 0, None, 0)]
  }

  /** The least case: a book with one chapter, which stays pending. */
  lemma OneChapterSkipped(book: int, task: string, batch: nat, seconds: int, reject: bool)
    requires 1 <= batch <= 1000 && 1 <= seconds <= 3600
    ensures var w := World(Store(Pending1(book), map[], map[], [], 1, {}), map[], map[]);
      var cfg := Config(task, book, 1, Some(1), batch, seconds, reject);
      var later := cfg.(start := 2, end := Some(2));
      var v := Play(w, Story(0, later, 1, cfg));
      && Ready(w, Job(task, book, 1, {1}))
      && 1 in v.runs && v.runs[1].pc == Ended(Completed) && v.store == w.store && !DoneAt(v.store.table, book, 1)
  {
    var w := World(Store(Pending1(book), map[], map[], [], 1, {}), map[], map[]);
    var cfg := Config(task, book, 1, Some(1), batch, seconds, reject);
    assert At(Pending1(book)[0], book, 1);
    CompletedWithoutWork(w, 0, cfg.(start := 2, end := Some(2)), 1, cfg, {1}, 1);
  }
}
