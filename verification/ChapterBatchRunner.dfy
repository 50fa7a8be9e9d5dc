/** The loop of `ChapterBatchRunner.__call__`, with other threads and processes acting between any
 *  two of its calls, proved to take exactly the steps of `BatchMachine`. */
module ChapterBatch {
  import opened Basics
  import opened RisingOrder
  import opened ChapterStore
  import opened BatchMachine
  import Batch = BatchLaws
  import ChapterLaws
  import opened StorageObject

  /** The store and the checkpoint table as a run sees them. The ghost fields record the history:
   *  `world` is what playing `trace` from `origin` gives. */
  class Shared {
    const storage: Storage
    var checkpoints: map<string, Checkpoint>
    ghost var origin: World
    ghost var trace: seq<Step>
    ghost var world: World

    constructor (storage: Storage)
      requires storage.Valid()
      ensures Valid() && this.storage == storage && trace == [] && world.runs == map[] && checkpoints == map[]
    {
      this.storage := storage;
      checkpoints := map[];
      origin := World(storage.State(), map[], map[]);
      world := World(storage.State(), map[], map[]);
      trace := [];
    }

    ghost predicate Valid()
      reads this, storage
    {
      && world == Play(origin, trace)
      && storage.Valid()
      && world.store == storage.State()
      && world.checkpoints == checkpoints
    }

    /** Anything anybody else may do: calls on the store, other runs, crashes. The body does nothing;
     *  callers know only that some steps of others have been taken. */
    method Others(ghost run: nat)
      requires Valid() && run in world.runs
      modifies this, storage
      ensures Valid() && origin == old(origin) && old(trace) <= trace
      ensures run in world.runs && world.runs[run] == old(world.runs[run])
    {
    }

    /** One step of the machine has just been carried out on the concrete state. */
    ghost method Record(step: Step)
      requires world == Play(origin, trace) && storage.Valid()
      requires Take(world, step).store == storage.State() && Take(world, step).checkpoints == checkpoints
      modifies this`trace, this`world
      ensures Valid() && trace == old(trace) + [step] && world == old(Take(world, step))
    {
      assert (trace + [step])[..|trace|] == trace;
      trace := trace + [step];
      world := Take(world, step);
    }

    /** `all_chapters`: the rows of a range, each once, in rising order. */
    method AllChapters(book: int, lo: int, hi: Option<int>) returns (list: seq<Snap>)
      requires Keyed(storage.table)
      ensures list == ListChapters(storage.table, book, lo, hi)
    {
      var t := storage.table;
      var left := set id | id in t && t[id].book == book && InRange(t[id].index, lo, hi);
      ghost var all := RowsIn(t, book, lo, hi);
      var ids: seq<nat> := [];
      while left != {}
        invariant left <= all && all <= t.Keys && (forall id :: id in ids ==> id in t) && Picked(t, all, ids, left)
        decreases left
      {
        var least := Smallest(t, left);
        PickLeast(t, book, lo, hi, ids, left, least);
        ids := ids + [least];
        left := left - {least};
      }
      list := seq(|ids|, k requires 0 <= k < |ids| && ids[k] in t => SnapOf(t[ids[k]]));
      ListingUnique(t, book, lo, hi, ids, list);
    }

    static method Smallest(t: Table, ids: set<nat>) returns (least: nat)
      requires ids != {} && ids <= t.Keys
      ensures least in ids && forall id :: id in ids ==> t[least].index <= t[id].index
    {
      least :| least in ids;
      var rest := ids - {least};
      while rest != {}
        invariant rest <= ids && least in ids && least !in rest
        invariant forall id :: id in ids && id !in rest ==> t[least].index <= t[id].index
        decreases rest
      {
        var id :| id in rest;
        rest := rest - {id};
        if t[id].index < t[least].index {
          least := id;
        }
      }
    }
  }

  function SnapOf(r: Row): Snap {
    Snap(r.index, r.title, r.status.Done?)
  }

  /** The rows picked so far are in rising order, and below all that are left. */
  ghost predicate Picked(t: Table, all: set<nat>, ids: seq<nat>, left: set<nat>)
    requires all <= t.Keys && left <= all
  {
    && (forall k :: 0 <= k < |ids| ==> ids[k] in all)
    && (forall id :: id in all ==> id in left || id in ids)
    && (forall j, k :: 0 <= j < k < |ids| ==> t[ids[j]].index < t[ids[k]].index)
    && (forall k, id :: 0 <= k < |ids| && id in left ==> t[ids[k]].index < t[id].index)
  }

  lemma PickLeast(t: Table, book: int, lo: int, hi: Option<int>, ids: seq<nat>, left: set<nat>, least: nat)
    requires Keyed(t) && left <= RowsIn(t, book, lo, hi) && Picked(t, RowsIn(t, book, lo, hi), ids, left)
    requires least in left && forall id :: id in left ==> t[least].index <= t[id].index
    ensures Picked(t, RowsIn(t, book, lo, hi), ids + [least], left - {least})
  {
    forall id | id in left && id != least ensures t[least].index < t[id].index {
      assert !SameChapter(t[least], t[id]);
    }
    assert (ids + [least])[|ids|] == least;
    forall id | id in RowsIn(t, book, lo, hi) ensures id in left - {least} || id in ids + [least] {}
  }

  lemma IndexesPicked(t: Table, book: int, lo: int, hi: Option<int>, ids: seq<nat>, a: seq<int>)
    requires |a| == |ids| && Picked(t, RowsIn(t, book, lo, hi), ids, {})
    requires forall k :: 0 <= k < |ids| ==> a[k] == t[ids[k]].index
    ensures SameElements(a, Rising(IndexesIn(t, book, lo, hi))) && IsRising(a)
  {
    var b := Rising(IndexesIn(t, book, lo, hi));
    forall x ensures x in a <==> x in b {
      if x in a {
        var k :| 0 <= k < |a| && a[k] == x;
        assert ids[k] in RowsIn(t, book, lo, hi);
      }
      if x in b {
        var id :| id in RowsIn(t, book, lo, hi) && t[id].index == x;
        var k :| 0 <= k < |ids| && ids[k] == id;
        assert a[k] == x;
      }
    }
  }

  /** The row ids of a range, sorted by chapter, spell out the listing. */
  lemma ListingUnique(t: Table, book: int, lo: int, hi: Option<int>, ids: seq<nat>, list: seq<Snap>)
    requires Keyed(t) && |list| == |ids| && Picked(t, RowsIn(t, book, lo, hi), ids, {})
    requires forall k :: 0 <= k < |ids| ==> list[k] == SnapOf(t[ids[k]])
    ensures list == ListChapters(t, book, lo, hi)
  {
    var a := seq(|ids|, k requires 0 <= k < |ids| && ids[k] in t => t[ids[k]].index);
    IndexesPicked(t, book, lo, hi, ids, a);
    RisingUnique(a, Rising(IndexesIn(t, book, lo, hi)));
    forall k | 0 <= k < |list| ensures (list[k].done <==> DoneAt(t, book, a[k])) && list[k].title == TitleAt(t, book, a[k]) {
      RowDecidesDone(t, ids[k]);
      ChapterLaws.RowAtFinds(t, ids[k]);
    }
  }

  lemma RowDecidesDone(t: Table, id: nat)
    requires Keyed(t) && id in t
    ensures DoneAt(t, t[id].book, t[id].index) <==> t[id].status.Done?
  {
    if DoneAt(t, t[id].book, t[id].index) {
      var other :| other in t && At(t[other], t[id].book, t[id].index) && t[other].status.Done?;
      assert SameChapter(t[other], t[id]);
    } else {
      assert At(t[id], t[id].book, t[id].index);
    }
  }

  /** The commit as a step of the machine. */
  lemma CommitStep(w: World, run: nat, r: BatchRun, go: Act)
    requires run in w.runs && w.runs[run] == r && r.pc.Finishing? && r.pos < |r.chapters| && go.Go?
    ensures var q := Request(r, r.pc.content, r.pc.lease, go.now, go.suffix);
      var (store, reply) := MarkDone(w.store, q, go.fault);
      Take(w, RunStep(run, go)) == World(store, w.checkpoints, w.runs[run := AfterMark(r, r.pc.lease, reply, go.interrupt)])
  {
  }

  class ChapterBatchRunner {
    const cfg: Config
    const shared: Shared

    constructor (cfg: Config, shared: Shared)
      requires ValidConfig(cfg)
      ensures this.cfg == cfg && this.shared == shared
    {
      this.cfg := cfg;
      this.shared := shared;
    }

    /** The machine has this run exactly where the handler is, with the same local variables. */
    ghost predicate AtPlace(run: nat, r: BatchRun)
      reads shared
    {
      run in shared.world.runs && shared.world.runs[run] == r && r.cfg == cfg
    }

    /** A request to pause or cancel, seen by `check_control`. */
    method ControlRequested() returns (stop: bool) {
      stop := *;
    }

    method Outside() returns (go: Act)
      ensures go.Go?
    {
      var now, token: nat, suffix: string, fault: Fault, interrupt: bool := *, *, *, *, *;
      go := Go(now, token, suffix, fault, interrupt);
    }

    method Process() returns (act: Act)
      ensures act.Content? || act.ProcessorFails? || act.Interrupted?
    {
      var text: string := *;
      var failed: bool := *;
      var stopped: bool := *;
      act := if failed then ProcessorFails else if stopped then Interrupted else Content(text);
    }

    /** One task's handler. `r` holds its local variables. The whole execution is a run of the
     *  machine: the trace is extended by the steps of this run and of others, and the run ends
     *  there with the same outcome. */
    method Call(run: nat) returns (outcome: Outcome)
      requires shared.Valid() && run !in shared.world.runs && ValidConfig(cfg)
      modifies shared, shared.storage
      ensures shared.Valid() && shared.origin == old(shared.origin) && old(shared.trace) <= shared.trace
      ensures run in shared.world.runs && shared.world.runs[run].cfg == cfg
      ensures shared.world.runs[run].pc == Ended(outcome)
    {
      var r := Start(cfg);
      shared.Record(SpawnStep(run, cfg));
      r := LoadCheckpoint(run, r);
      r := LoadChapters(run, r);
      while r.pc.Visiting? && r.pos < |r.chapters|
        invariant shared.Valid() && shared.origin == old(shared.origin) && old(shared.trace) <= shared.trace
        invariant AtPlace(run, r) && (r.pc.Visiting? || r.pc.Ended?)
        decreases if r.pc.Visiting? then |r.chapters| - r.pos + 1 else 0
      {
        r := OneChapter(run, r);
        if r.pc.Counting? {
          r := Save(run, r);
        }
      }
      if r.pc.Visiting? {
        r := AfterLoop(run, r);
      }
      outcome := r.pc.outcome;
    }

    /** The promise to the caller: in a history that began with all of the task's chapters in place
     *  and whose runs of the task share one plan, COMPLETED means that the whole range is done. */
    method CallAndJudge(run: nat, ghost j: Batch.Job) returns (outcome: Outcome)
      requires shared.Valid() && run !in shared.world.runs && ValidConfig(cfg)
      requires Batch.Ready(shared.origin, j) && cfg.task == j.task
      modifies shared, shared.storage
      ensures shared.Valid() && shared.origin == old(shared.origin) && old(shared.trace) <= shared.trace
      ensures outcome.Completed? && Batch.SamePlan(shared.trace, j) ==>
        Batch.AllDone(shared.storage.table, cfg, j.members)
    {
      outcome := Call(run);
      if outcome.Completed? && Batch.SamePlan(shared.trace, j) {
        Batch.CompletedMeansDone(shared.origin, shared.trace, j, run);
      }
    }

    method LoadCheckpoint(run: nat, r0: BatchRun) returns (r: BatchRun)
      requires shared.Valid() && AtPlace(run, r0) && r0 == Start(cfg)
      modifies shared, shared.storage
      ensures shared.Valid() && shared.origin == old(shared.origin) && old(shared.trace) <= shared.trace
      ensures AtPlace(run, r) && (r.pc.Listing? || r.pc.Ended?)
    {
      shared.Others(run);
      r := r0;
      if cfg.task in shared.checkpoints {
        var prior := shared.checkpoints[cfg.task];
        if prior.next <= 0 || prior.next < cfg.start || (cfg.end.Some? && prior.next > cfg.end.value + 1) {
          r := r.(pc := Ended(Stopped));
        } else {
          r := r.(pc := Listing, version := Some(prior.version), next := prior.next, finalNext := prior.next,
                  succeeded := prior.succeeded, failed := prior.failed);
        }
      } else {
        r := r.(pc := Listing);
      }
      shared.Record(RunStep(run, Interrupted));
    }

    method LoadChapters(run: nat, r0: BatchRun) returns (r: BatchRun)
      requires shared.Valid() && AtPlace(run, r0) && (r0.pc.Listing? || r0.pc.Ended?)
      modifies shared, shared.storage
      ensures shared.Valid() && shared.origin == old(shared.origin) && old(shared.trace) <= shared.trace
      ensures AtPlace(run, r) && (r.pc.Visiting? || r.pc.Ended?)
    {
      r := r0;
      if r.pc.Ended? {
        return;
      }
      shared.Others(run);
      if cfg.end.Some? && r.next > cfg.end.value {
        r := r.(pc := Visiting, chapters := []);
      } else if !ListRangeOk(r.next, cfg.end) {
        r := r.(pc := Ended(Stopped));
      } else {
        var chapters := shared.AllChapters(cfg.book, r.next, cfg.end);
        r := r.(pc := Visiting, chapters := chapters);
      }
      shared.Record(RunStep(run, Interrupted));
    }

    /** The body of the loop up to the save: skip a finished chapter, or claim, process and commit it. */
    method OneChapter(run: nat, r0: BatchRun) returns (r: BatchRun)
      requires shared.Valid() && AtPlace(run, r0) && r0.pc.Visiting? && r0.pos < |r0.chapters|
      modifies shared, shared.storage
      ensures shared.Valid() && shared.origin == old(shared.origin) && old(shared.trace) <= shared.trace
      ensures AtPlace(run, r) && (r.pc.Visiting? || r.pc.Counting? || r.pc.Ended?)
      ensures !r.pc.Ended? ==> r.pos == r0.pos + 1 && r.chapters == r0.chapters
    {
      shared.Others(run);
      r := r0;
      var stop := ControlRequested();
      if stop {
        r := r.(pc := Ended(Stopped));
        shared.Record(RunStep(run, Interrupted));
        return;
      }
      var chapter := r.chapters[r.pos];
      r := r.(finalNext := Max(r.finalNext, chapter.index + 1));
      if chapter.done {
        r := EndOfBody(r.(pending := r.pending + 1));
        shared.Record(RunStep(run, ProcessorFails));
        return;
      }
      r := r.(pc := Claiming);
      shared.Record(RunStep(run, ProcessorFails));
      r := Claim(run, r);
      if r.pc.Processing? {
        r := ProcessAndCommit(run, r);
      }
    }

    /** The tail of the loop body: on to the next chapter, by way of a save when a batch is full. */
    function EndOfBody(r: BatchRun): BatchRun {
      if r.pending >= r.cfg.batchSize then r.(pos := r.pos + 1, pc := Counting) else r.(pos := r.pos + 1, pc := Visiting)
    }

    method Claim(run: nat, r0: BatchRun) returns (r: BatchRun)
      requires shared.Valid() && AtPlace(run, r0) && r0.pc.Claiming? && r0.pos < |r0.chapters|
      modifies shared, shared.storage
      ensures shared.Valid() && shared.origin == old(shared.origin) && old(shared.trace) <= shared.trace
      ensures AtPlace(run, r) && (r.pc.Visiting? || r.pc.Counting? || r.pc.Processing?)
      ensures r.chapters == r0.chapters && r.pos == if r.pc.Processing? then r0.pos else r0.pos + 1
    {
      shared.Others(run);
      var index := r0.chapters[r0.pos].index;
      var go := Outside();
      var reply := shared.storage.ClaimChapter(cfg.book, index, cfg.task, go.now, cfg.seconds, go.token);
      if reply.Granted? {
        r := r0.(pc := Processing(reply.lease));
      } else {
        r := EndOfBody(r0.(retry := r0.retry + [index]));
      }
      shared.Record(RunStep(run, go));
    }

    method ProcessAndCommit(run: nat, r0: BatchRun) returns (r: BatchRun)
      requires shared.Valid() && AtPlace(run, r0) && r0.pc.Processing? && r0.pos < |r0.chapters|
      modifies shared, shared.storage
      ensures shared.Valid() && shared.origin == old(shared.origin) && old(shared.trace) <= shared.trace
      ensures AtPlace(run, r) && (r.pc.Visiting? || r.pc.Counting? || r.pc.Ended?)
      ensures !r.pc.Ended? ==> r.pos == r0.pos + 1 && r.chapters == r0.chapters
    {
      shared.Others(run);
      var lease := r0.pc.lease;
      var processed := Process();
      match processed {
        case Content(text) => r := r0.(pc := Finishing(lease, text));
        case ProcessorFails => r := r0.(pc := Failing(lease));
        case _ => r := r0.(pc := Releasing(lease));
      }
      shared.Record(RunStep(run, processed));
      if r.pc.Finishing? {
        r := Commit(run, r);
      }
      if r.pc.Failing? {
        r := GiveUp(run, r);
      } else if r.pc.Releasing? {
        r := Release(run, r);
      }
    }

    method Commit(run: nat, r0: BatchRun) returns (r: BatchRun)
      requires shared.Valid() && AtPlace(run, r0) && r0.pc.Finishing? && r0.pos < |r0.chapters|
      modifies shared, shared.storage
      ensures shared.Valid() && shared.origin == old(shared.origin) && old(shared.trace) <= shared.trace
      ensures AtPlace(run, r)
      ensures r.pc.Visiting? || r.pc.Counting? || r.pc.Failing? || r.pc.Releasing? || r.pc.Ended?
      ensures r.chapters == r0.chapters && r.pos == if r.pc.Visiting? || r.pc.Counting? then r0.pos + 1 else r0.pos
    {
      shared.Others(run);
      var go := Outside();
      var lease := r0.pc.lease;
      var q := Request(r0, r0.pc.content, lease, go.now, go.suffix);
      var mark := shared.storage.MarkDone(q, go.fault);
      if mark.Stored? || mark.Kept? {
        r := EndOfBody(r0.(pending := r0.pending + 1));
      } else if mark.Dead? {
        r := r0.(pc := Ended(Crashed));
      } else if go.interrupt {
        r := r0.(pc := Releasing(lease));
      } else {
        r := r0.(pc := Failing(lease));
      }
      CommitStep(shared.world, run, r0, go);
      assert r == AfterMark(r0, lease, mark, go.interrupt);
      shared.Record(RunStep(run, go));
    }

    /** `mark_failed`; a claim conflict there is swallowed. */
    method GiveUp(run: nat, r0: BatchRun) returns (r: BatchRun)
      requires shared.Valid() && AtPlace(run, r0) && r0.pc.Failing? && r0.pos < |r0.chapters|
      modifies shared, shared.storage
      ensures shared.Valid() && shared.origin == old(shared.origin) && old(shared.trace) <= shared.trace
      ensures AtPlace(run, r) && (r.pc.Visiting? || r.pc.Counting?)
      ensures r.chapters == r0.chapters && r.pos == r0.pos + 1
    {
      shared.Others(run);
      var go := Outside();
      var index := r0.chapters[r0.pos].index;
      var refusal := shared.storage.MarkFailed(cfg.book, index, "chapter_processor_failed", Some(r0.pc.lease), go.now);
      r := EndOfBody(r0.(retry := r0.retry + [index], pending := r0.pending + 1));
      shared.Record(RunStep(run, go));
    }

    /** Give the lease back and let the exception through. */
    method Release(run: nat, r0: BatchRun) returns (r: BatchRun)
      requires shared.Valid() && AtPlace(run, r0) && r0.pc.Releasing? && r0.pos < |r0.chapters|
      modifies shared, shared.storage
      ensures shared.Valid() && shared.origin == old(shared.origin) && old(shared.trace) <= shared.trace
      ensures AtPlace(run, r) && r.pc.Ended?
    {
      shared.Others(run);
      var refusal := shared.storage.ReleaseChapterClaim(cfg.book, r0.chapters[r0.pos].index, r0.pc.lease);
      r := r0.(pc := Ended(Stopped));
      shared.Record(RunStep(run, Interrupted));
    }

    /** After the loop: the last save, and the verdict. */
    method AfterLoop(run: nat, r0: BatchRun) returns (r: BatchRun)
      requires shared.Valid() && AtPlace(run, r0) && r0.pc.Visiting? && r0.pos >= |r0.chapters|
      modifies shared, shared.storage
      ensures shared.Valid() && shared.origin == old(shared.origin) && old(shared.trace) <= shared.trace
      ensures AtPlace(run, r) && r.pc.Ended?
    {
      r := r0;
      if r.pending > 0 || r.version.None? {
        r := r.(pc := Counting);
        shared.Record(RunStep(run, ProcessorFails));
        r := Save(run, r);
        if r.pc.Ended? {
          return;
        }
      }
      r := r.(pc := Ended(if r.failed > 0 || r.retry != [] then RecoverableFailed else Completed));
      shared.Record(RunStep(run, ProcessorFails));
    }

    /** Count, then write the checkpoint if nobody else has written it since. */
    method Save(run: nat, r0: BatchRun) returns (r: BatchRun)
      requires shared.Valid() && AtPlace(run, r0) && r0.pc.Counting?
      modifies shared, shared.storage
      ensures shared.Valid() && shared.origin == old(shared.origin) && old(shared.trace) <= shared.trace
      ensures AtPlace(run, r) && (r.pc.Visiting? || r.pc.Ended?)
      ensures r.pc.Visiting? ==>
        r.pos == r0.pos && r.chapters == r0.chapters && r.pending == 0 && r.version.Some? && r.retry == r0.retry
    {
      shared.Others(run);
      var done, bad := CountRows();
      r := r0.(pc := Saving, succeeded := done, failed := bad);
      shared.Record(RunStep(run, ProcessorFails));
      r := WriteCheckpoint(run, r);
    }

    method WriteCheckpoint(run: nat, r0: BatchRun) returns (r: BatchRun)
      requires shared.Valid() && AtPlace(run, r0) && r0.pc.Saving?
      modifies shared, shared.storage
      ensures shared.Valid() && shared.origin == old(shared.origin) && old(shared.trace) <= shared.trace
      ensures AtPlace(run, r) && (r.pc.Visiting? || r.pc.Ended?)
      ensures r.pc.Visiting? ==>
        r.pos == r0.pos && r.chapters == r0.chapters && r.pending == 0 && r.version.Some? && r.retry == r0.retry
    {
      shared.Others(run);
      r := r0.(pc := Ended(Stopped));
      var stop := ControlRequested();
      if stop {
        shared.Record(RunStep(run, Interrupted));
        return;
      }
      var firstSave := r0.version.None? && cfg.task !in shared.checkpoints;
      var current := r0.version.Some? && cfg.task in shared.checkpoints && shared.checkpoints[cfg.task].version == r0.version.value;
      if firstSave || current {
        var version := if firstSave then 0 else r0.version.value + 1;
        var saved := Checkpoint(version, Least(r0.retry, r0.finalNext), r0.succeeded, r0.failed);
        shared.checkpoints := shared.checkpoints[cfg.task := saved];
        r := r0.(pc := Visiting, pending := 0, version := Some(version));
      }
      shared.Record(RunStep(run, ProcessorFails));
    }

    /** `progress` over the range, by status. */
    method CountRows() returns (done: nat, bad: nat)
      ensures done == CountDone(shared.storage.table, cfg) && bad == CountFailed(shared.storage.table, cfg)
    {
      var t := shared.storage.table;
      var rows := set id | id in t && t[id].book == cfg.book && InRange(t[id].index, cfg.start, cfg.end);
      assert rows == RowsIn(t, cfg.book, cfg.start, cfg.end);
      done := CountStatus(t, rows, Done);
      bad := CountStatus(t, rows, Failed);
    }

    static method CountStatus(t: Table, rows: set<nat>, status: Status) returns (n: nat)
      requires rows <= t.Keys
      ensures n == |WithStatus(t, rows, status)|
    {
      n := 0;
      var left := rows;
      ghost var counted: set<nat> := {};
      while left != {}
        invariant left <= rows && n == |counted|
        invariant counted == set id | id in rows && id !in left && t[id].status == status
        decreases left
      {
        var id :| id in left;
        left := left - {id};
        if t[id].status == status {
          n := n + 1;
          counted := counted + {id};
        }
      }
      assert counted == WithStatus(t, rows, status);
    }
  }
}
