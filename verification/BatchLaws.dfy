/** What COMPLETED means for a chapter batch, whatever else ran, crashed or was resumed. */
module BatchLaws {
  import opened Basics
  import opened ChapterStore
  import opened ChapterLaws
  import opened BatchMachine

  // ---------------------------------------------------------------- the invariant

  /** Every chapter of `members` from `lo` up to but not including `hi` is done. */
  ghost predicate DoneBelow(t: Table, book: int, members: set<int>, lo: int, hi: int) {
    forall m :: m in members && lo <= m < hi ==> DoneAt(t, book, m)
  }

  ghost predicate AllDone(t: Table, cfg: Config, members: set<int>) {
    forall m :: m in members && InRange(m, cfg.start, cfg.end) ==> DoneAt(t, cfg.book, m)
  }

  ghost predicate HaveRows(t: Table, book: int, members: set<int>) {
    forall m :: m in members ==> RowAt(t, book, m).Some?
  }

  /** The list a run works from is in rising order, above where it started, and misses no member. */
  ghost predicate ListCovers(r: BatchRun, members: set<int>) {
    && (forall j, k :: 0 <= j < k < |r.chapters| ==> r.chapters[j].index < r.chapters[k].index)
    && (forall k :: 0 <= k < |r.chapters| ==> InRange(r.chapters[k].index, r.next, r.cfg.end))
    && (forall m :: m in members && InRange(m, r.next, r.cfg.end) ==>
         exists k :: 0 <= k < |r.chapters| && r.chapters[k].index == m)
  }

  /** Chapters before `pos` are done or queued for another try; `finalNext` is just past chapter `seen`. */
  ghost predicate Visited(t: Table, r: BatchRun, seen: nat) {
    && r.pos <= seen <= |r.chapters| && seen <= r.pos + 1
    && r.finalNext == (if seen == 0 then r.next else r.chapters[seen - 1].index + 1)
    && (forall i :: 0 <= i < |r.retry| ==> r.retry[i] < r.finalNext)
    && (forall k :: 0 <= k < |r.chapters| && r.chapters[k].done ==> DoneAt(t, r.cfg.book, r.chapters[k].index))
    && (forall k :: 0 <= k < r.pos ==> DoneAt(t, r.cfg.book, r.chapters[k].index) || r.chapters[k].index in r.retry)
  }

  ghost predicate WorkOk(t: Table, r: BatchRun, members: set<int>, seen: nat) {
    && DoneBelow(t, r.cfg.book, members, r.cfg.start, r.next)
    && (r.cfg.end.Some? ==> r.next <= r.cfg.end.value + 1)
    && ListCovers(r, members)
    && Visited(t, r, seen)
  }

  ghost predicate RunOk(t: Table, r: BatchRun, members: set<int>) {
    match r.pc
    case Loading => r == Start(r.cfg) && ValidConfig(r.cfg)
    case Listing =>
      && DoneBelow(t, r.cfg.book, members, r.cfg.start, r.next)
      && (r.cfg.end.Some? ==> r.next <= r.cfg.end.value + 1)
      && r.finalNext == r.next && r.retry == [] && r.chapters == [] && r.pos == 0
    case Visiting => WorkOk(t, r, members, r.pos)
    case Counting => WorkOk(t, r, members, r.pos)
    case Saving => WorkOk(t, r, members, r.pos)
    case Ended(outcome) => outcome.Completed? ==> AllDone(t, r.cfg, members)
    case _ => WorkOk(t, r, members, r.pos + 1)
  }

  /** One task: its book, where its range starts, and the chapters that had rows when it began. */
  datatype Job = Job(task: string, book: int, start: int, members: set<int>)

  predicate Belongs(r: BatchRun, j: Job) {
    r.cfg.task == j.task
  }

  /** The invariant. In particular every saved `next_index` has only done chapters below it. */
  ghost predicate WorldOk(w: World, j: Job) {
    && TableInv(w.store)
    && HaveRows(w.store.table, j.book, j.members)
    && (j.task in w.checkpoints ==>
         DoneBelow(w.store.table, j.book, j.members, j.start, w.checkpoints[j.task].next))
    && (forall id :: id in w.runs && Belongs(w.runs[id], j) ==>
         w.runs[id].cfg.book == j.book && w.runs[id].cfg.start == j.start && RunOk(w.store.table, w.runs[id], j.members))
  }

  // ---------------------------------------------------------------- stability

  lemma DoneAtStays(t: Table, t': Table, book: int, index: int)
    requires Grows(t, t') && DoneAt(t, book, index)
    ensures DoneAt(t', book, index)
  {
    var id :| id in t && At(t[id], book, index) && t[id].status.Done?;
    assert id in t' && Evolves(t[id], t'[id]);
  }

  lemma DoneBelowStays(t: Table, t': Table, book: int, members: set<int>, lo: int, hi: int)
    requires Grows(t, t') && DoneBelow(t, book, members, lo, hi)
    ensures DoneBelow(t', book, members, lo, hi)
  {
    forall m | m in members && lo <= m < hi ensures DoneAt(t', book, m) {
      DoneAtStays(t, t', book, m);
    }
  }

  lemma WorkOkStays(t: Table, t': Table, r: BatchRun, members: set<int>, seen: nat)
    requires Grows(t, t') && WorkOk(t, r, members, seen)
    ensures WorkOk(t', r, members, seen)
  {
    DoneBelowStays(t, t', r.cfg.book, members, r.cfg.start, r.next);
    forall k | 0 <= k < |r.chapters| && DoneAt(t, r.cfg.book, r.chapters[k].index)
      ensures DoneAt(t', r.cfg.book, r.chapters[k].index)
    {
      DoneAtStays(t, t', r.cfg.book, r.chapters[k].index);
    }
  }

  /** Nothing anybody does to the store can invalidate what a run has established. */
  lemma RunOkStays(t: Table, t': Table, r: BatchRun, members: set<int>)
    requires Grows(t, t') && RunOk(t, r, members)
    ensures RunOk(t', r, members)
  {
    match r.pc
    case Loading =>
    case Listing => DoneBelowStays(t, t', r.cfg.book, members, r.cfg.start, r.next);
    case Ended(_) =>
      if r.pc.outcome.Completed? {
        forall m | m in members && InRange(m, r.cfg.start, r.cfg.end) ensures DoneAt(t', r.cfg.book, m) {
          DoneAtStays(t, t', r.cfg.book, m);
        }
      }
    case Visiting => WorkOkStays(t, t', r, members, r.pos);
    case Counting => WorkOkStays(t, t', r, members, r.pos);
    case Saving => WorkOkStays(t, t', r, members, r.pos);
    case _ => WorkOkStays(t, t', r, members, r.pos + 1);
  }

  lemma HaveRowsStays(t: Table, t': Table, book: int, members: set<int>)
    requires Grows(t, t') && HaveRows(t, book, members)
    ensures HaveRows(t', book, members)
  {
    forall m | m in members ensures RowAt(t', book, m).Some? {
      RowAtStays(t, t', book, m);
    }
  }

  // ---------------------------------------------------------------- the steps of a run

  lemma ListOk(t: Table, r: BatchRun, members: set<int>)
    requires r.pc.Listing? && RunOk(t, r, members) && HaveRows(t, r.cfg.book, members) && Keyed(t)
    ensures RunOk(t, List(r, t), members)
  {
    var r' := List(r, t);
    if r'.pc.Visiting? && !(r.cfg.end.Some? && r.next > r.cfg.end.value) {
      ListingIsRight(t, r.cfg.book, r.next, r.cfg.end);
      forall m | m in members && InRange(m, r.next, r.cfg.end)
        ensures exists k :: 0 <= k < |r'.chapters| && r'.chapters[k].index == m
      {
        var id := RowAt(t, r.cfg.book, m).value;
        assert t[id].book == r.cfg.book && t[id].index == m;
      }
      assert ListCovers(r', members);
      assert Visited(t, r', 0);
    }
  }

  /** What would be saved now has only done members below it. */
  lemma SaveIsSound(t: Table, r: BatchRun, members: set<int>)
    requires WorkOk(t, r, members, r.pos)
    ensures DoneBelow(t, r.cfg.book, members, r.cfg.start, NextToSave(r))
  {
    var next := NextToSave(r);
    forall m | m in members && r.cfg.start <= m < next ensures DoneAt(t, r.cfg.book, m) {
      if m >= r.next {
        assert InRange(m, r.next, r.cfg.end);
        var k :| 0 <= k < |r.chapters| && r.chapters[k].index == m;
        if k < r.pos {
          assert m !in r.retry;
        }
      }
    }
  }

  /** A run that reaches its end with nothing to retry has seen every member of its range done. */
  lemma EndIsSound(t: Table, r: BatchRun, members: set<int>)
    requires WorkOk(t, r, members, r.pos) && r.pos == |r.chapters| && r.retry == []
    ensures AllDone(t, r.cfg, members)
  {
    forall m | m in members && InRange(m, r.cfg.start, r.cfg.end) ensures DoneAt(t, r.cfg.book, m) {
      if m >= r.next {
        assert InRange(m, r.next, r.cfg.end);
        var k :| 0 <= k < |r.chapters| && r.chapters[k].index == m;
        assert k < r.pos;
      }
    }
  }

  /** The facts about the work depend on nothing else. */
  lemma SameWork(t: Table, r: BatchRun, r': BatchRun, members: set<int>, seen: nat)
    requires WorkOk(t, r, members, seen)
    requires r'.cfg == r.cfg && r'.next == r.next && r'.finalNext == r.finalNext
    requires r'.chapters == r.chapters && r'.pos == r.pos && r'.retry == r.retry
    ensures WorkOk(t, r', members, seen)
  {
  }

  /** The next chapter of the list is seen. */
  lemma SeenOk(t: Table, r: BatchRun, r': BatchRun, members: set<int>, seen: nat)
    requires WorkOk(t, r, members, r.pos) && r.pos < |r.chapters| && seen == r.pos + 1
    requires r'.cfg == r.cfg && r'.next == r.next && r'.finalNext == Max(r.finalNext, r.chapters[r.pos].index + 1)
    requires r'.chapters == r.chapters && r'.retry == r.retry
    requires r'.pos == r.pos || (r'.pos == r.pos + 1 && r.chapters[r.pos].done)
    ensures WorkOk(t, r', members, seen)
  {
    assert r.pos > 0 ==> r.chapters[r.pos - 1].index < r.chapters[r.pos].index;
    assert r'.finalNext == r.chapters[r.pos].index + 1;
    assert ListCovers(r', members);
  }

  lemma VisitOk(t: Table, r: BatchRun, members: set<int>)
    requires r.pc.Visiting? && RunOk(t, r, members)
    ensures RunOk(t, Visit(r), members)
  {
    var r' := Visit(r);
    if r.pos < |r.chapters| {
      SeenOk(t, r, r', members, r.pos + 1);
    } else if r'.pc == Ended(Completed) {
      EndIsSound(t, r, members);
    } else if r'.pc.Counting? {
      SameWork(t, r, r', members, r.pos);
    }
  }

  /** A chapter has been dealt with: it is done, or it has been queued for another try. */
  lemma AdvanceOk(t: Table, t': Table, r: BatchRun, r': BatchRun, members: set<int>)
    requires Grows(t, t') && WorkOk(t, r, members, r.pos + 1) && r.pos < |r.chapters|
    requires r'.cfg == r.cfg && r'.next == r.next && r'.finalNext == r.finalNext && r'.chapters == r.chapters && r'.pos == r.pos
    requires r'.retry == r.retry + [r.chapters[r.pos].index]
      || (r'.retry == r.retry && DoneAt(t', r.cfg.book, r.chapters[r.pos].index))
    ensures RunOk(t', Advance(r'), members)
  {
    WorkOkStays(t, t', r, members, r.pos + 1);
    var r'' := Advance(r');
    assert ListCovers(r'', members);
    forall k | 0 <= k < r''.pos ensures DoneAt(t', r.cfg.book, r.chapters[k].index) || r.chapters[k].index in r''.retry {
      if k == r.pos && r'.retry != r.retry {
        assert r'.retry[|r.retry|] == r.chapters[k].index;
      }
    }
  }

  predicate InChapter(pc: Pc) {
    pc.Claiming? || pc.Processing? || pc.Finishing? || pc.Failing? || pc.Releasing?
  }

  /** Whatever a run does to the store is one of the store's own calls. */
  lemma NextStoreGrows(s: Store, r: BatchRun, act: Act)
    requires TableInv(s)
    ensures TableInv(NextStore(s, r, act)) && Grows(s.table, NextStore(s, r, act).table)
  {
    if CallOf(r, act).Some? {
      ApplyKeepsTable(s, CallOf(r, act).value);
    }
  }

  lemma AfterClaimOk(t: Table, t': Table, r: BatchRun, reply: ClaimReply, members: set<int>)
    requires Grows(t, t') && WorkOk(t, r, members, r.pos + 1) && r.pos < |r.chapters|
    ensures RunOk(t', AfterClaim(r, reply), members)
  {
    if reply.Granted? {
      WorkOkStays(t, t', r, members, r.pos + 1);
      SameWork(t', r, AfterClaim(r, reply), members, r.pos + 1);
    } else {
      AdvanceOk(t, t', r, Retry(r), members);
    }
  }

  lemma AfterMarkOk(
    t: Table, t': Table, r: BatchRun, lease: Lease, reply: MarkReply, interrupt: bool, members: set<int>)
    requires Grows(t, t') && WorkOk(t, r, members, r.pos + 1) && r.pos < |r.chapters|
    requires reply.Stored? || reply.Kept? ==> DoneAt(t', r.cfg.book, r.chapters[r.pos].index)
    ensures RunOk(t', AfterMark(r, lease, reply, interrupt), members)
  {
    if reply.Stored? || reply.Kept? {
      AdvanceOk(t, t', r, r.(pending := r.pending + 1), members);
    } else {
      UnmarkedOk(t, t', r, AfterMark(r, lease, reply, interrupt), members);
    }
  }

  /** A chapter that was not committed is still at hand, or the run is over. */
  lemma UnmarkedOk(t: Table, t': Table, r: BatchRun, r': BatchRun, members: set<int>)
    requires Grows(t, t') && WorkOk(t, r, members, r.pos + 1)
    requires r' == r.(pc := r'.pc) && (r'.pc.Releasing? || r'.pc.Failing? || r'.pc == Ended(Crashed))
    ensures RunOk(t', r', members)
  {
    WorkOkStays(t, t', r, members, r.pos + 1);
    SameWork(t', r, r', members, r.pos + 1);
  }

  lemma ClaimingOk(s: Store, r: BatchRun, act: Act, members: set<int>)
    requires TableInv(s) && r.pos < |r.chapters| && WorkOk(s.table, r, members, r.pos + 1) && r.pc.Claiming?
    ensures RunOk(NextStore(s, r, act).table, NextInChapter(s, r, act), members)
  {
    NextStoreGrows(s, r, act);
    if act.Go? {
      var reply := ClaimChapter(s, r.cfg.book, r.chapters[r.pos].index, r.cfg.task, act.now, r.cfg.seconds, act.token).1;
      AfterClaimOk(s.table, NextStore(s, r, act).table, r, reply, members);
    }
  }

  lemma CommittedOk(s: Store, r: BatchRun, q: MarkRequest, lease: Lease, fault: Fault, interrupt: bool, members: set<int>)
    requires TableInv(s) && r.pos < |r.chapters| && WorkOk(s.table, r, members, r.pos + 1)
    requires q.book == r.cfg.book && q.index == r.chapters[r.pos].index
    ensures var s' := Apply(s, DoneCall(q, fault));
      RunOk(s'.table, AfterMark(r, lease, MarkDone(s, q, fault).1, interrupt), members)
  {
    ApplyKeepsTable(s, DoneCall(q, fault));
    MarkedIsDone(s, q, fault);
    AfterMarkOk(s.table, Apply(s, DoneCall(q, fault)).table, r, lease, MarkDone(s, q, fault).1, interrupt, members);
  }

  lemma FinishingOk(s: Store, r: BatchRun, act: Act, members: set<int>)
    requires TableInv(s) && r.pos < |r.chapters| && WorkOk(s.table, r, members, r.pos + 1) && r.pc.Finishing?
    ensures RunOk(NextStore(s, r, act).table, NextInChapter(s, r, act), members)
  {
    if act.Go? {
      var q := Request(r, r.pc.content, r.pc.lease, act.now, act.suffix);
      CommittedOk(s, r, q, r.pc.lease, act.fault, act.interrupt, members);
    } else {
      SameWork(s.table, r, NextInChapter(s, r, act), members, r.pos + 1);
    }
  }

  lemma FailingOk(s: Store, r: BatchRun, act: Act, members: set<int>)
    requires TableInv(s) && r.pos < |r.chapters| && WorkOk(s.table, r, members, r.pos + 1) && r.pc.Failing?
    ensures RunOk(NextStore(s, r, act).table, NextInChapter(s, r, act), members)
  {
    NextStoreGrows(s, r, act);
    if act.Go? {
      FailedStep(s, r, act);
      AdvanceOk(s.table, NextStore(s, r, act).table, r, Retry(r).(pending := r.pending + 1), members);
    }
  }

  lemma FailedStep(s: Store, r: BatchRun, act: Act)
    requires r.pos < |r.chapters| && r.pc.Failing? && act.Go?
    ensures NextInChapter(s, r, act) == Advance(Retry(r).(pending := r.pending + 1))
  {
  }

  lemma ProcessingOk(s: Store, r: BatchRun, act: Act, members: set<int>)
    requires r.pos < |r.chapters| && WorkOk(s.table, r, members, r.pos + 1) && r.pc.Processing?
    ensures RunOk(NextStore(s, r, act).table, NextInChapter(s, r, act), members)
  {
    SameWork(s.table, r, NextInChapter(s, r, act), members, r.pos + 1);
  }

  lemma NextInChapterOk(s: Store, r: BatchRun, act: Act, members: set<int>)
    requires TableInv(s) && r.pos < |r.chapters| && WorkOk(s.table, r, members, r.pos + 1) && InChapter(r.pc)
    ensures RunOk(NextStore(s, r, act).table, NextInChapter(s, r, act), members)
  {
    if r.pc.Claiming? {
      ClaimingOk(s, r, act, members);
    } else if r.pc.Processing? {
      ProcessingOk(s, r, act, members);
    } else if r.pc.Finishing? {
      FinishingOk(s, r, act, members);
    } else if r.pc.Failing? {
      FailingOk(s, r, act, members);
    }
  }

  lemma MarkedIsDone(s: Store, q: MarkRequest, fault: Fault)
    ensures var (s', reply) := MarkDone(s, q, fault);
      reply.Stored? || reply.Kept? ==> DoneAt(s'.table, q.book, q.index)
  {
    var reply := MarkDone(s, q, fault).1;
    if reply.Stored? || reply.Kept? {
      SuccessMeansDone(s, q, fault);
    }
  }

  lemma LoadOk(t: Table, r: BatchRun, checkpoints: map<string, Checkpoint>, members: set<int>)
    requires r.pc.Loading? && RunOk(t, r, members)
    requires r.cfg.task in checkpoints ==> DoneBelow(t, r.cfg.book, members, r.cfg.start, checkpoints[r.cfg.task].next)
    ensures RunOk(t, Load(r, checkpoints), members)
  {
  }

  lemma CountOk(w: World, r: BatchRun, act: Act, members: set<int>)
    requires r.pc.Counting? && RunOk(w.store.table, r, members)
    ensures RunOk(w.store.table, NextRun(w, r, act), members)
  {
    SameWork(w.store.table, r, NextRun(w, r, act), members, r.pos);
  }

  lemma SaveOk(w: World, r: BatchRun, act: Act, members: set<int>)
    requires r.pc.Saving? && RunOk(w.store.table, r, members)
    ensures RunOk(w.store.table, NextRun(w, r, act), members)
  {
    if Saves(w, r, act) {
      SameWork(w.store.table, r, NextRun(w, r, act), members, r.pos);
    }
  }

  /** The steps that only read the store. */
  lemma QuietRunOk(w: World, r: BatchRun, act: Act, members: set<int>)
    requires !InChapter(r.pc) && Keyed(w.store.table)
    requires RunOk(w.store.table, r, members) && HaveRows(w.store.table, r.cfg.book, members)
    requires r.pc.Loading? && r.cfg.task in w.checkpoints ==>
      DoneBelow(w.store.table, r.cfg.book, members, r.cfg.start, w.checkpoints[r.cfg.task].next)
    ensures RunOk(w.store.table, NextRun(w, r, act), members)
  {
    if r.pc.Loading? {
      LoadOk(w.store.table, r, w.checkpoints, members);
    } else if r.pc.Listing? {
      ListOk(w.store.table, r, members);
    } else if r.pc.Visiting? {
      VisitOk(w.store.table, r, members);
    } else if r.pc.Counting? {
      CountOk(w, r, act, members);
    } else if r.pc.Saving? {
      SaveOk(w, r, act, members);
    }
  }

  /** One step of one run keeps its own facts. */
  lemma NextRunOk(w: World, r: BatchRun, act: Act, members: set<int>)
    requires TableInv(w.store) && RunOk(w.store.table, r, members) && HaveRows(w.store.table, r.cfg.book, members)
    requires r.pc.Loading? && r.cfg.task in w.checkpoints ==>
      DoneBelow(w.store.table, r.cfg.book, members, r.cfg.start, w.checkpoints[r.cfg.task].next)
    ensures RunOk(NextStore(w.store, r, act).table, NextRun(w, r, act), members)
  {
    if InChapter(r.pc) {
      NextInChapterOk(w.store, r, act, members);
    } else {
      QuietRunOk(w, r, act, members);
      assert CallOf(r, act).None?;
    }
  }

  lemma NextRunKeepsCfg(w: World, r: BatchRun, act: Act)
    ensures NextRun(w, r, act).cfg == r.cfg
  {
  }

  // ---------------------------------------------------------------- every step, every run

  /** All runs of the task work for the same book from the same first chapter. */
  ghost predicate SamePlan(steps: seq<Step>, j: Job) {
    forall k :: 0 <= k < |steps| && steps[k].SpawnStep? && steps[k].cfg.task == j.task ==>
      steps[k].cfg.book == j.book && steps[k].cfg.start == j.start
  }

  lemma OthersStay(w: World, store: Store, j: Job)
    requires WorldOk(w, j) && TableInv(store) && Grows(w.store.table, store.table)
    ensures WorldOk(w.(store := store), j)
  {
    HaveRowsStays(w.store.table, store.table, j.book, j.members);
    if j.task in w.checkpoints {
      DoneBelowStays(w.store.table, store.table, j.book, j.members, j.start, w.checkpoints[j.task].next);
    }
    forall id | id in w.runs && Belongs(w.runs[id], j) ensures RunOk(store.table, w.runs[id], j.members) {
      RunOkStays(w.store.table, store.table, w.runs[id], j.members);
    }
  }

  lemma TakeKeepsWorldOk(w: World, step: Step, j: Job)
    requires WorldOk(w, j) && SamePlan([step], j)
    ensures WorldOk(Take(w, step), j)
  {
    match step
    case StoreStep(call) =>
      ApplyKeepsTable(w.store, call);
      OthersStay(w, Apply(w.store, call), j);
    case SpawnStep(id, cfg) =>
      assert step == [step][0];
      assert RunOk(w.store.table, Start(cfg), j.members) || !ValidConfig(cfg);
    case CrashStep(id) =>
    case RunStep(id, act) =>
      if id in w.runs {
        RunStepKeepsWorldOk(w, id, act, j);
      }
  }

  lemma SaveKeepsSound(w: World, r: BatchRun, act: Act, j: Job)
    requires WorldOk(w, j) && (Belongs(r, j) ==> r.cfg.book == j.book && r.cfg.start == j.start && RunOk(w.store.table, r, j.members))
    ensures j.task in NextCheckpoints(w, r, act) ==>
      DoneBelow(w.store.table, j.book, j.members, j.start, NextCheckpoints(w, r, act)[j.task].next)
  {
    if Belongs(r, j) && Saves(w, r, act) {
      SaveIsSound(w.store.table, r, j.members);
    }
  }

  lemma RunStepKeepsWorldOk(w: World, id: nat, act: Act, j: Job)
    requires WorldOk(w, j) && id in w.runs
    ensures WorldOk(Take(w, RunStep(id, act)), j)
  {
    var r := w.runs[id];
    var s', checkpoints := NextStore(w.store, r, act), NextCheckpoints(w, r, act);
    NextStoreGrows(w.store, r, act);
    NextRunKeepsCfg(w, r, act);
    SaveKeepsSound(w, r, act, j);
    if Belongs(r, j) {
      NextRunOk(w, r, act, j.members);
    }
    OthersStay(w, s', j);
    if j.task in checkpoints {
      DoneBelowStays(w.store.table, s'.table, j.book, j.members, j.start, checkpoints[j.task].next);
    }
    RunReplaced(w, World(s', checkpoints, w.runs), id, NextRun(w, r, act), j);
  }

  lemma RunReplaced(w: World, w': World, id: nat, r': BatchRun, j: Job)
    requires WorldOk(w.(store := w'.store), j) && id in w.runs && r'.cfg == w.runs[id].cfg && w'.runs == w.runs
    requires Belongs(r', j) ==> RunOk(w'.store.table, r', j.members)
    requires j.task in w'.checkpoints ==>
      DoneBelow(w'.store.table, j.book, j.members, j.start, w'.checkpoints[j.task].next)
    ensures WorldOk(w'.(runs := w.runs[id := r']), j)
  {
    var v := w'.(runs := w.runs[id := r']);
    var u := w.(store := w'.store);
    forall x | x in v.runs && Belongs(v.runs[x], j)
      ensures v.runs[x].cfg.book == j.book && v.runs[x].cfg.start == j.start && RunOk(v.store.table, v.runs[x], j.members)
    {
      assert x in u.runs && Belongs(u.runs[x], j);
    }
  }

  /** Induction over any interleaving of runs, crashes, resumptions and foreign calls. */
  lemma {:induction false} PlayKeepsWorldOk(w: World, steps: seq<Step>, j: Job)
    requires WorldOk(w, j) && SamePlan(steps, j)
    ensures WorldOk(Play(w, steps), j)
    decreases |steps|
  {
    if steps != [] {
      var before, last := steps[..|steps| - 1], steps[|steps| - 1];
      PlayKeepsWorldOk(w, before, j);
      assert [last][0] == steps[|steps| - 1];
      TakeKeepsWorldOk(Play(w, before), last, j);
    }
  }

  // ---------------------------------------------------------------- main results

  /** The chapters of the task are all there before its first run. */
  ghost predicate Ready(w: World, j: Job) {
    && TableInv(w.store)
    && HaveRows(w.store.table, j.book, j.members)
    && j.task !in w.checkpoints
    && (forall id :: id in w.runs ==> w.runs[id].cfg.task != j.task)
  }

  /** Any run that ends COMPLETED, after any interleaving of runs, crashes, lapsed leases, pauses
   *  and other calls, leaves every member of its range done. */
  lemma CompletedMeansDone(w: World, steps: seq<Step>, j: Job, run: nat)
    requires Ready(w, j) && SamePlan(steps, j)
    requires var v := Play(w, steps);
      run in v.runs && v.runs[run].cfg.task == j.task && v.runs[run].pc == Ended(Completed)
    ensures var v := Play(w, steps); AllDone(v.store.table, v.runs[run].cfg, j.members)
  {
    PlayKeepsWorldOk(w, steps, j);
    var v := Play(w, steps);
    assert Belongs(v.runs[run], j);
  }

  ghost function Span(lo: int, hi: int): set<int> {
    set i: int | lo <= i <= hi && InRange(i, lo, Some(hi))
  }

  /** The same, for a range every chapter of which has a row: then every chapter of it is done. */
  lemma CompletedFillsRange(w: World, steps: seq<Step>, task: string, book: int, start: int, end: int, run: nat)
    requires Ready(w, Job(task, book, start, Span(start, end))) && SamePlan(steps, Job(task, book, start, Span(start, end)))
    requires var v := Play(w, steps);
      && run in v.runs && v.runs[run].cfg.task == task && v.runs[run].pc == Ended(Completed)
      && v.runs[run].cfg.start == start && v.runs[run].cfg.end == Some(end)
    ensures var v := Play(w, steps); forall i :: start <= i <= end ==> DoneAt(v.store.table, v.runs[run].cfg.book, i)
  {
    var j := Job(task, book, start, Span(start, end));
    CompletedMeansDone(w, steps, j, run);
    var v := Play(w, steps);
    forall i | start <= i <= end ensures DoneAt(v.store.table, v.runs[run].cfg.book, i) {
      assert InRange(i, start, Some(end)) && i in j.members;
    }
  }

  /** Every checkpoint any run has saved has only done chapters below its `next_index`. */
  lemma CheckpointsAreSound(w: World, steps: seq<Step>, j: Job, m: int)
    requires Ready(w, j) && SamePlan(steps, j)
    requires var v := Play(w, steps); j.task in v.checkpoints && j.start <= m < v.checkpoints[j.task].next
    requires m in j.members
    ensures DoneAt(Play(w, steps).store.table, j.book, m)
  {
    PlayKeepsWorldOk(w, steps, j);
  }

  // ---------------------------------------------------------------- one run on its own

  /** A run that is past its first step, and what holds of it. */
  ghost predicate LoadedOk(w: World, run: nat, cfg: Config, members: set<int>) {
    && TableInv(w.store) && HaveRows(w.store.table, cfg.book, members)
    && run in w.runs && w.runs[run].cfg == cfg && !w.runs[run].pc.Loading? && RunOk(w.store.table, w.runs[run], members)
  }

  lemma LoadedStoreGrows(w: World, s': Store, run: nat, cfg: Config, members: set<int>)
    requires LoadedOk(w, run, cfg, members) && TableInv(s') && Grows(w.store.table, s'.table)
    ensures HaveRows(s'.table, cfg.book, members) && RunOk(s'.table, w.runs[run], members)
  {
    RunOkStays(w.store.table, s'.table, w.runs[run], members);
    HaveRowsStays(w.store.table, s'.table, cfg.book, members);
  }

  lemma LoadedOwnStep(w: World, run: nat, act: Act, cfg: Config, members: set<int>)
    requires LoadedOk(w, run, cfg, members)
    ensures var v := Take(w, RunStep(run, act));
      LoadedOk(v, run, cfg, members) && Grows(w.store.table, v.store.table)
  {
    var r := w.runs[run];
    NextStoreGrows(w.store, r, act);
    LoadedStoreGrows(w, NextStore(w.store, r, act), run, cfg, members);
    NextRunOk(w, r, act, members);
    NextRunKeepsCfg(w, r, act);
  }

  lemma LoadedRunStep(w: World, step: Step, run: nat, cfg: Config, members: set<int>)
    requires LoadedOk(w, run, cfg, members)
    ensures LoadedOk(Take(w, step), run, cfg, members) && Grows(w.store.table, Take(w, step).store.table)
  {
    if step.StoreStep? {
      ApplyKeepsTable(w.store, step.call);
      LoadedStoreGrows(w, Apply(w.store, step.call), run, cfg, members);
    } else if step.RunStep? && step.run == run {
      LoadedOwnStep(w, run, step.act, cfg, members);
    } else if step.RunStep? && step.run in w.runs {
      var s' := NextStore(w.store, w.runs[step.run], step.act);
      NextStoreGrows(w.store, w.runs[step.run], step.act);
      LoadedStoreGrows(w, s', run, cfg, members);
    }
  }

  /** From the moment a run has loaded its checkpoint, and whatever anyone does afterwards, its
   *  COMPLETED covers every member from the loaded `next` on, even if that value was wrong. */
  lemma {:induction false} LoadedRunCovers(w: World, steps: seq<Step>, run: nat, cfg: Config, members: set<int>)
    requires LoadedOk(w, run, cfg, members)
    ensures LoadedOk(Play(w, steps), run, cfg, members) && Grows(w.store.table, Play(w, steps).store.table)
    decreases |steps|
  {
    if steps != [] {
      var before, last := steps[..|steps| - 1], steps[|steps| - 1];
      LoadedRunCovers(w, before, run, cfg, members);
      LoadedRunStep(Play(w, before), last, run, cfg, members);
      GrowsTransitive(w.store.table, Play(w, before).store.table, Play(w, steps).store.table);
    }
  }

  lemma LoadedIsOk(w: World, run: nat, rest: set<int>)
    requires TableInv(w.store) && run in w.runs && w.runs[run].pc.Listing?
    requires w.runs[run] == Load(Start(w.runs[run].cfg), w.checkpoints) && ValidConfig(w.runs[run].cfg)
    requires HaveRows(w.store.table, w.runs[run].cfg.book, rest) && forall m :: m in rest ==> m >= w.runs[run].next
    ensures LoadedOk(w, run, w.runs[run].cfg, rest)
  {
  }

  /** What a run was told to skip, and what of it is done. */
  ghost predicate SkippedDone(t: Table, cfg: Config, members: set<int>, next: int) {
    forall m :: m in members && InRange(m, cfg.start, cfg.end) && m < next ==> DoneAt(t, cfg.book, m)
  }

  /** Exactly when COMPLETED is right. A run that has just loaded a checkpoint and later ends
   *  COMPLETED leaves its whole range done if and only if the chapters that the checkpoint told it
   *  to skip are done by then. Nothing else can go wrong, and nothing else can put it right. */
  lemma CompletedExactly(w: World, steps: seq<Step>, run: nat, members: set<int>)
    requires TableInv(w.store) && run in w.runs && w.runs[run].pc.Listing?
    requires w.runs[run] == Load(Start(w.runs[run].cfg), w.checkpoints) && ValidConfig(w.runs[run].cfg)
    requires HaveRows(w.store.table, w.runs[run].cfg.book, members)
    requires run in Play(w, steps).runs && Play(w, steps).runs[run].pc == Ended(Completed)
    ensures var v, cfg := Play(w, steps), w.runs[run].cfg;
      AllDone(v.store.table, cfg, members) <==> SkippedDone(v.store.table, cfg, members, w.runs[run].next)
  {
    var r := w.runs[run];
    var rest := set m | m in members && m >= r.next;
    LoadedIsOk(w, run, rest);
    LoadedRunCovers(w, steps, run, r.cfg, rest);
    var v := Play(w, steps);
    forall m | m in members && InRange(m, r.cfg.start, r.cfg.end) && m >= r.next ensures DoneAt(v.store.table, r.cfg.book, m) {
      assert m in rest;
    }
  }

  /** The chapter that a call of a run is about. */
  predicate About(c: Call, book: int, index: int) {
    match c
    case ClaimCall(b, i, _, _, _, _) => b == book && i == index
    case DoneCall(q, _) => q.book == book && q.index == index
    case FailedCall(b, i, _, _, _) => b == book && i == index
    case ReleaseCall(b, i, _) => b == book && i == index
    case _ => false
  }

  /** Rows of other chapters are as they were. */
  ghost predicate OthersSame(t: Table, t': Table, book: int, index: int) {
    forall id :: id in t' && !At(t'[id], book, index) ==> id in t && t[id] == t'[id]
  }

  lemma MarkTouchesOneChapter(s: Store, q: MarkRequest, fault: Fault)
    ensures OthersSame(s.table, MarkDone(s, q, fault).0.table, q.book, q.index)
  {
    var d := Decide(s, q);
    if d.Write? {
      WriteTouchesOneRow(s, q, d.id, d.digest, fault);
    }
  }

  lemma CallTouchesOneChapter(s: Store, c: Call, book: int, index: int)
    requires About(c, book, index)
    ensures OthersSame(s.table, Apply(s, c).table, book, index)
  {
    if c.DoneCall? {
      MarkTouchesOneChapter(s, c.q, c.fault);
    }
  }

  lemma OtherDoneSame(t: Table, t': Table, book: int, index: int, m: int)
    requires OthersSame(t, t', book, index) && Grows(t, t') && m != index
    ensures DoneAt(t', book, m) <==> DoneAt(t, book, m)
  {
    if DoneAt(t, book, m) {
      DoneAtStays(t, t', book, m);
    }
    if DoneAt(t', book, m) {
      var id :| id in t' && At(t'[id], book, m) && t'[id].status.Done?;
      assert id in t && t[id] == t'[id];
    }
  }

  lemma CallIsAbout(r: BatchRun, act: Act)
    requires CallOf(r, act).Some?
    ensures InChapter(r.pc) && r.pos < |r.chapters| && About(CallOf(r, act).value, r.cfg.book, r.chapters[r.pos].index)
  {
  }

  /** A run past its first step never touches a chapter below the index that it has loaded. */
  lemma OwnStepAbove(w: World, run: nat, act: Act, cfg: Config, m: int)
    requires LoadedOk(w, run, cfg, {}) && m < w.runs[run].next
    ensures var v := Take(w, RunStep(run, act));
      && run in v.runs && v.runs[run].next == w.runs[run].next
      && (DoneAt(v.store.table, cfg.book, m) <==> DoneAt(w.store.table, cfg.book, m))
  {
    var r := w.runs[run];
    NextRunKeepsNext(w, r, act);
    if CallOf(r, act).Some? {
      CallIsAbout(r, act);
      var index := r.chapters[r.pos].index;
      assert ListCovers(r, {}) && InRange(index, r.next, r.cfg.end);
      CallTouchesOneChapter(w.store, CallOf(r, act).value, cfg.book, index);
      ApplyKeepsTable(w.store, CallOf(r, act).value);
      OtherDoneSame(w.store.table, Apply(w.store, CallOf(r, act).value).table, cfg.book, index, m);
    }
  }

  lemma NextRunKeepsNext(w: World, r: BatchRun, act: Act)
    requires !r.pc.Loading?
    ensures NextRun(w, r, act).next == r.next
  {
  }

  /** Nobody but this run touches the store: others may be spawned and may crash. */
  predicate Undisturbed(steps: seq<Step>, run: nat) {
    forall k :: 0 <= k < |steps| ==> (steps[k].RunStep? && steps[k].run == run) || steps[k].SpawnStep? || steps[k].CrashStep?
  }

  lemma {:induction false} OwnStepsAbove(w: World, steps: seq<Step>, run: nat, cfg: Config, m: int)
    requires LoadedOk(w, run, cfg, {}) && m < w.runs[run].next && Undisturbed(steps, run)
    ensures var v := Play(w, steps);
      && run in v.runs && v.runs[run].next == w.runs[run].next
      && (DoneAt(v.store.table, cfg.book, m) <==> DoneAt(w.store.table, cfg.book, m))
    decreases |steps|
  {
    if steps != [] {
      var before, last := steps[..|steps| - 1], steps[|steps| - 1];
      OwnStepsAbove(w, before, run, cfg, m);
      LoadedRunCovers(w, before, run, cfg, {});
      if last.RunStep? {
        OwnStepAbove(Play(w, before), run, last.act, cfg, m);
      }
    }
  }

  /** What can be told when the checkpoint has been loaded: if nobody else touches the store, COMPLETED
   *  leaves the whole range done if and only if the chapters to be skipped are done already. */
  lemma CompletedIffDoneAtLoad(w: World, steps: seq<Step>, run: nat, members: set<int>)
    requires TableInv(w.store) && run in w.runs && w.runs[run].pc.Listing?
    requires w.runs[run] == Load(Start(w.runs[run].cfg), w.checkpoints) && ValidConfig(w.runs[run].cfg)
    requires HaveRows(w.store.table, w.runs[run].cfg.book, members) && Undisturbed(steps, run)
    requires run in Play(w, steps).runs && Play(w, steps).runs[run].pc == Ended(Completed)
    ensures var cfg := w.runs[run].cfg;
      AllDone(Play(w, steps).store.table, cfg, members) <==> SkippedDone(w.store.table, cfg, members, w.runs[run].next)
  {
    var cfg, next := w.runs[run].cfg, w.runs[run].next;
    CompletedExactly(w, steps, run, members);
    LoadedIsOk(w, run, {});
    forall m | m < next ensures DoneAt(Play(w, steps).store.table, cfg.book, m) <==> DoneAt(w.store.table, cfg.book, m) {
      OwnStepsAbove(w, steps, run, cfg, m);
    }
  }

  /** And whatever others do: if they are done then, COMPLETED is right. */
  lemma DoneAtLoadSuffices(w: World, steps: seq<Step>, run: nat, members: set<int>)
    requires TableInv(w.store) && run in w.runs && w.runs[run].pc.Listing?
    requires w.runs[run] == Load(Start(w.runs[run].cfg), w.checkpoints) && ValidConfig(w.runs[run].cfg)
    requires HaveRows(w.store.table, w.runs[run].cfg.book, members)
    requires SkippedDone(w.store.table, w.runs[run].cfg, members, w.runs[run].next)
    requires run in Play(w, steps).runs && Play(w, steps).runs[run].pc == Ended(Completed)
    ensures AllDone(Play(w, steps).store.table, w.runs[run].cfg, members)
  {
    var cfg, next := w.runs[run].cfg, w.runs[run].next;
    CompletedExactly(w, steps, run, members);
    LoadedIsOk(w, run, {});
    LoadedRunCovers(w, steps, run, cfg, {});
    forall m | m in members && InRange(m, cfg.start, cfg.end) && m < next ensures DoneAt(Play(w, steps).store.table, cfg.book, m) {
      DoneAtStays(w.store.table, Play(w, steps).store.table, cfg.book, m);
    }
  }

  /** Why all runs of a task have to share their first chapter: a run that finds a checkpoint past
   *  the end of its range ends COMPLETED without looking at a single chapter. A checkpoint left by
   *  a run of the same task over a later part of the book is enough. */
  lemma ForeignCheckpointSkips(w: World, run: nat, cfg: Config, act: Act)
    requires ValidConfig(cfg) && cfg.end.Some? && run !in w.runs && cfg.task in w.checkpoints
    requires w.checkpoints[cfg.task].next == cfg.end.value + 1 && w.checkpoints[cfg.task].failed == 0
    ensures var v := Play(w, [SpawnStep(run, cfg), RunStep(run, act), RunStep(run, act), RunStep(run, act)]);
      run in v.runs && v.runs[run].pc == Ended(Completed) && v.runs[run].cfg == cfg && v.store == w.store
  {
    var steps := [SpawnStep(run, cfg), RunStep(run, act), RunStep(run, act), RunStep(run, act)];
    assert steps[..3] == [SpawnStep(run, cfg), RunStep(run, act), RunStep(run, act)];
    assert steps[..3][..2] == [SpawnStep(run, cfg), RunStep(run, act)];
    assert steps[..3][..2][..1] == [SpawnStep(run, cfg)];
    assert steps[..3][..2][..1][..0] == [];
    var w1 := Take(w, SpawnStep(run, cfg));
    assert Play(w, []) == w && Play(w, [SpawnStep(run, cfg)]) == w1;
    var w2 := Take(w1, RunStep(run, act));
    assert Play(w, [SpawnStep(run, cfg), RunStep(run, act)]) == w2 && w2.runs[run].pc.Listing?;
    var w3 := Take(w2, RunStep(run, act));
    assert Play(w, [SpawnStep(run, cfg), RunStep(run, act), RunStep(run, act)]) == w3 && w3.runs[run].pc.Visiting?;
    var w4 := Take(w3, RunStep(run, act));
    assert Play(w, steps) == w4;
  }
}
