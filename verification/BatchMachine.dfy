/** Chapter batch runs as a state machine: any number of runs, resumed, competing and crashing,
 *  interleaved with arbitrary other calls on the store. Each step is one call into the store or
 *  the checkpoint table, or one decision of the handler. */
module BatchMachine {
  import opened Basics
  import opened ChapterStore
  import opened RisingOrder

  const MaxIndex := 10_000_000

  datatype Checkpoint = Checkpoint(version: nat, next: int, succeeded: nat, failed: nat)

  datatype Config = Config(
    task: string, book: int, start: int, end: Option<int>, batchSize: nat, seconds: int, rejectDuplicates: bool)

  /** What the constructor of a batch runner accepts. */
  predicate ValidConfig(c: Config) {
    && 1 <= c.batchSize <= 1000
    && 1 <= c.seconds <= 3600
    && 1 <= c.start <= MaxIndex
    && (c.end.Some? ==> c.start <= c.end.value <= MaxIndex)
  }

  /** One row of the chapter list a run works from. */
  datatype Snap = Snap(index: int, title: string, done: bool)

  datatype Outcome = Completed | RecoverableFailed | Stopped | Crashed

  datatype Pc =
    | Loading
    | Listing
    | Visiting
    | Claiming
    | Processing(lease: Lease)
    | Finishing(lease: Lease, content: string)
    | Failing(lease: Lease)
    | Releasing(lease: Lease)
    | Counting
    | Saving
    | Ended(outcome: Outcome)

  datatype BatchRun = BatchRun(
    cfg: Config, pc: Pc, version: Option<nat>, next: int, finalNext: int, pending: nat, retry: seq<int>,
    chapters: seq<Snap>, pos: nat, succeeded: nat, failed: nat)

  datatype World = World(store: Store, checkpoints: map<string, Checkpoint>, runs: map<nat, BatchRun>)

  /** What a step leaves to the outside: the clock, random names, the processor, interruptions. */
  datatype Act =
    | Go(now: int, token: nat, suffix: string, fault: Fault, interrupt: bool)
    | Content(text: string)
    | ProcessorFails
    | Interrupted

  datatype Step =
    | StoreStep(call: Call)
    | SpawnStep(run: nat, cfg: Config)
    | RunStep(run: nat, act: Act)
    | CrashStep(run: nat)

  // ---------------------------------------------------------------- the chapter list

  predicate InRange(i: int, lo: int, hi: Option<int>) {
    lo <= i && (hi.None? || i <= hi.value)
  }

  ghost function RowsIn(t: Table, book: int, lo: int, hi: Option<int>): set<nat> {
    set id | id in t && t[id].book == book && InRange(t[id].index, lo, hi)
  }

  ghost predicate DoneAt(t: Table, book: int, index: int) {
    exists id :: id in t && At(t[id], book, index) && t[id].status.Done?
  }

  ghost function TitleAt(t: Table, book: int, index: int): string {
    var found := RowAt(t, book, index);
    if found.Some? then t[found.value].title else ""
  }

  /** `SELECT ... ORDER BY chapter_index`: the rows of a range, each once, in rising order. */
  ghost predicate IsListing(t: Table, book: int, lo: int, hi: Option<int>, list: seq<Snap>) {
    && (forall j, k :: 0 <= j < k < |list| ==> list[j].index < list[k].index)
    && (forall k :: 0 <= k < |list| ==>
         InRange(list[k].index, lo, hi) && RowAt(t, book, list[k].index).Some?
         && (list[k].done <==> DoneAt(t, book, list[k].index)) && list[k].title == TitleAt(t, book, list[k].index))
    && (forall id :: id in t && t[id].book == book && InRange(t[id].index, lo, hi) ==>
         exists k :: 0 <= k < |list| && list[k].index == t[id].index)
  }

  ghost function IndexesIn(t: Table, book: int, lo: int, hi: Option<int>): set<int> {
    set id | id in RowsIn(t, book, lo, hi) :: t[id].index
  }

  ghost function ListChapters(t: Table, book: int, lo: int, hi: Option<int>): seq<Snap> {
    var order := Rising(IndexesIn(t, book, lo, hi));
    seq(|order|, k requires 0 <= k < |order| =>
      Snap(order[k], TitleAt(t, book, order[k]), DoneAt(t, book, order[k])))
  }

  lemma ListingIsRight(t: Table, book: int, lo: int, hi: Option<int>)
    ensures IsListing(t, book, lo, hi, ListChapters(t, book, lo, hi))
  {
    var list, order := ListChapters(t, book, lo, hi), Rising(IndexesIn(t, book, lo, hi));
    forall k | 0 <= k < |list| ensures InRange(list[k].index, lo, hi) && RowAt(t, book, list[k].index).Some? {
      assert order[k] in order;
      var id :| id in RowsIn(t, book, lo, hi) && t[id].index == order[k];
      assert At(t[id], book, order[k]);
    }
    forall id | id in t && t[id].book == book && InRange(t[id].index, lo, hi)
      ensures exists k :: 0 <= k < |list| && list[k].index == t[id].index
    {
      assert id in RowsIn(t, book, lo, hi) && t[id].index in IndexesIn(t, book, lo, hi);
      var k :| 0 <= k < |order| && order[k] == t[id].index;
      assert list[k].index == t[id].index;
    }
  }

  ghost function WithStatus(t: Table, rows: set<nat>, status: Status): set<nat>
    requires rows <= t.Keys
  {
    set id | id in rows && t[id].status == status
  }

  ghost function CountDone(t: Table, cfg: Config): nat {
    |WithStatus(t, RowsIn(t, cfg.book, cfg.start, cfg.end), Done)|
  }

  ghost function CountFailed(t: Table, cfg: Config): nat {
    |WithStatus(t, RowsIn(t, cfg.book, cfg.start, cfg.end), Failed)|
  }

  // ---------------------------------------------------------------- one step of one run

  function Max(a: int, b: int): int { if a < b then b else a }

  function Least(s: seq<int>, default: int): (m: int)
    ensures s == [] ==> m == default
    ensures s != [] ==> m in s && forall k :: 0 <= k < |s| ==> m <= s[k]
  {
    if s == [] then default
    else if |s| == 1 then s[0]
    else
      var m := Least(s[..|s| - 1], default);
      if s[|s| - 1] < m then s[|s| - 1] else m
  }

  /** The value a save stores: the first chapter that has to be tried again, or the end of the work. */
  function NextToSave(r: BatchRun): int {
    Least(r.retry, r.finalNext)
  }

  function Start(cfg: Config): BatchRun {
    BatchRun(cfg, Loading, None, cfg.start, cfg.start, 0, [], [], 0, 0, 0)
  }

  function Load(r: BatchRun, checkpoints: map<string, Checkpoint>): BatchRun {
    if r.cfg.task !in checkpoints then r.(pc := Listing)
    else
      var c := checkpoints[r.cfg.task];
      if c.next <= 0 || c.next < r.cfg.start || (r.cfg.end.Some? && c.next > r.cfg.end.value + 1) then
        r.(pc := Ended(Stopped))
      else
        r.(pc := Listing, version := Some(c.version), next := c.next, finalNext := c.next,
           succeeded := c.succeeded, failed := c.failed)
  }

  predicate ListRangeOk(lo: int, hi: Option<int>) {
    1 <= lo <= MaxIndex && (hi.Some? ==> lo <= hi.value <= MaxIndex)
  }

  ghost function List(r: BatchRun, t: Table): BatchRun {
    if r.cfg.end.Some? && r.next > r.cfg.end.value then r.(pc := Visiting, chapters := [])
    else if !ListRangeOk(r.next, r.cfg.end) then r.(pc := Ended(Stopped))
    else r.(pc := Visiting, chapters := ListChapters(t, r.cfg.book, r.next, r.cfg.end))
  }

  /** After a chapter: save when a batch is full, otherwise look at the next one. */
  function Advance(r: BatchRun): BatchRun {
    r.(pos := r.pos + 1, pc := if r.pending >= r.cfg.batchSize then Counting else Visiting)
  }

  /** The head of the loop, and what follows the loop. */
  function Visit(r: BatchRun): BatchRun {
    if r.pos < |r.chapters| then
      var snap := r.chapters[r.pos];
      var seen := r.(finalNext := Max(r.finalNext, snap.index + 1));
      if snap.done then Advance(seen.(pending := seen.pending + 1)) else seen.(pc := Claiming)
    else if r.pending > 0 || r.version.None? then r.(pc := Counting)
    else r.(pc := Ended(if r.failed > 0 || r.retry != [] then RecoverableFailed else Completed))
  }

  function Retry(r: BatchRun): BatchRun
    requires r.pos < |r.chapters|
  {
    r.(retry := r.retry + [r.chapters[r.pos].index])
  }

  function Request(r: BatchRun, content: string, lease: Lease, now: int, suffix: string): MarkRequest
    requires r.pos < |r.chapters|
  {
    MarkRequest(r.cfg.book, r.chapters[r.pos].index, r.chapters[r.pos].title, content, Some(lease), now, r.cfg.rejectDuplicates, suffix)
  }

  ghost predicate SaveAccepted(r: BatchRun, checkpoints: map<string, Checkpoint>) {
    match r.version
    case None => r.cfg.task !in checkpoints
    case Some(v) => r.cfg.task in checkpoints && checkpoints[r.cfg.task].version == v
  }

  function SavedVersion(r: BatchRun): nat {
    if r.version.None? then 0 else r.version.value + 1
  }

  /** The call on the store that a step of the run makes, if it makes one. */
  function CallOf(r: BatchRun, act: Act): Option<Call> {
    if r.pos >= |r.chapters| then None
    else
      var index := r.chapters[r.pos].index;
      match r.pc
      case Claiming =>
        if act.Go? then Some(ClaimCall(r.cfg.book, index, r.cfg.task, act.now, r.cfg.seconds, act.token)) else None
      case Finishing(lease, content) =>
        if act.Go? then Some(DoneCall(Request(r, content, lease, act.now, act.suffix), act.fault)) else None
      case Failing(lease) =>
        if act.Go? then Some(FailedCall(r.cfg.book, index, "chapter_processor_failed", Some(lease), act.now)) else None
      case Releasing(lease) => Some(ReleaseCall(r.cfg.book, index, lease))
      case _ => None
  }

  ghost function NextStore(s: Store, r: BatchRun, act: Act): Store {
    match CallOf(r, act)
    case None => s
    case Some(call) => Apply(s, call)
  }

  /** Whether the step is a save that the checkpoint table accepts. */
  ghost predicate Saves(w: World, r: BatchRun, act: Act) {
    r.pc.Saving? && !act.Interrupted? && SaveAccepted(r, w.checkpoints)
  }

  ghost function NextCheckpoints(w: World, r: BatchRun, act: Act): map<string, Checkpoint> {
    if Saves(w, r, act)
    then w.checkpoints[r.cfg.task := Checkpoint(SavedVersion(r), NextToSave(r), r.succeeded, r.failed)]
    else w.checkpoints
  }

  ghost function NextRun(w: World, r: BatchRun, act: Act): BatchRun {
    match r.pc
    case Loading => Load(r, w.checkpoints)
    case Listing => List(r, w.store.table)
    case Visiting => if act.Interrupted? && r.pos < |r.chapters| then r.(pc := Ended(Stopped)) else Visit(r)
    case Counting => r.(pc := Saving, succeeded := CountDone(w.store.table, r.cfg), failed := CountFailed(w.store.table, r.cfg))
    case Saving =>
      if Saves(w, r, act) then r.(pc := Visiting, pending := 0, version := Some(SavedVersion(r)))
      else r.(pc := Ended(Stopped))
    case Ended(_) => r
    case _ => if r.pos < |r.chapters| then NextInChapter(w.store, r, act) else r
  }

  ghost function NextInChapter(s: Store, r: BatchRun, act: Act): BatchRun
    requires r.pos < |r.chapters|
  {
    match r.pc
    case Claiming =>
      if !act.Go? then r.(pc := Ended(Stopped))
      else AfterClaim(r, ClaimChapter(s, r.cfg.book, r.chapters[r.pos].index, r.cfg.task, act.now, r.cfg.seconds, act.token).1)
    case Processing(lease) =>
      r.(pc := if act.Content? then Finishing(lease, act.text) else if act.ProcessorFails? then Failing(lease) else Releasing(lease))
    case Finishing(lease, content) =>
      if !act.Go? then r.(pc := Releasing(lease))
      else AfterMark(r, lease, MarkDone(s, Request(r, content, lease, act.now, act.suffix), act.fault).1, act.interrupt)
    case Failing(lease) =>
      if !act.Go? then r.(pc := Ended(Stopped)) else Advance(Retry(r).(pending := r.pending + 1))
    case _ => r.(pc := Ended(Stopped))
  }

  function AfterClaim(r: BatchRun, reply: ClaimReply): BatchRun
    requires r.pos < |r.chapters|
  {
    if reply.Granted? then r.(pc := Processing(reply.lease)) else Advance(Retry(r))
  }

  function AfterMark(r: BatchRun, lease: Lease, reply: MarkReply, interrupt: bool): BatchRun {
    if reply.Stored? || reply.Kept? then Advance(r.(pending := r.pending + 1))
    else if reply.Dead? then r.(pc := Ended(Crashed))
    else r.(pc := if interrupt then Releasing(lease) else Failing(lease))
  }

  ghost function Take(w: World, step: Step): World {
    match step
    case StoreStep(call) => w.(store := Apply(w.store, call))
    case SpawnStep(id, cfg) => if id in w.runs || !ValidConfig(cfg) then w else w.(runs := w.runs[id := Start(cfg)])
    case CrashStep(id) => if id in w.runs then w.(runs := w.runs[id := w.runs[id].(pc := Ended(Crashed))]) else w
    case RunStep(id, act) =>
      if id !in w.runs then w
      else
        var r := w.runs[id];
        World(NextStore(w.store, r, act), NextCheckpoints(w, r, act), w.runs[id := NextRun(w, r, act)])
  }

  ghost function Play(w: World, steps: seq<Step>): World
    decreases |steps|
  {
    if steps == [] then w else Take(Play(w, steps[..|steps| - 1]), steps[|steps| - 1])
  }
}
