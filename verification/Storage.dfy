/** The `Storage` object: the calls of `ChapterStore` as methods that search, update and roll back
 *  their tables and files step by step. Each is proved to compute exactly the specified store. */
module StorageObject {
  import opened Basics
  import opened ChapterStore
  import Laws = ChapterLaws

  class Storage {
    var table: Table
    var fs: FileSystem
    var books: map<int, Book>
    var audits: seq<Audit>
    var nextRow: nat
    ghost var leases: set<Lease>

    ghost function State(): Store
      reads this
    {
      Store(table, fs, books, audits, nextRow, leases)
    }

    ghost predicate Valid()
      reads this
    {
      Laws.TableInv(State())
    }

    /** A migrated database, with whatever claims are still live in it. `handed` records the leases
     *  handed out so far. */
    constructor (
      rows: Table, files: FileSystem, library: map<int, Book>, trail: seq<Audit>, next: nat, ghost handed: set<Lease>)
      requires Keyed(rows) && forall id :: id in rows ==> id < next
      ensures Valid() && State() == Store(rows, files, library, trail, next, handed)
    {
      table, fs, books, audits, nextRow, leases := rows, files, library, trail, next, handed;
    }

    /** SELECT ... WHERE book_id=? AND chapter_index=? */
    method FindRow(book: int, index: int) returns (found: Option<nat>)
      requires Keyed(table)
      ensures found == RowAt(table, book, index)
    {
      var ids := table.Keys;
      while ids != {}
        invariant ids <= table.Keys
        invariant forall id :: id in table && id !in ids ==> !At(table[id], book, index)
        decreases ids
      {
        var id :| id in ids;
        if At(table[id], book, index) {
          Laws.RowAtFinds(table, id);
          return Some(id);
        }
        ids := ids - {id};
      }
      found := None;
    }

    /** SELECT ... WHERE book_id=? AND canonical_url=? */
    method FindByAddress(book: int, canonical: string) returns (found: Option<nat>)
      requires Keyed(table)
      ensures found == RowBoundTo(table, book, canonical)
    {
      var ids := table.Keys;
      while ids != {}
        invariant ids <= table.Keys
        invariant forall id :: id in table && id !in ids ==> !BoundTo(table[id], book, canonical)
        decreases ids
      {
        var id :| id in ids;
        if BoundTo(table[id], book, canonical) {
          assert BoundTo(table[id], book, canonical);
          assert forall x :: x in table && x != id ==> !SameAddress(table[x], table[id]);
          return Some(id);
        }
        ids := ids - {id};
      }
      found := None;
    }

    method FindDuplicate(book: int, index: int, digest: Digest) returns (found: bool)
      ensures found <==> HasDuplicate(table, book, index, digest)
    {
      var ids := table.Keys;
      found := false;
      while ids != {}
        invariant ids <= table.Keys
        invariant forall id :: id in table && id !in ids ==>
          !(table[id].book == book && table[id].index != index && table[id].status.Done? && table[id].hash == Some(digest))
        decreases ids
      {
        var id :| id in ids;
        var r := table[id];
        if r.book == book && r.index != index && r.status.Done? && r.hash == Some(digest) {
          return true;
        }
        ids := ids - {id};
      }
    }

    method ClaimChapter(book: int, index: int, owner: string, now: int, seconds: int, token: nat)
      returns (reply: ClaimReply)
      requires Valid()
      modifies this
      ensures Valid()
      ensures (State(), reply) == ChapterStore.ClaimChapter(old(State()), book, index, owner, now, seconds, token)
    {
      Laws.ClaimKeepsTable(State(), book, index, owner, now, seconds, token);
      reply := ClaimRow(book, index, owner, now, seconds, token);
    }

    method ClaimRow(book: int, index: int, owner: string, now: int, seconds: int, token: nat)
      returns (reply: ClaimReply)
      requires Keyed(table)
      modifies this
      ensures (State(), reply) == ChapterStore.ClaimChapter(old(State()), book, index, owner, now, seconds, token)
    {
      if owner == "" || seconds <= 0 {
        return BadClaim;
      }
      var found := FindRow(book, index);
      if found.None? || !Claimable(table[found.value], owner, now) {
        return Busy;
      }
      var r := table[found.value];
      var lease := LeaseOf(r, owner, now + seconds, token);
      table := table[found.value := r.(claim := Some(Holder(owner, now + seconds, token)),
                                       generation := r.generation + 1, attempts := r.attempts + 1)];
      leases := leases + {lease};
      reply := Granted(lease);
    }

    method MarkFailed(book: int, index: int, error: string, claim: Option<Lease>, now: int)
      returns (refusal: Option<Refusal>)
      requires Valid()
      modifies this
      ensures Valid()
      ensures (State(), refusal) == ChapterStore.MarkFailed(old(State()), book, index, error, claim, now)
    {
      Laws.ApplyKeepsTable(State(), FailedCall(book, index, error, claim, now));
      refusal := FailRow(book, index, error, claim, now);
    }

    method FailRow(book: int, index: int, error: string, claim: Option<Lease>, now: int)
      returns (refusal: Option<Refusal>)
      requires Keyed(table)
      modifies this
      ensures (State(), refusal) == ChapterStore.MarkFailed(old(State()), book, index, error, claim, now)
    {
      refusal := None;
      var found := FindRow(book, index);
      if found.None? {
        return;
      }
      var r := table[found.value];
      if !MayWrite(r, claim, now) {
        return Some(ClaimConflict);
      }
      if !r.status.Done? && Fence(r, claim, now) {
        var attempts := if r.claim.None? then r.attempts + 1 else r.attempts;
        table := table[found.value := r.(status := Failed, error := Some(SafeError(error)),
                                         attempts := attempts, claim := None)];
      }
    }

    method ReleaseChapterClaim(book: int, index: int, claim: Lease) returns (refusal: Option<Refusal>)
      requires Valid()
      modifies this
      ensures Valid()
      ensures (State(), refusal) == ReleaseClaim(old(State()), book, index, claim)
    {
      Laws.ApplyKeepsTable(State(), ReleaseCall(book, index, claim));
      refusal := ReleaseRow(book, index, claim);
    }

    method ReleaseRow(book: int, index: int, claim: Lease) returns (refusal: Option<Refusal>)
      requires Keyed(table)
      modifies this
      ensures (State(), refusal) == ReleaseClaim(old(State()), book, index, claim)
    {
      var found := FindRow(book, index);
      if found.None? || !Releasable(table[found.value], claim) {
        return Some(ClaimConflict);
      }
      table := table[found.value := table[found.value].(claim := None)];
      refusal := None;
    }

    method ResetFailed(book: int)
      requires Valid()
      modifies this
      ensures Valid() && State() == ChapterStore.ResetFailed(old(State()), book)
    {
      Laws.ResetKeepsTable(State(), book);
      ResetRows(book);
    }

    method ResetRows(book: int)
      modifies this`table
      ensures State() == ChapterStore.ResetFailed(old(State()), book)
    {
      ghost var before := table;
      var ids := table.Keys;
      while ids != {}
        invariant ids <= table.Keys == before.Keys
        invariant forall id :: id in before ==> table[id] == if id in ids then before[id] else ResetRow(before[id], book)
        decreases ids
      {
        var id :| id in ids;
        var r := table[id];
        if r.book == book && r.status.Failed? {
          table := table[id := r.(status := Pending, error := None)];
        }
        ids := ids - {id};
      }
    }

    method UpsertChapters(book: int, chapters: seq<Incoming>) returns (committed: bool)
      requires Valid()
      modifies this
      ensures Valid() && State() == ChapterStore.UpsertChapters(old(State()), book, chapters)
      ensures committed <==> forall i :: 0 <= i < |chapters| ==> chapters[i].canonical.Some?
    {
      ghost var before := State();
      var savedTable, savedNext := table, nextRow;
      for k := 0 to |chapters|
        invariant forall i :: 0 <= i < k ==> chapters[i].canonical.Some?
        invariant State() == UpsertAll(before, book, chapters[..k])
        invariant Valid()
      {
        var c := chapters[k];
        if c.canonical.None? {
          // the transaction is rolled back
          UpsertTouchesTableOnly(before, book, chapters[..k]);
          table, nextRow := savedTable, savedNext;
          return false;
        }
        ghost var middle := State();
        assert chapters[..k + 1][..k] == chapters[..k];
        Laws.UpsertOneKeepsTable(middle, book, c);
        var byIndex := FindRow(book, c.index);
        var byUrl := FindByAddress(book, c.canonical.value);
        if byIndex.None? && byUrl.None? {
          table, nextRow := table[nextRow := NewRow(book, c)], nextRow + 1;
        } else if byIndex.Some? && (byUrl.None? || byUrl == byIndex) {
          if !table[byIndex.value].status.Done? {
            table := table[byIndex.value := Renamed(table[byIndex.value], c)];
          }
        }
        assert State() == UpsertOne(middle, book, c);
      }
      assert chapters[..|chapters|] == chapters;
      committed := true;
    }

    lemma {:induction false} UpsertTouchesTableOnly(s: Store, book: int, chapters: seq<Incoming>)
      requires forall i :: 0 <= i < |chapters| ==> chapters[i].canonical.Some?
      ensures var s' := UpsertAll(s, book, chapters); s' == s.(table := s'.table, nextRow := s'.nextRow)
    {
      if chapters != [] {
        UpsertTouchesTableOnly(s, book, chapters[..|chapters| - 1]);
      }
    }

    /** `mark_done`: temporary file, rename and row update inside one write reservation. The fault
     *  says where the call is cut and whether the exception handler still runs. */
    method MarkDone(q: MarkRequest, fault: Fault) returns (reply: MarkReply)
      requires Valid()
      modifies this
      ensures Valid() && (State(), reply) == ChapterStore.MarkDone(old(State()), q, fault)
    {
      ghost var before := State();
      Laws.MarkDoneKeepsTable(before, q, fault);
      var found := FindRow(q.book, q.index);
      if found.None? {
        return Refused(NoChapter);
      }
      var r := table[found.value];
      var digest := Sha256(q.content);
      if !MayWrite(r, q.claim, q.now) {
        return Refused(ClaimConflict);
      }
      if Blank(q.content) {
        return Refused(ContentEmpty);
      }
      if r.status.Done? {
        if r.hash == Some(digest) && r.path.Some? && IsFile(fs, r.path.value) {
          return Kept(r.path.value);
        }
        return Refused(ContentConflict);
      }
      if q.rejectDuplicates {
        var duplicate := FindDuplicate(q.book, q.index, digest);
        if duplicate {
          return Refused(ContentDuplicate);
        }
      }
      if q.book !in books {
        return Refused(NoBook);
      }
      if q.book <= 0 {
        return Refused(BadBook);
      }
      var dir := ContentDir(q.book);
      if dir in fs && !fs[dir].Dir? {
        return Refused(DiskError);
      }
      if TempLoc(q.book, q.index, q.suffix) in fs {
        return Refused(DiskError);
      }
      assert Decide(before, q) == Write(found.value, digest);
      reply := WriteAndCommit(q, found.value, digest, fault);
    }

    method WriteAndCommit(q: MarkRequest, id: nat, digest: Digest, fault: Fault) returns (reply: MarkReply)
      requires q.book > 0 && id in table && TempLoc(q.book, q.index, q.suffix) !in fs
      requires At(table[id], q.book, q.index) && !table[id].status.Done? && Fence(table[id], q.claim, q.now)
      modifies this
      ensures (State(), reply) == WriteChapter(old(State()), q, id, digest, fault)
    {
      ghost var before := State();
      var path, temp := ChapterLoc(q.book, q.index), TempLoc(q.book, q.index, q.suffix);
      Laws.ChapterFilesDistinct(q.book, q.index, q.book, q.index, q.suffix);
      var blocked := path in fs && fs[path].Dir?;
      fs := fs[ContentDir(q.book) := Dir];
      ghost var ready := fs;
      fs := fs[temp := File(if fault.Died? && fault.at.TempMade? then fault.partial else "")];
      if fault.Died? && fault.at.TempMade? {
        return Dead;
      }
      if fault == Raised(TempMade) {
        fs := fs - {temp};
        assert fs == ready - {temp};
        return Aborted;
      }
      fs := fs[temp := File(q.content)];
      if fault.Died? && fault.at.TempWritten? {
        assert fs == ready[temp := File(q.content)];
        return Dead;
      }
      if fault == Raised(TempWritten) || blocked {
        fs := fs - {temp};
        assert fs == ready - {temp};
        return Aborted;
      }
      fs := fs[path := fs[temp]] - {temp};
      assert fs == ready[path := File(q.content)] - {temp};
      if fault.Died? && fault.at.Replaced? {
        return Dead;
      }
      if fault == Raised(Replaced) {
        fs := fs - {path};
        return Aborted;
      }
      table := table[id := Completed(table[id], q, path, digest)];
      if fault.Died? {
        return Dead;
      }
      if fault.Raised? {
        fs := fs - {path};
        return Aborted;
      }
      reply := Stored(path);
    }
  }
}
