/** What the calls of the store answer when they are made: who is granted a chapter and until when,
 *  which writes are accepted, and what the row says afterwards. */
module ChapterAnswers {
  import opened Basics
  import opened ChapterStore
  import opened ChapterLaws

  /** The chapter's row, under the unique index. */
  ghost predicate RowIs(s: Store, id: nat, book: int, index: int) {
    id in s.table && s.table[id].book == book && s.table[id].index == index
  }

  lemma TheRow(s: Store, id: nat, book: int, index: int)
    requires TableInv(s) && RowIs(s, id, book, index)
    ensures RowAt(s.table, book, index) == Some(id)
  {
    RowAtFinds(s.table, id);
  }

  lemma NoRow(s: Store, book: int, index: int)
    requires forall id :: !RowIs(s, id, book, index)
    ensures RowAt(s.table, book, index).None?
  {
    if RowAt(s.table, book, index).Some? {
      assert RowIs(s, RowAt(s.table, book, index).value, book, index);
    }
  }

  /** Nothing but one row has changed. */
  ghost predicate OnlyRow(s: Store, s': Store, id: nat, r: Row) {
    s' == s.(table := s.table[id := r], leases := s'.leases)
  }

  // ---------------------------------------------------------------- claiming

  /** A valid lease on the row belongs to the asking owner. */
  ghost predicate NoRival(s: Store, id: nat, owner: string, now: int)
    requires id in s.table
  {
    forall l :: l in s.leases && LeaseValid(s.table[id], l, now) ==> l.owner == owner
  }

  lemma RivalIff(s: Store, id: nat, owner: string, now: int)
    requires LeaseInv(s) && id in s.table
    ensures NoRival(s, id, owner, now) <==>
      var c := s.table[id].claim; c.None? || c.value.owner == owner || now >= c.value.until
  {
    if s.table[id].claim.Some? {
      assert HolderLease(s.table[id]) in s.leases;
    }
  }

  /** A claim is granted exactly when it is a proper one, there is such a chapter and it is not done,
   *  and whoever holds a lease on it that is still valid is the one who asks. */
  lemma GrantedIff(s: Store, book: int, index: int, owner: string, now: int, seconds: int, token: nat)
    requires TableInv(s) && LeaseInv(s)
    ensures ClaimChapter(s, book, index, owner, now, seconds, token).1.Granted? <==>
      owner != "" && seconds > 0
      && exists id :: RowIs(s, id, book, index) && !s.table[id].status.Done? && NoRival(s, id, owner, now)
  {
    if id :| RowIs(s, id, book, index) {
      TheRow(s, id, book, index);
      RivalIff(s, id, owner, now);
      forall x | RowIs(s, x, book, index) ensures x == id {
        TheRow(s, x, book, index);
      }
    } else {
      NoRow(s, book, index);
    }
  }

  /** What is granted: a lease of the next generation for that long, valid at once. One more attempt is
   *  counted, and nothing else changes. */
  lemma GrantGives(s: Store, id: nat, book: int, index: int, owner: string, now: int, seconds: int, token: nat)
    requires TableInv(s) && RowIs(s, id, book, index)
    requires ClaimChapter(s, book, index, owner, now, seconds, token).1.Granted?
    ensures var (s', reply) := ClaimChapter(s, book, index, owner, now, seconds, token);
      var r := s.table[id];
      && reply.lease == Lease(book, index, owner, r.generation + 1, now + seconds, token)
      && s'.leases == s.leases + {reply.lease}
      && OnlyRow(s, s', id, r.(claim := Some(Holder(owner, now + seconds, token)), generation := r.generation + 1, attempts := r.attempts + 1))
      && LeaseValid(s'.table[id], reply.lease, now)
  {
    TheRow(s, id, book, index);
  }

  /** A row that was claimed until some moment and has not been touched since. */
  predicate HeldUntil(r: Row, lease: Lease, until: int) {
    && !r.status.Done? && r.claim == Some(Holder(lease.owner, until, lease.token))
    && lease == Lease(r.book, r.index, lease.owner, r.generation, until, lease.token)
  }

  lemma GrantHolds(s: Store, id: nat, book: int, index: int, owner: string, now: int, seconds: int, token: nat)
    requires TableInv(s) && RowIs(s, id, book, index)
    requires ClaimChapter(s, book, index, owner, now, seconds, token).1.Granted?
    ensures var (s', reply) := ClaimChapter(s, book, index, owner, now, seconds, token);
      id in s'.table && HeldUntil(s'.table[id], reply.lease, now + seconds)
  {
    GrantGives(s, id, book, index, owner, now, seconds, token);
  }

  /** To the moment: until a lease ends nobody else is granted the chapter, and from then on everybody
   *  is. Its owner may renew it at any time. */
  lemma OthersWaitForTheEnd(
    s: Store, id: nat, lease: Lease, until: int, other: string, now: int, seconds: int, token: nat)
    requires TableInv(s) && id in s.table && HeldUntil(s.table[id], lease, until) && other != "" && seconds > 0
    ensures ClaimChapter(s, lease.book, lease.index, other, now, seconds, token).1.Granted?
      <==> other == lease.owner || now >= until
  {
    TheRow(s, id, lease.book, lease.index);
  }

  /** To the moment: with the lease a failure is recorded before its end and refused from then on;
   *  without a lease it is the other way round. */
  lemma FailuresKeepToTheLease(s: Store, id: nat, lease: Lease, until: int, error: string, now: int)
    requires TableInv(s) && id in s.table && HeldUntil(s.table[id], lease, until)
    ensures MarkFailed(s, lease.book, lease.index, error, Some(lease), now).1.None? <==> now < until
    ensures MarkFailed(s, lease.book, lease.index, error, None, now).1.None? <==> now >= until
    ensures now >= until ==> MarkFailed(s, lease.book, lease.index, error, Some(lease), now) == (s, Some(ClaimConflict))
    ensures now < until ==> MarkFailed(s, lease.book, lease.index, error, None, now) == (s, Some(ClaimConflict))
  {
    TheRow(s, id, lease.book, lease.index);
  }

  /** And so with finished content. */
  lemma ContentKeepsToTheLease(s: Store, id: nat, lease: Lease, until: int, q: MarkRequest)
    requires TableInv(s) && id in s.table && HeldUntil(s.table[id], lease, until)
    requires q.book == lease.book && q.index == lease.index && (q.claim == Some(lease) || q.claim == None)
    ensures Decide(s, q) == Refuse(ClaimConflict) <==> (q.claim.Some? <==> q.now >= until)
  {
    TheRow(s, id, lease.book, lease.index);
  }

  /** A lease can be given back at any time, also after its end; then the chapter is free for all. */
  lemma ReleaseFrees(
    s: Store, id: nat, lease: Lease, until: int, other: string, now: int, seconds: int, token: nat)
    requires TableInv(s) && id in s.table && HeldUntil(s.table[id], lease, until) && other != "" && seconds > 0
    ensures var (s', refusal) := ReleaseClaim(s, lease.book, lease.index, lease);
      && refusal.None? && OnlyRow(s, s', id, s.table[id].(claim := None)) && s'.leases == s.leases
      && ClaimChapter(s', lease.book, lease.index, other, now, seconds, token).1.Granted?
  {
    TheRow(s, id, lease.book, lease.index);
    var s' := ReleaseClaim(s, lease.book, lease.index, lease).0;
    KeyedReplace(s.table, id, s.table[id].(claim := None));
    TheRow(s', id, lease.book, lease.index);
  }

  /** Nobody gives back a lease that is not the last one granted for the chapter. */
  lemma OnlyTheHolderReleases(s: Store, id: nat, lease: Lease)
    requires TableInv(s) && RowIs(s, id, lease.book, lease.index)
    ensures ReleaseClaim(s, lease.book, lease.index, lease).1.None? <==>
      exists until :: HeldUntil(s.table[id], lease.(expiresAt := until), until)
    ensures ReleaseClaim(s, lease.book, lease.index, lease).1.Some? ==> ReleaseClaim(s, lease.book, lease.index, lease).0 == s
  {
    TheRow(s, id, lease.book, lease.index);
    if ReleaseClaim(s, lease.book, lease.index, lease).1.None? {
      assert HeldUntil(s.table[id], lease.(expiresAt := s.table[id].claim.value.until), s.table[id].claim.value.until);
    }
  }

  // ---------------------------------------------------------------- failing, resetting

  /** What a recorded failure leaves: the row is failed under a code from the list, free to be claimed
   *  again at once, and has its content columns and its generation as before. An attempt that began
   *  with a claim is not counted twice. */
  lemma FailureGives(s: Store, id: nat, error: string, claim: Option<Lease>, now: int)
    requires TableInv(s) && id in s.table && !s.table[id].status.Done?
    requires MarkFailed(s, s.table[id].book, s.table[id].index, error, claim, now).1.None?
    ensures var r := s.table[id];
      var s' := MarkFailed(s, r.book, r.index, error, claim, now).0;
      var code := if error in SafeErrorCodes then error else "chapter_download_failed";
      && OnlyRow(s, s', id, r.(status := Failed, error := Some(code), claim := None, attempts := r.attempts + if r.claim.Some? then 0 else 1))
      && s'.leases == s.leases
  {
    TheRow(s, id, s.table[id].book, s.table[id].index);
  }

  /** A reset makes the failed rows of its book pending again, without their codes. Those of other books
   *  and all that are not failed stay as they are. */
  lemma ResetGives(s: Store, book: int, id: nat)
    requires id in s.table
    ensures var t := ResetFailed(s, book).table;
      && t.Keys == s.table.Keys && ResetFailed(s, book) == s.(table := t)
      && (s.table[id].book == book && s.table[id].status == Failed ==>
            t[id] == s.table[id].(status := Pending, error := None))
      && (s.table[id].book != book || s.table[id].status != Failed ==> t[id] == s.table[id])
  {
  }

  // ---------------------------------------------------------------- listing chapters

  ghost predicate AddressTaken(s: Store, book: int, canonical: string, id: nat) {
    id in s.table && s.table[id].book == book && s.table[id].canonical == canonical
  }

  lemma NoAddress(s: Store, book: int, canonical: string)
    requires forall id :: !AddressTaken(s, book, canonical, id)
    ensures RowBoundTo(s.table, book, canonical).None?
  {
    if RowBoundTo(s.table, book, canonical).Some? {
      assert AddressTaken(s, book, canonical, RowBoundTo(s.table, book, canonical).value);
    }
  }

  /** A chapter whose index and address are both new is inserted, without content, claim or error. */
  lemma NewChapterIsInserted(s: Store, book: int, c: Incoming)
    requires c.canonical.Some?
    requires forall id :: !RowIs(s, id, book, c.index) && !AddressTaken(s, book, c.canonical.value, id)
    ensures UpsertOne(s, book, c) == s.(nextRow := s.nextRow + 1, table := s.table[s.nextRow :=
      Row(book, c.index, c.title, c.url, c.canonical.value, c.status, None, None, None, 0, None, 0)])
  {
    NoRow(s, book, c.index);
    NoAddress(s, book, c.canonical.value);
  }

  /** A known chapter that is not done takes over title and address, and nothing else, unless another
   *  chapter of the book has that address. */
  lemma KnownChapterIsRenamedIff(s: Store, id: nat, book: int, c: Incoming)
    requires TableInv(s) && c.canonical.Some? && RowIs(s, id, book, c.index)
    ensures var r := s.table[id];
      UpsertOne(s, book, c) ==
        if !r.status.Done? && forall x :: AddressTaken(s, book, c.canonical.value, x) ==> x == id
        then s.(table := s.table[id := r.(title := c.title, url := c.url, canonical := c.canonical.value)]) else s
  {
    TheRow(s, id, book, c.index);
    var found := RowBoundTo(s.table, book, c.canonical.value);
    forall x | AddressTaken(s, book, c.canonical.value, x) ensures found == Some(x) {
      assert BoundTo(s.table[x], book, c.canonical.value);
      assert found.Some? && AddressTaken(s, book, c.canonical.value, found.value);
      assert found.value != x ==> !SameAddress(s.table[found.value], s.table[x]);
    }
    if found.Some? {
      assert AddressTaken(s, book, c.canonical.value, found.value);
    }
  }

  /** An address that is bound to another chapter stays bound to it. */
  lemma TakenAddressStays(s: Store, book: int, c: Incoming, x: nat)
    requires TableInv(s) && c.canonical.Some? && AddressTaken(s, book, c.canonical.value, x) && s.table[x].index != c.index
    ensures UpsertOne(s, book, c) == s
  {
    assert BoundTo(s.table[x], book, c.canonical.value);
    var found := RowBoundTo(s.table, book, c.canonical.value);
    assert found.Some? && AddressTaken(s, book, c.canonical.value, found.value);
    assert found.value != x ==> !SameAddress(s.table[found.value], s.table[x]);
  }

  predicate AllNormal(chapters: seq<Incoming>) {
    forall i :: 0 <= i < |chapters| ==> chapters[i].canonical.Some?
  }

  /** A batch is taken in its order, one chapter after the other. */
  lemma {:induction false} BatchInOrder(s: Store, book: int, a: seq<Incoming>, b: seq<Incoming>)
    requires AllNormal(a) && AllNormal(b)
    ensures AllNormal(a + b) && UpsertAll(s, book, a + b) == UpsertAll(UpsertAll(s, book, a), book, b)
    ensures |b| == 1 ==> UpsertAll(s, book, b) == UpsertOne(s, book, b[0])
    decreases |b|
  {
    if b == [] {
      assert a + b == a;
    } else {
      var n := |b| - 1;
      assert (a + b)[..|a + b| - 1] == a + b[..n] && (a + b)[|a + b| - 1] == b[n];
      BatchInOrder(s, book, a, b[..n]);
    }
  }

  /** One address without a normal form, and nothing of the batch is taken. */
  lemma OneBadAddressStopsAll(s: Store, book: int, chapters: seq<Incoming>)
    ensures UpsertChapters(s, book, chapters) == if AllNormal(chapters) then UpsertAll(s, book, chapters) else s
  {
  }

  /** Nothing in the batch is known, or twice in it. */
  ghost predicate AllNew(s: Store, book: int, chapters: seq<Incoming>) {
    && AllNormal(chapters)
    && (forall i, id :: 0 <= i < |chapters| ==>
         !RowIs(s, id, book, chapters[i].index) && !AddressTaken(s, book, chapters[i].canonical.value, id))
    && (forall i, j :: 0 <= i < j < |chapters| ==>
         chapters[i].index != chapters[j].index && chapters[i].canonical != chapters[j].canonical)
  }

  function FreshRow(book: int, c: Incoming): Row
    requires c.canonical.Some?
  {
    Row(book, c.index, c.title, c.url, c.canonical.value, c.status, None, None, None, 0, None, 0)
  }

  /** The rows of the batch stand behind all others. */
  ghost predicate Inserted(s: Store, s': Store, book: int, chapters: seq<Incoming>) {
    && AllNormal(chapters)
    && s' == s.(table := s'.table, nextRow := s.nextRow + |chapters|)
    && (forall id :: id in s'.table <==> id in s.table || s.nextRow <= id < s.nextRow + |chapters|)
    && (forall id :: id in s.table ==> s'.table[id] == s.table[id])
    && (forall i :: 0 <= i < |chapters| ==> s'.table[s.nextRow + i] == FreshRow(book, chapters[i]))
  }

  lemma StillNew(s: Store, s1: Store, book: int, before: seq<Incoming>, c: Incoming, id: nat)
    requires AllNew(s, book, before + [c]) && AllNormal(before) && Inserted(s, s1, book, before)
    ensures c.canonical.Some? && !RowIs(s1, id, book, c.index) && !AddressTaken(s1, book, c.canonical.value, id)
  {
    var all := before + [c];
    assert all[|before|] == c;
    if id in s.table {
      assert !RowIs(s, id, book, c.index) && !AddressTaken(s, book, c.canonical.value, id);
    } else if id in s1.table {
      var i := id - s.nextRow;
      assert s1.table[s.nextRow + i] == FreshRow(book, before[i]) && all[i] == before[i];
    }
  }

  lemma OneMoreInserted(s: Store, s1: Store, book: int, before: seq<Incoming>, c: Incoming)
    requires TableInv(s) && AllNormal(before) && Inserted(s, s1, book, before) && c.canonical.Some?
    ensures Inserted(s, s1.(nextRow := s1.nextRow + 1, table := s1.table[s1.nextRow := FreshRow(book, c)]), book, before + [c])
  {
    var s2 := s1.(nextRow := s1.nextRow + 1, table := s1.table[s1.nextRow := FreshRow(book, c)]);
    forall i | 0 <= i < |before| + 1 ensures s2.table[s.nextRow + i] == FreshRow(book, (before + [c])[i]) {}
  }

  /** A batch of new chapters is inserted as it is, row by row. */
  lemma {:induction false} NewBatchIsInserted(s: Store, book: int, chapters: seq<Incoming>)
    requires TableInv(s) && AllNew(s, book, chapters)
    ensures Inserted(s, UpsertChapters(s, book, chapters), book, chapters)
    decreases |chapters|
  {
    if chapters != [] {
      var n := |chapters| - 1;
      var before, c := chapters[..n], chapters[n];
      assert before + [c] == chapters;
      NewBatchIsInserted(s, book, before);
      var s1 := UpsertChapters(s, book, before);
      forall id: nat ensures !RowIs(s1, id, book, c.index) && !AddressTaken(s1, book, c.canonical.value, id) {
        StillNew(s, s1, book, before, c, id);
      }
      NewChapterIsInserted(s1, book, c);
      OneMoreInserted(s, s1, book, before, c);
    }
  }

  // ---------------------------------------------------------------- finishing

  /** Somebody else's claim is live, or the presented lease is not the live one. */
  ghost predicate Fenced(r: Row, claim: Option<Lease>, now: int) {
    if claim.None? then r.claim.Some? && now < r.claim.value.until
    else
      !(r.claim.Some? && now < r.claim.value.until && now < claim.value.expiresAt
        && claim.value == Lease(r.book, r.index, r.claim.value.owner, r.generation, claim.value.expiresAt, r.claim.value.token))
  }

  /** Another finished chapter of the book has this content. */
  ghost predicate ContentKnown(s: Store, book: int, index: int, content: string) {
    exists x :: x in s.table && s.table[x].book == book && s.table[x].index != index && s.table[x].status == Done
      && s.table[x].hash == Some(Sha256(content))
  }

  /** The disk allows it: what should be the book's directory is one, the temporary name is free, and
   *  no directory sits where the chapter goes. */
  ghost predicate DiskReady(s: Store, book: nat, index: int, suffix: string) {
    && (ContentDir(book) in s.fs ==> s.fs[ContentDir(book)] == Dir)
    && TempLoc(book, index, suffix) !in s.fs
    && !(ChapterLoc(book, index) in s.fs && s.fs[ChapterLoc(book, index)] == Dir)
  }

  /** An uninterrupted `mark_done` of a chapter that is not done stores exactly when the claim is in
   *  order, there is content, the book is known, the content is new if that is asked for, and the disk
   *  is ready. */
  lemma StoredIff(s: Store, id: nat, q: MarkRequest)
    requires TableInv(s) && RowIs(s, id, q.book, q.index) && !s.table[id].status.Done? && q.book > 0
    ensures MarkDone(s, q, Clean).1 == Stored(ChapterLoc(q.book, q.index)) <==>
      && !Fenced(s.table[id], q.claim, q.now) && !Blank(q.content) && q.book in s.books
      && !(q.rejectDuplicates && ContentKnown(s, q.book, q.index, q.content))
      && DiskReady(s, q.book, q.index, q.suffix)
  {
    TheRow(s, id, q.book, q.index);
  }

  /** What it leaves: the file with the content and no temporary one, and a done row that names it. */
  lemma StoreGives(s: Store, id: nat, q: MarkRequest)
    requires TableInv(s) && RowIs(s, id, q.book, q.index) && MarkDone(s, q, Clean).1.Stored?
    ensures q.book > 0
    ensures var s' := MarkDone(s, q, Clean).0;
      && OnlyRow(s.(fs := s'.fs), s', id, s.table[id].(title := q.title, status := Done, path := Some(ChapterLoc(q.book, q.index)),
           hash := Some(Sha256(q.content)), error := None, claim := None))
      && s'.leases == s.leases
      && s'.fs == s.fs[ContentDir(q.book) := Dir][ChapterLoc(q.book, q.index) := File(q.content)]
  {
    TheRow(s, id, q.book, q.index);
    if q.book > 0 {
      ChapterFilesDistinct(q.book, q.index, q.book, q.index, q.suffix);
      var fs := s.fs[ContentDir(q.book) := Dir][ChapterLoc(q.book, q.index) := File(q.content)];
      assert fs - {TempLoc(q.book, q.index, q.suffix)} == fs;
    }
  }

  /** A done chapter is kept if its content is offered again and its file is there, and otherwise the
   *  offer is refused; either way nothing changes. */
  lemma DoneIsKeptIff(s: Store, id: nat, q: MarkRequest, fault: Fault)
    requires TableInv(s) && RowIs(s, id, q.book, q.index) && s.table[id].status.Done?
    ensures MarkDone(s, q, fault).0 == s
    ensures MarkDone(s, q, fault).1.Kept? <==>
      && !Fenced(s.table[id], q.claim, q.now) && !Blank(q.content) && s.table[id].hash == Some(Sha256(q.content))
      && s.table[id].path.Some? && IsFile(s.fs, s.table[id].path.value)
    ensures !MarkDone(s, q, fault).1.Kept? ==> MarkDone(s, q, fault).1.Refused?
  {
    TheRow(s, id, q.book, q.index);
  }

  /** Which refusal: the claim comes first, then empty content, then content that is known already. */
  lemma RefusalsInOrder(s: Store, id: nat, q: MarkRequest, fault: Fault)
    requires TableInv(s) && RowIs(s, id, q.book, q.index)
    ensures var reply := MarkDone(s, q, fault).1;
      var fenced := Fenced(s.table[id], q.claim, q.now);
      && (reply == Refused(ClaimConflict) <==> fenced)
      && (reply == Refused(ContentEmpty) <==> !fenced && Blank(q.content))
      && (reply == Refused(ContentDuplicate) <==>
           (!fenced && !Blank(q.content) && s.table[id].status != Done
            && q.rejectDuplicates && ContentKnown(s, q.book, q.index, q.content)))
      && reply != Refused(NoChapter)
  {
    TheRow(s, id, q.book, q.index);
  }

  lemma NoChapterIff(s: Store, q: MarkRequest, fault: Fault)
    ensures MarkDone(s, q, fault).1 == Refused(NoChapter) <==> forall id :: !RowIs(s, id, q.book, q.index)
  {
    if forall id :: !RowIs(s, id, q.book, q.index) {
      NoRow(s, q.book, q.index);
    } else {
      var id :| RowIs(s, id, q.book, q.index);
      assert At(s.table[id], q.book, q.index);
    }
  }

  /** Interrupted before its commit, the call changes no row. */
  lemma CutBeforeCommit(s: Store, q: MarkRequest, fault: Fault)
    requires !fault.Clean? && fault.at != Committed
    ensures MarkDone(s, q, fault).0.table == s.table && MarkDone(s, q, fault).0.leases == s.leases
    ensures !MarkDone(s, q, fault).1.Stored?
  {
  }
}
