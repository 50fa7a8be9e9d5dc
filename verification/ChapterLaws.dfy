/** What no sequence of storage calls can do: lose a finished chapter, duplicate a key, let an old
 *  lease through, or leave a finished chapter without its file. */
module ChapterLaws {
  import opened Basics
  import opened ChapterStore

  // ---------------------------------------------------------------- tables

  /** Both unique indexes hold and the next row id is unused. */
  ghost predicate TableInv(s: Store) {
    Keyed(s.table) && forall id :: id in s.table ==> id < s.nextRow
  }

  /** How one row may change: it keeps its chapter, its generation never falls, and once done it
   *  does not change at all. */
  predicate Evolves(r: Row, r': Row) {
    r'.book == r.book && r'.index == r.index && r.generation <= r'.generation && (r.status.Done? ==> r' == r)
  }

  ghost predicate Grows(t: Table, t': Table) {
    forall id :: id in t ==> id in t' && Evolves(t[id], t'[id])
  }

  lemma GrowsTransitive(t: Table, u: Table, v: Table)
    requires Grows(t, u) && Grows(u, v)
    ensures Grows(t, v)
  {
    forall id | id in t ensures id in v && Evolves(t[id], v[id]) {
      assert id in u && Evolves(t[id], u[id]);
    }
  }

  /** Under the unique index the lookup finds a row wherever there is one. */
  lemma RowAtFinds(t: Table, id: nat)
    requires Keyed(t) && id in t
    ensures RowAt(t, t[id].book, t[id].index) == Some(id)
  {
    var found := RowAt(t, t[id].book, t[id].index);
    assert At(t[id], t[id].book, t[id].index);
    assert found.Some?;
    assert SameChapter(t[found.value], t[id]);
  }

  /** A chapter that has a row keeps it. */
  lemma RowAtStays(t: Table, t': Table, book: int, index: int)
    requires Grows(t, t') && RowAt(t, book, index).Some?
    ensures RowAt(t', book, index).Some?
  {
    var id := RowAt(t, book, index).value;
    assert id in t' && Evolves(t[id], t'[id]);
    assert At(t'[id], book, index);
  }

  /** Overwriting one row without touching its keys keeps both unique indexes. */
  lemma KeyedReplace(t: Table, id: nat, r: Row)
    requires Keyed(t) && id in t
    requires r.book == t[id].book && r.index == t[id].index && r.canonical == t[id].canonical
    ensures Keyed(t[id := r])
  {
    var u := t[id := r];
    forall a, b | a in u && b in u && a != b ensures !SameChapter(u[a], u[b]) && !SameAddress(u[a], u[b]) {
      assert !SameChapter(t[a], t[b]) && !SameAddress(t[a], t[b]);
    }
  }

  /** A table whose rows keep their ids and keys keeps both unique indexes. */
  lemma SameKeysKeyed(t: Table, t': Table)
    requires Keyed(t) && t'.Keys == t.Keys
    requires forall id :: id in t ==> SameChapter(t'[id], t[id]) && SameAddress(t'[id], t[id])
    ensures Keyed(t')
  {
    forall a, b | a in t' && b in t' && a != b
      ensures !SameChapter(t'[a], t'[b]) && !SameAddress(t'[a], t'[b])
    {
      assert a in t && b in t && !SameChapter(t[a], t[b]) && !SameAddress(t[a], t[b]);
    }
  }

  // ---------------------------------------------------------------- one call

  lemma ReplaceKeepsTable(s: Store, s': Store, id: nat, r: Row)
    requires TableInv(s) && id in s.table && Evolves(s.table[id], r) && r.canonical == s.table[id].canonical
    requires s'.table == s.table[id := r] && s'.nextRow == s.nextRow
    ensures TableInv(s') && Grows(s.table, s'.table)
  {
    KeyedReplace(s.table, id, r);
  }

  lemma ClaimKeepsTable(s: Store, book: int, index: int, owner: string, now: int, seconds: int, token: nat)
    requires TableInv(s)
    ensures var s' := ClaimChapter(s, book, index, owner, now, seconds, token).0;
      TableInv(s') && Grows(s.table, s'.table)
  {
    var (s', reply) := ClaimChapter(s, book, index, owner, now, seconds, token);
    if reply.Granted? {
      var id := RowAt(s.table, book, index).value;
      ReplaceKeepsTable(s, s', id, s'.table[id]);
    }
  }

  lemma ResetRowKeeps(r: Row, book: int)
    ensures var r' := ResetRow(r, book);
      SameChapter(r', r) && SameAddress(r', r) && Evolves(r, r') && r'.claim == r.claim && r'.generation == r.generation
  {
  }

  lemma ResetKeepsTable(s: Store, book: int)
    requires TableInv(s)
    ensures TableInv(ResetFailed(s, book)) && Grows(s.table, ResetFailed(s, book).table)
  {
    var s' := ResetFailed(s, book);
    forall id | id in s.table
      ensures id in s'.table && SameChapter(s'.table[id], s.table[id]) && SameAddress(s'.table[id], s.table[id])
      ensures Evolves(s.table[id], s'.table[id])
    {
      ResetRowKeeps(s.table[id], book);
    }
    SameKeysKeyed(s.table, s'.table);
  }

  lemma UpsertOneKeepsTable(s: Store, book: int, c: Incoming)
    requires TableInv(s) && c.canonical.Some?
    ensures TableInv(UpsertOne(s, book, c)) && Grows(s.table, UpsertOne(s, book, c).table)
  {
    UpsertKeepsKeys(s, book, c);
  }

  /** Writing one row that clashes with no other keeps both keys. */
  lemma PutKeepsKeys(t: Table, id: nat, row: Row)
    requires Keyed(t) && forall x :: x in t && x != id ==> !SameChapter(t[x], row) && !SameAddress(t[x], row)
    ensures Keyed(t[id := row])
  {
  }

  lemma UpsertKeepsKeys(s: Store, book: int, c: Incoming)
    requires TableInv(s) && c.canonical.Some?
    ensures Keyed(UpsertOne(s, book, c).table)
  {
    var t := s.table;
    var byIndex, byUrl := RowAt(t, book, c.index), RowBoundTo(t, book, c.canonical.value);
    if byIndex.None? && byUrl.None? {
      PutKeepsKeys(t, s.nextRow, NewRow(book, c));
    } else if byIndex.Some? && (byUrl.None? || byUrl == byIndex) && !t[byIndex.value].status.Done? {
      var id := byIndex.value;
      forall x | x in t && x != id
        ensures !SameChapter(t[x], Renamed(t[id], c)) && !SameAddress(t[x], Renamed(t[id], c))
      {
        assert !SameChapter(t[x], t[id]) && !SameAddress(t[x], t[id]);
      }
      PutKeepsKeys(t, id, Renamed(t[id], c));
    }
  }

  lemma {:induction false} UpsertKeepsTable(s: Store, book: int, chapters: seq<Incoming>)
    requires TableInv(s) && forall i :: 0 <= i < |chapters| ==> chapters[i].canonical.Some?
    ensures TableInv(UpsertAll(s, book, chapters)) && Grows(s.table, UpsertAll(s, book, chapters).table)
  {
    if chapters != [] {
      var s1 := UpsertAll(s, book, chapters[..|chapters| - 1]);
      UpsertKeepsTable(s, book, chapters[..|chapters| - 1]);
      UpsertOneKeepsTable(s1, book, chapters[|chapters| - 1]);
      GrowsTransitive(s.table, s1.table, UpsertAll(s, book, chapters).table);
    }
  }

  /** What a cut or finished write does to the table: nothing, or the one completed row. */
  lemma WriteTouchesOneRow(s: Store, q: MarkRequest, id: nat, digest: Digest, fault: Fault)
    requires q.book > 0 && id in s.table
    ensures var s' := WriteChapter(s, q, id, digest, fault).0;
      && s'.leases == s.leases && s'.nextRow == s.nextRow
      && (s'.table == s.table
          || s'.table == s.table[id := Completed(s.table[id], q, ChapterLoc(q.book, q.index), digest)])
  {
  }

  lemma WriteKeepsTable(s: Store, q: MarkRequest, id: nat, digest: Digest, fault: Fault)
    requires TableInv(s) && q.book > 0 && id in s.table && !s.table[id].status.Done?
    ensures var s' := WriteChapter(s, q, id, digest, fault).0; TableInv(s') && Grows(s.table, s'.table)
  {
    var s' := WriteChapter(s, q, id, digest, fault).0;
    WriteTouchesOneRow(s, q, id, digest, fault);
    if s'.table != s.table {
      ReplaceKeepsTable(s, s', id, Completed(s.table[id], q, ChapterLoc(q.book, q.index), digest));
    }
  }

  lemma MarkDoneKeepsTable(s: Store, q: MarkRequest, fault: Fault)
    requires TableInv(s)
    ensures TableInv(MarkDone(s, q, fault).0) && Grows(s.table, MarkDone(s, q, fault).0.table)
  {
    var d := Decide(s, q);
    if d.Write? {
      WriteKeepsTable(s, q, d.id, d.digest, fault);
    }
  }

  /** Every call keeps both unique keys, loses no row, lowers no generation, and leaves every done
   *  row exactly as it was. */
  lemma ApplyKeepsTable(s: Store, c: Call)
    requires TableInv(s)
    ensures TableInv(Apply(s, c)) && Grows(s.table, Apply(s, c).table)
  {
    match c
    case ClaimCall(book, index, owner, now, seconds, token) => ClaimKeepsTable(s, book, index, owner, now, seconds, token);
    case DoneCall(q, fault) => MarkDoneKeepsTable(s, q, fault);
    case FailedCall(book, index, error, lease, now) =>
      var s' := Apply(s, c);
      if s'.table != s.table {
        var id := RowAt(s.table, book, index).value;
        ReplaceKeepsTable(s, s', id, s'.table[id]);
      }
    case ReleaseCall(book, index, claim) =>
      var s' := Apply(s, c);
      if s'.table != s.table {
        var id := RowAt(s.table, book, index).value;
        ReplaceKeepsTable(s, s', id, s'.table[id]);
      }
    case ResetCall(book) => ResetKeepsTable(s, book);
    case UpsertCall(book, chapters) =>
      if forall i :: 0 <= i < |chapters| ==> chapters[i].canonical.Some? {
        UpsertKeepsTable(s, book, chapters);
      }
    case BookCall(_, _) =>
  }

  // ---------------------------------------------------------------- all runs

  lemma {:induction false} RunKeepsTable(s: Store, calls: seq<Call>)
    requires TableInv(s)
    ensures TableInv(Run(s, calls)) && Grows(s.table, Run(s, calls).table)
    decreases |calls|
  {
    if calls != [] {
      var s1 := Apply(s, calls[0]);
      ApplyKeepsTable(s, calls[0]);
      RunKeepsTable(s1, calls[1..]);
      GrowsTransitive(s.table, s1.table, Run(s, calls).table);
    }
  }

  /** Done is absorbing: after any run the row of a finished chapter is unchanged in every column. */
  lemma DoneIsForever(s: Store, calls: seq<Call>, id: nat)
    requires TableInv(s) && id in s.table && s.table[id].status.Done?
    ensures id in Run(s, calls).table && Run(s, calls).table[id] == s.table[id]
  {
    RunKeepsTable(s, calls);
    assert Evolves(s.table[id], Run(s, calls).table[id]);
  }

  /** The unique indexes survive every run, so no upsert batch can make a chapter or an address
   *  ambiguous. */
  lemma KeysSurviveRuns(s: Store, calls: seq<Call>, a: nat, b: nat)
    requires TableInv(s)
    requires var t := Run(s, calls).table;
      a in t && b in t && t[a].book == t[b].book && (t[a].index == t[b].index || t[a].canonical == t[b].canonical)
    ensures a == b
  {
    RunKeepsTable(s, calls);
    var t := Run(s, calls).table;
    assert SameChapter(t[a], t[b]) || SameAddress(t[a], t[b]);
  }

  // ---------------------------------------------------------------- leases

  function HolderLease(r: Row): Lease
    requires r.claim.Some?
  {
    Lease(r.book, r.index, r.claim.value.owner, r.generation, r.claim.value.until, r.claim.value.token)
  }

  /** The lease was issued for a chapter that has a row, at or below that row's generation. */
  ghost predicate Known(t: Table, l: Lease) {
    exists id :: id in t && At(t[id], l.book, l.index) && l.generation <= t[id].generation
  }

  /** Leases are told apart by their tokens, never run ahead of their row, and every live set of
   *  claim columns is one of them. */
  ghost predicate LeaseInv(s: Store) {
    && (forall l, m :: l in s.leases && m in s.leases && l.token == m.token ==> l == m)
    && (forall l :: l in s.leases ==> Known(s.table, l))
    && (forall id :: id in s.table && s.table[id].claim.Some? ==> HolderLease(s.table[id]) in s.leases)
  }

  lemma KnownStays(t: Table, t': Table, l: Lease)
    requires Grows(t, t') && Known(t, l)
    ensures Known(t', l)
  {
    var id :| id in t && At(t[id], l.book, l.index) && l.generation <= t[id].generation;
    assert id in t' && Evolves(t[id], t'[id]);
  }

  /** Claims are only ever cleared, or left with their generation. */
  ghost predicate ClaimsOld(t: Table, t': Table) {
    forall id :: id in t' && t'[id].claim.Some? ==>
      id in t && t'[id].claim == t[id].claim && t'[id].generation == t[id].generation && SameChapter(t'[id], t[id])
  }

  lemma NoNewLease(s: Store, s': Store)
    requires LeaseInv(s) && s'.leases == s.leases && Grows(s.table, s'.table) && ClaimsOld(s.table, s'.table)
    ensures LeaseInv(s')
  {
    forall l | l in s'.leases ensures Known(s'.table, l) {
      KnownStays(s.table, s'.table, l);
    }
    forall id | id in s'.table && s'.table[id].claim.Some? ensures HolderLease(s'.table[id]) in s'.leases {
      assert HolderLease(s'.table[id]) == HolderLease(s.table[id]);
    }
  }

  lemma GrantKeepsLeases(s: Store, s': Store, id: nat, r: Row, lease: Lease)
    requires LeaseInv(s) && id in s.table && Grows(s.table, s'.table)
    requires r.claim.Some? && lease == HolderLease(r) && forall l :: l in s.leases ==> l.token != lease.token
    requires s'.table == s.table[id := r] && s'.leases == s.leases + {lease}
    ensures LeaseInv(s')
  {
    forall l | l in s'.leases ensures Known(s'.table, l) {
      if l == lease {
        assert At(s'.table[id], l.book, l.index);
      } else {
        KnownStays(s.table, s'.table, l);
      }
    }
    forall x | x in s'.table && s'.table[x].claim.Some? ensures HolderLease(s'.table[x]) in s'.leases {
      if x != id {
        assert HolderLease(s'.table[x]) == HolderLease(s.table[x]);
      }
    }
  }

  lemma ResetClaimsOld(s: Store, book: int)
    ensures ClaimsOld(s.table, ResetFailed(s, book).table)
  {
    forall id | id in s.table ensures ResetRow(s.table[id], book).claim == s.table[id].claim {
      ResetRowKeeps(s.table[id], book);
    }
  }

  lemma {:induction false} UpsertClaimsOld(s: Store, book: int, chapters: seq<Incoming>)
    requires forall i :: 0 <= i < |chapters| ==> chapters[i].canonical.Some?
    ensures ClaimsOld(s.table, UpsertAll(s, book, chapters).table) && UpsertAll(s, book, chapters).leases == s.leases
  {
    if chapters != [] {
      UpsertClaimsOld(s, book, chapters[..|chapters| - 1]);
      UpsertOneClaimsOld(UpsertAll(s, book, chapters[..|chapters| - 1]), book, chapters[|chapters| - 1]);
    }
  }

  lemma UpsertOneClaimsOld(s: Store, book: int, c: Incoming)
    requires c.canonical.Some?
    ensures ClaimsOld(s.table, UpsertOne(s, book, c).table) && UpsertOne(s, book, c).leases == s.leases
  {
  }

  /** Everything but a claim leaves the leases alone. */
  lemma OtherCallsGrantNothing(s: Store, c: Call)
    requires !c.ClaimCall?
    ensures Apply(s, c).leases == s.leases && ClaimsOld(s.table, Apply(s, c).table)
  {
    if c.DoneCall? {
      MarkClaimsOld(s, c.q, c.fault);
    } else if c.ResetCall? {
      ResetClaimsOld(s, c.book);
    } else if c.UpsertCall? {
      if forall i :: 0 <= i < |c.chapters| ==> c.chapters[i].canonical.Some? {
        UpsertClaimsOld(s, c.book, c.chapters);
      }
    }
  }

  lemma MarkClaimsOld(s: Store, q: MarkRequest, fault: Fault)
    ensures var s' := MarkDone(s, q, fault).0;
      s'.leases == s.leases && ClaimsOld(s.table, s'.table)
  {
    var d := Decide(s, q);
    if d.Write? {
      WriteTouchesOneRow(s, q, d.id, d.digest, fault);
    }
  }

  lemma ApplyKeepsLeases(s: Store, c: Call)
    requires TableInv(s) && LeaseInv(s) && Fresh(s, c)
    ensures LeaseInv(Apply(s, c))
  {
    ApplyKeepsTable(s, c);
    if c.ClaimCall? {
      var (s', reply) := ClaimChapter(s, c.book, c.index, c.owner, c.now, c.seconds, c.token);
      if reply.Granted? {
        var id := RowAt(s.table, c.book, c.index).value;
        GrantKeepsLeases(s, s', id, s'.table[id], reply.lease);
      }
    } else {
      OtherCallsGrantNothing(s, c);
      NoNewLease(s, Apply(s, c));
    }
  }

  lemma {:induction false} RunKeepsLeases(s: Store, calls: seq<Call>)
    requires TableInv(s) && LeaseInv(s) && FreshRun(s, calls)
    ensures TableInv(Run(s, calls)) && LeaseInv(Run(s, calls))
    decreases |calls|
  {
    if calls != [] {
      ApplyKeepsTable(s, calls[0]);
      ApplyKeepsLeases(s, calls[0]);
      RunKeepsLeases(Apply(s, calls[0]), calls[1..]);
    }
  }

  // ---------------------------------------------------------------- fencing

  /** In every state any run can reach, and at any one instant, at most one of the leases ever
   *  issued for a chapter is valid. */
  lemma OneValidLease(s: Store, calls: seq<Call>, id: nat, l: Lease, m: Lease, now: int)
    requires TableInv(s) && LeaseInv(s) && FreshRun(s, calls)
    requires var s' := Run(s, calls);
      && id in s'.table && l in s'.leases && m in s'.leases
      && LeaseValid(s'.table[id], l, now) && LeaseValid(s'.table[id], m, now)
    ensures l == m
  {
    RunKeepsLeases(s, calls);
  }

  /** The lease that a call presents, with the chapter it names. */
  ghost predicate Presents(c: Call, book: int, index: int, generation: nat) {
    match c
    case DoneCall(q, _) => q.book == book && q.index == index && q.claim.Some? && q.claim.value.generation == generation
    case FailedCall(b, i, _, lease, _) => b == book && i == index && lease.Some? && lease.value.generation == generation
    case ReleaseCall(b, i, claim) => b == book && i == index && claim.generation == generation
    case _ => false
  }

  /** A call that presents a generation below the row's changes nothing in the store: no row, no
   *  file, even if its owner is the current one. */
  lemma StaleGenerationIsInert(s: Store, c: Call, id: nat, generation: nat)
    requires TableInv(s) && id in s.table && generation < s.table[id].generation
    requires Presents(c, s.table[id].book, s.table[id].index, generation)
    ensures Apply(s, c) == s
  {
    RowAtFinds(s.table, id);
  }

  /** Fencing over whole runs. Once a lease of generation g+1 has been granted, in every later
   *  state a call that presents generation g or lower leaves the store exactly as it is. */
  lemma FencedForever(
    s: Store, owner: string, book: int, index: int, now: int, seconds: int, token: nat,
    calls: seq<Call>, late: Call, generation: nat)
    requires TableInv(s)
    requires ClaimChapter(s, book, index, owner, now, seconds, token).1.Granted?
    requires generation < ClaimChapter(s, book, index, owner, now, seconds, token).1.lease.generation
    requires Presents(late, book, index, generation)
    ensures var s' := Run(ClaimChapter(s, book, index, owner, now, seconds, token).0, calls); Apply(s', late) == s'
  {
    var (s1, reply) := ClaimChapter(s, book, index, owner, now, seconds, token);
    ClaimKeepsTable(s, book, index, owner, now, seconds, token);
    RunKeepsTable(s1, calls);
    var id := RowAt(s.table, book, index).value;
    assert Evolves(s1.table[id], Run(s1, calls).table[id]);
    StaleGenerationIsInert(Run(s1, calls), late, id, generation);
  }

  /** The commit never loses the race its validation has won: whenever the checks of `mark_done`
   *  admit a write, the fenced UPDATE that follows under the same reservation matches the row. */
  lemma ValidatedCommitMatches(s: Store, q: MarkRequest)
    requires Decide(s, q).Write?
    ensures var r := s.table[Decide(s, q).id];
      At(r, q.book, q.index) && !r.status.Done? && Fence(r, q.claim, q.now)
  {
  }

  // ---------------------------------------------------------------- crash points of mark_done

  /** The content that a finished row names with a digest is there, and its bytes hash to that. */
  ghost predicate RowIntact(s: Store, id: nat)
    requires id in s.table
  {
    var r := s.table[id];
    r.status.Done? && r.path.Some? && r.hash.Some?
    ==> IsFile(s.fs, r.path.value) && Sha256(s.fs[r.path.value].bytes) == r.hash.value
  }

  ghost predicate Intact(s: Store) {
    forall id :: id in s.table ==> RowIntact(s, id)
  }

  /** Different chapters have different files, and no temporary or directory name is one of them. */
  lemma ChapterFilesDistinct(book: nat, index: int, book': nat, index': int, suffix: string)
    ensures ChapterLoc(book, index) == ChapterLoc(book', index') ==> book == book' && index == index'
    ensures ChapterLoc(book, index) != TempLoc(book', index', suffix)
    ensures ChapterLoc(book, index) != ContentDir(book') && TempLoc(book, index, suffix) != ContentDir(book')
  {
    assert FiveDigits(index)[0] != '.';
    assert (FiveDigits(index) + ".txt")[0] != ("." + FiveDigits(index') + "-" + suffix + ".tmp")[0];
    assert ChapterLoc(book, index).parts[1] == FiveDigits(index) + ".txt";
    assert ChapterLoc(book', index').parts[1] == FiveDigits(index') + ".txt";
    assert TempLoc(book', index', suffix).parts[1] == "." + FiveDigits(index') + "-" + suffix + ".tmp";
    assert |ChapterLoc(book, index).parts| == 2 && |ContentDir(book').parts| == 1;
    if ChapterLoc(book, index) == ChapterLoc(book', index') {
      assert ChapterLoc(book, index).parts[0] == Decimal(book);
      assert ChapterLoc(book', index').parts[0] == Decimal(book');
      DecimalInjective(book, book');
      var a, b := FiveDigits(index), FiveDigits(index');
      assert a == (a + ".txt")[..|a + ".txt"| - 4] && b == (b + ".txt")[..|b + ".txt"| - 4];
      FiveDigitsInjective(index, index');
    }
  }

  /** Every cut of a writing call touches only the chapter's own file, its temporary file and its
   *  directory. */
  lemma WriteTouchesOwnFiles(s: Store, q: MarkRequest, id: nat, digest: Digest, fault: Fault, loc: Loc)
    requires q.book > 0 && id in s.table
    requires loc != ChapterLoc(q.book, q.index) && loc != TempLoc(q.book, q.index, q.suffix) && loc != ContentDir(q.book)
    ensures var fs := WriteChapter(s, q, id, digest, fault).0.fs;
      (loc in fs <==> loc in s.fs) && (loc in s.fs ==> fs[loc] == s.fs[loc])
  {
  }

  /** A finished row that names this file as its content. */
  predicate Names(r: Row, loc: Loc) {
    r.status.Done? && r.path == Some(loc) && r.hash.Some?
  }

  predicate Replaces(fault: Fault) {
    fault.Clean? || (fault.Died? && (fault.at.Replaced? || fault.at.Committed?))
  }

  /** Row `x` names the file of the chapter being written, and loses it: the file gets other bytes,
   *  or the exception handler deletes it again. */
  predicate Overwrites(s: Store, q: MarkRequest, fault: Fault, x: nat) {
    && q.book > 0 && x in s.table && Names(s.table[x], ChapterLoc(q.book, q.index))
    && (fault == Raised(Replaced) || fault == Raised(Committed)
        || (Replaces(fault) && s.table[x].hash != Some(Sha256(q.content))))
  }

  /** One row beside the one being written. */
  lemma OtherRowIntactIff(s: Store, q: MarkRequest, fault: Fault, other: nat)
    requires Decide(s, q).Write? && other in s.table && other != Decide(s, q).id && RowIntact(s, other)
    ensures var s' := MarkDone(s, q, fault).0;
      other in s'.table && (RowIntact(s', other) <==> !Overwrites(s, q, fault, other))
  {
    var d, r := Decide(s, q), s.table[other];
    WriteTouchesOneRow(s, q, d.id, d.digest, fault);
    ChapterFilesDistinct(q.book, q.index, q.book, q.index, q.suffix);
    if r.status.Done? && r.path.Some? && r.hash.Some? && r.path.value != ChapterLoc(q.book, q.index) {
      WriteTouchesOwnFiles(s, q, d.id, d.digest, fault, r.path.value);
    }
  }

  /** The exception handler running after the commit has taken effect. It deletes the file that the
   *  committed row names. */
  predicate HandlerAfterCommit(s: Store, q: MarkRequest, fault: Fault) {
    fault == Raised(Committed) && !(q.book > 0 && ChapterLoc(q.book, q.index) in s.fs && s.fs[ChapterLoc(q.book, q.index)].Dir?)
  }

  lemma WrittenRowIntact(s: Store, q: MarkRequest, id: nat, fault: Fault)
    requires q.book > 0 && id in s.table && At(s.table[id], q.book, q.index) && !s.table[id].status.Done?
    ensures var s' := WriteChapter(s, q, id, Sha256(q.content), fault).0;
      id in s'.table && (RowIntact(s', id) <==> !HandlerAfterCommit(s, q, fault))
  {
    ChapterFilesDistinct(q.book, q.index, q.book, q.index, q.suffix);
  }

  /** A write that takes the content of some finished row away. */
  ghost predicate Spoils(s: Store, q: MarkRequest, fault: Fault) {
    Decide(s, q).Write? && (HandlerAfterCommit(s, q, fault) || exists x :: Overwrites(s, q, fault, x))
  }

  /** At every crash point, and on every return and raise, all finished rows keep files that hash to
   *  their digests if and only if the write spoils none. */
  lemma IntactExactly(s: Store, q: MarkRequest, fault: Fault)
    requires TableInv(s) && Intact(s)
    ensures Intact(MarkDone(s, q, fault).0) <==> !Spoils(s, q, fault)
  {
    var d := Decide(s, q);
    if d.Write? {
      var s' := MarkDone(s, q, fault).0;
      WrittenRowIntact(s, q, d.id, fault);
      WriteTouchesOneRow(s, q, d.id, d.digest, fault);
      forall x | x in s.table && x != d.id ensures RowIntact(s', x) <==> !Overwrites(s, q, fault, x) {
        OtherRowIntactIff(s, q, fault, x);
      }
    }
  }

  /** Some finished row already names the file that this chapter would be written to. */
  ghost predicate TargetTaken(s: Store, q: MarkRequest) {
    q.book > 0 && exists x :: x in s.table && Names(s.table[x], ChapterLoc(q.book, q.index))
  }

  /** What can be told before the call: however it is cut, as long as no handler runs after the
   *  commit, all finished rows keep their content if and only if none of them names the target. */
  lemma SafeUnlessTargetTaken(s: Store, q: MarkRequest)
    requires TableInv(s) && Intact(s) && Decide(s, q).Write?
    ensures TargetTaken(s, q)
      <==> exists fault :: !HandlerAfterCommit(s, q, fault) && !Intact(MarkDone(s, q, fault).0)
  {
    forall fault ensures Intact(MarkDone(s, q, fault).0) <==> !Spoils(s, q, fault) {
      IntactExactly(s, q, fault);
    }
    if TargetTaken(s, q) {
      var x :| x in s.table && Names(s.table[x], ChapterLoc(q.book, q.index));
      assert Overwrites(s, q, Raised(Replaced), x);
      assert Spoils(s, q, Raised(Replaced)) && !HandlerAfterCommit(s, q, Raised(Replaced));
      assert !Intact(MarkDone(s, q, Raised(Replaced)).0);
    } else {
      forall fault, x ensures !Overwrites(s, q, fault, x) {}
    }
  }

  /** A returned success means exactly that: the row is done with the digest of the given content,
   *  and the file it names exists; a fresh write put that content there. */
  lemma SuccessMeansDone(s: Store, q: MarkRequest, fault: Fault)
    requires MarkDone(s, q, fault).1.Stored? || MarkDone(s, q, fault).1.Kept?
    ensures var (s', reply) := MarkDone(s, q, fault);
      exists id :: id in s'.table && At(s'.table[id], q.book, q.index) && s'.table[id].status.Done?
        && s'.table[id].hash == Some(Sha256(q.content)) && s'.table[id].path == Some(reply.path)
        && IsFile(s'.fs, reply.path) && (reply.Stored? ==> s'.fs[reply.path] == File(q.content))
  {
    var d := Decide(s, q);
    if d.Write? {
      ChapterFilesDistinct(q.book, q.index, q.book, q.index, q.suffix);
      var (s', reply) := WriteChapter(s, q, d.id, d.digest, fault);
      assert d.id in s'.table && At(s'.table[d.id], q.book, q.index);
    } else {
      assert At(s.table[RowAt(s.table, q.book, q.index).value], q.book, q.index);
    }
  }

  /** Runs in which no write takes content away. */
  ghost predicate NothingSpoiled(s: Store, calls: seq<Call>)
    decreases |calls|
  {
    calls != [] ==>
      && !(calls[0].DoneCall? && Spoils(s, calls[0].q, calls[0].fault))
      && NothingSpoiled(Apply(s, calls[0]), calls[1..])
  }

  /** Runs in which no handler is interrupted after its commit. */
  ghost predicate NoLateHandler(s: Store, calls: seq<Call>)
    decreases |calls|
  {
    calls != [] ==>
      && !(calls[0].DoneCall? && Decide(s, calls[0].q).Write? && HandlerAfterCommit(s, calls[0].q, calls[0].fault))
      && NoLateHandler(Apply(s, calls[0]), calls[1..])
  }

  /** What a table says about content is all old. A row that an upsert inserts as done has none. */
  ghost predicate ContentIsOld(t: Table, t': Table) {
    forall x :: x in t' && t'[x].status.Done? && t'[x].path.Some? ==> x in t && t[x] == t'[x]
  }

  lemma PlainCallsFinishNothing(s: Store, c: Call)
    requires !c.DoneCall? && !c.UpsertCall?
    ensures Apply(s, c).fs == s.fs && ContentIsOld(s.table, Apply(s, c).table)
  {
  }

  lemma {:induction false} UpsertFinishesNothing(s: Store, book: int, chapters: seq<Incoming>)
    requires forall i :: 0 <= i < |chapters| ==> chapters[i].canonical.Some?
    ensures UpsertAll(s, book, chapters).fs == s.fs && ContentIsOld(s.table, UpsertAll(s, book, chapters).table)
    decreases |chapters|
  {
    if chapters != [] {
      UpsertFinishesNothing(s, book, chapters[..|chapters| - 1]);
      var before := UpsertAll(s, book, chapters[..|chapters| - 1]);
      var after := UpsertOne(before, book, chapters[|chapters| - 1]);
      forall x | x in after.table && after.table[x].status.Done? && after.table[x].path.Some?
        ensures x in before.table && before.table[x] == after.table[x]
      {
      }
    }
  }

  lemma OtherCallsFinishNothing(s: Store, c: Call)
    requires !c.DoneCall?
    ensures Apply(s, c).fs == s.fs && ContentIsOld(s.table, Apply(s, c).table)
  {
    if c.UpsertCall? {
      if forall i :: 0 <= i < |c.chapters| ==> c.chapters[i].canonical.Some? {
        UpsertFinishesNothing(s, c.book, c.chapters);
      }
    } else {
      PlainCallsFinishNothing(s, c);
    }
  }

  /** One call: content stays intact if and only if the call is not a write that spoils some. */
  lemma CallKeepsIntactIff(s: Store, c: Call)
    requires TableInv(s) && Intact(s)
    ensures Intact(Apply(s, c)) <==> !(c.DoneCall? && Spoils(s, c.q, c.fault))
  {
    if c.DoneCall? {
      IntactExactly(s, c.q, c.fault);
    } else {
      OtherCallsFinishNothing(s, c);
      forall x | x in Apply(s, c).table ensures RowIntact(Apply(s, c), x) {
        assert x in s.table ==> RowIntact(s, x);
      }
    }
  }

  ghost predicate AlwaysIntact(s: Store, calls: seq<Call>)
    decreases |calls|
  {
    Intact(s) && (calls != [] ==> AlwaysIntact(Apply(s, calls[0]), calls[1..]))
  }

  /** Integrity over whole runs: every finished row that names content has a file whose bytes hash to
   *  its digest, at the end and at any time before, if and only if no write spoils anything. */
  lemma {:induction false} IntactForever(s: Store, calls: seq<Call>)
    requires TableInv(s) && Intact(s)
    ensures AlwaysIntact(s, calls) <==> NothingSpoiled(s, calls)
    ensures NothingSpoiled(s, calls) ==> Intact(Run(s, calls))
    decreases |calls|
  {
    if calls != [] {
      CallKeepsIntactIff(s, calls[0]);
      if Intact(Apply(s, calls[0])) {
        ApplyKeepsTable(s, calls[0]);
        IntactForever(Apply(s, calls[0]), calls[1..]);
      }
    }
  }

  /** A book with one pending chapter. */
  function OnePending(book: int, index: int, info: Book): Store {
    Store(map[0 := Row(book, index, "", "", "", Pending, None, None, None, 0, None, 0)], map[], map[book := info], [], 1, {})
  }

  /** The first chapter of a new book is lost when its `mark_done` is interrupted after the commit. */
  lemma LateHandlerLoses(book: int, index: int, info: Book, content: string, now: int, suffix: string)
    requires book > 0 && !Blank(content)
    ensures var s := OnePending(book, index, info);
      var s' := MarkDone(s, MarkRequest(book, index, "", content, None, now, false, suffix), Raised(Committed)).0;
      && TableInv(s) && Intact(s) && 0 in s'.table && s'.table[0].status.Done? && !RowIntact(s', 0)
  {
    var s := OnePending(book, index, info);
    var q := MarkRequest(book, index, "", content, None, now, false, suffix);
    RowAtFinds(s.table, 0);
    assert Decide(s, q) == Write(0, Sha256(content));
    WrittenRowIntact(s, q, 0, Raised(Committed));
  }

  // ---------------------------------------------------------------- stores without inherited content

  /** Every finished row with content names its own chapter file. */
  ghost predicate OwnFiles(t: Table) {
    forall id :: id in t && t[id].status.Done? && t[id].path.Some? ==>
      t[id].book > 0 && t[id].path.value == ChapterLoc(t[id].book, t[id].index)
  }

  lemma OwnNameIsOwn(s: Store, q: MarkRequest, x: nat)
    requires OwnFiles(s.table) && q.book > 0 && x in s.table && Names(s.table[x], ChapterLoc(q.book, q.index))
    ensures At(s.table[x], q.book, q.index)
  {
    ChapterFilesDistinct(s.table[x].book, s.table[x].index, q.book, q.index, q.suffix);
  }

  lemma OwnTargetFree(s: Store, q: MarkRequest)
    requires TableInv(s) && OwnFiles(s.table) && Decide(s, q).Write?
    ensures !TargetTaken(s, q)
  {
    var id := Decide(s, q).id;
    forall x | x in s.table ensures !Names(s.table[x], ChapterLoc(q.book, q.index)) {
      if x != id {
        assert !SameChapter(s.table[x], s.table[id]);
        if Names(s.table[x], ChapterLoc(q.book, q.index)) {
          OwnNameIsOwn(s, q, x);
        }
      }
    }
  }

  lemma CallKeepsOwnFiles(s: Store, c: Call)
    requires OwnFiles(s.table)
    ensures OwnFiles(Apply(s, c).table)
  {
    if c.DoneCall? {
      var d := Decide(s, c.q);
      if d.Write? {
        WriteTouchesOneRow(s, c.q, d.id, d.digest, c.fault);
      }
    } else {
      OtherCallsFinishNothing(s, c);
    }
  }

  /** A store whose finished rows all name their own chapter files stays such a store, and only a
   *  handler that runs after its commit can take content away from it. */
  lemma {:induction false} OwnFilesStayIntact(s: Store, calls: seq<Call>)
    requires TableInv(s) && Intact(s) && OwnFiles(s.table) && NoLateHandler(s, calls)
    ensures Intact(Run(s, calls)) && OwnFiles(Run(s, calls).table)
    decreases |calls|
  {
    if calls != [] {
      if calls[0].DoneCall? && Decide(s, calls[0].q).Write? {
        OwnTargetFree(s, calls[0].q);
      }
      CallKeepsIntactIff(s, calls[0]);
      CallKeepsOwnFiles(s, calls[0]);
      ApplyKeepsTable(s, calls[0]);
      OwnFilesStayIntact(Apply(s, calls[0]), calls[1..]);
    }
  }
}
