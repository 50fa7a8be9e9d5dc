/** Opening an old database: addresses are normalised, then rows that share a chapter index, and
 *  after that rows that share an address, are merged into one and the losers are audited. */
module Migration {
  import opened Basics
  import opened ChapterStore

  datatype Key = ByIndex | ByAddress

  predicate Same(k: Key, q: Row, r: Row) {
    match k
    case ByIndex => SameChapter(q, r)
    case ByAddress => SameAddress(q, r)
  }

  function Reason(k: Key): string {
    match k
    case ByIndex => "chapter_index_conflict"
    case ByAddress => "canonical_url_conflict"
  }

  /** `ORDER BY CASE status WHEN 'done' THEN 0 ELSE 1 END, id`. */
  predicate Before(t: Table, a: nat, b: nat)
    requires a in t && b in t
  {
    if t[a].status.Done? != t[b].status.Done? then t[a].status.Done? else a < b
  }

  ghost predicate Wins(t: Table, k: Key, id: nat)
    requires id in t
  {
    forall x :: x in t && x != id && Same(k, t[x], t[id]) ==> Before(t, id, x)
  }

  /** A finished loser whose content file is there to be taken over. */
  predicate Donor(t: Table, fs: FileSystem, k: Key, winner: nat, x: nat)
    requires winner in t
  {
    x in t && x != winner && Same(k, t[x], t[winner]) && t[x].status.Done? && t[x].path.Some? && IsFile(fs, t[x].path.value)
  }

  ghost predicate FirstDonor(t: Table, fs: FileSystem, k: Key, winner: nat, d: nat)
    requires winner in t
  {
    Donor(t, fs, k, winner, d) && forall x :: Donor(t, fs, k, winner, x) ==> d <= x
  }

  /** A winner without content takes over that of the first finished loser that has some. */
  ghost function Absorb(t: Table, fs: FileSystem, k: Key, winner: nat): Row
    requires winner in t
  {
    if t[winner].path.None? && exists d :: FirstDonor(t, fs, k, winner, d)
    then var d :| FirstDonor(t, fs, k, winner, d); TakeOver(t[winner], t[d])
    else t[winner]
  }

  ghost function Winners(t: Table, k: Key): set<nat> {
    set id | id in t && Wins(t, k, id)
  }

  ghost function Merged(t: Table, fs: FileSystem, k: Key): Table {
    map id | id in t && id in Winners(t, k) :: Absorb(t, fs, k, id)
  }

  /** `_audit_relative_path`: a regular file, or nothing, strictly below the content root. */
  predicate Auditable(fs: FileSystem, loc: Loc) {
    loc.root.Contents? && loc.parts != [] && (loc in fs ==> fs[loc].File?)
  }

  function AuditOf(fs: FileSystem, k: Key, loser: nat, r: Row, winner: nat): Audit {
    if r.path.None? then Audit(r.book, winner, loser, Reason(k), None, r.hash, false)
    else if Auditable(fs, r.path.value) then Audit(r.book, winner, loser, Reason(k), Some(r.path.value.parts), r.hash, false)
    else Audit(r.book, winner, loser, Reason(k), None, r.hash, true)
  }

  /** The new audit entries account for the removed rows, one each, naming the row that was kept. */
  ghost predicate AuditsFor(t: Table, fs: FileSystem, k: Key, gone: set<nat>, entries: seq<Audit>) {
    && |entries| == |gone|
    && (forall x :: x in gone ==> Audited(entries, x))
    && (forall e :: e in entries ==> EntryOk(t, fs, k, gone, e))
  }

  ghost predicate Audited(entries: seq<Audit>, x: nat) {
    exists e :: e in entries && e.discarded == x
  }

  ghost predicate EntryOk(t: Table, fs: FileSystem, k: Key, gone: set<nat>, e: Audit) {
    && e.discarded in gone && e.discarded in t && e.kept in t && e.kept != e.discarded
    && Wins(t, k, e.kept) && Same(k, t[e.kept], t[e.discarded])
    && e == AuditOf(fs, k, e.discarded, t[e.discarded], e.kept)
  }

  lemma AuditsJoin(t: Table, fs: FileSystem, k: Key, gone: set<nat>, entries: seq<Audit>, more: set<nat>, next: seq<Audit>)
    requires AuditsFor(t, fs, k, gone, entries) && AuditsFor(t, fs, k, more, next) && gone !! more
    ensures AuditsFor(t, fs, k, gone + more, entries + next)
  {
    var all := entries + next;
    forall x | x in gone + more ensures Audited(all, x) {
      if x in gone {
        assert Audited(entries, x);
      } else {
        assert Audited(next, x);
      }
    }
    forall e | e in all ensures EntryOk(t, fs, k, gone + more, e) {
      assert e in entries || e in next;
    }
  }

  // ---------------------------------------------------------------- one group

  function TakeOver(w: Row, donor: Row): Row {
    w.(path := donor.path, hash := donor.hash)
  }

  /** The body of the loop over the losers, as far as the winner is concerned. */
  function Inherit(w: Row, loser: Row, fs: FileSystem): Row {
    if w.path.None? && loser.status.Done? && loser.path.Some? && IsFile(fs, loser.path.value) then TakeOver(w, loser) else w
  }

  function InheritAll(t: Table, fs: FileSystem, w: Row, losers: seq<nat>): Row
    requires forall j :: 0 <= j < |losers| ==> losers[j] in t
  {
    if losers == [] then w
    else Inherit(InheritAll(t, fs, w, losers[..|losers| - 1]), t[losers[|losers| - 1]], fs)
  }

  function AuditRows(t: Table, fs: FileSystem, k: Key, winner: nat, losers: seq<nat>): seq<Audit>
    requires forall j :: 0 <= j < |losers| ==> losers[j] in t
  {
    seq(|losers|, j requires 0 <= j < |losers| => AuditOf(fs, k, losers[j], t[losers[j]], winner))
  }

  function Elems(s: seq<nat>): set<nat> {
    set x | x in s
  }

  /** One group in the order of the SELECT: its first row, and the others. */
  ghost predicate IsGroup(t: Table, k: Key, winner: nat, losers: seq<nat>) {
    && winner in t
    && (forall j :: 0 <= j < |losers| ==>
         losers[j] in t && losers[j] != winner && Same(k, t[losers[j]], t[winner]) && Before(t, winner, losers[j]))
    && (forall i, j :: 0 <= i < j < |losers| ==> losers[i] != losers[j] && Before(t, losers[i], losers[j]))
    && (forall x :: x in t && Same(k, t[x], t[winner]) ==> x == winner || x in losers)
  }

  lemma GroupHasOneWinner(t: Table, k: Key, winner: nat, losers: seq<nat>)
    requires IsGroup(t, k, winner, losers)
    ensures Wins(t, k, winner) && forall j :: 0 <= j < |losers| ==> !Wins(t, k, losers[j])
  {
    forall x | x in t && x != winner && Same(k, t[x], t[winner]) ensures Before(t, winner, x) {
      var j :| 0 <= j < |losers| && losers[j] == x;
    }
    forall j | 0 <= j < |losers| ensures !Wins(t, k, losers[j]) {
      assert Same(k, t[winner], t[losers[j]]);
    }
  }

  lemma {:induction false} InheritFinds(t: Table, fs: FileSystem, k: Key, winner: nat, losers: seq<nat>)
    requires winner in t && t[winner].path.None? && forall j :: 0 <= j < |losers| ==> losers[j] in t && losers[j] != winner
    requires forall j :: 0 <= j < |losers| ==> Same(k, t[losers[j]], t[winner])
    ensures var w := InheritAll(t, fs, t[winner], losers);
      || (w == t[winner] && forall j :: 0 <= j < |losers| ==> !Donor(t, fs, k, winner, losers[j]))
      || (w.path.Some? && exists j :: FirstIn(t, fs, k, winner, losers, j) && w == TakeOver(t[winner], t[losers[j]]))
  {
    if losers != [] {
      var n := |losers| - 1;
      InheritFinds(t, fs, k, winner, losers[..n]);
      var w := InheritAll(t, fs, t[winner], losers[..n]);
      if w.path.Some? && w != t[winner] {
        var j :| FirstIn(t, fs, k, winner, losers[..n], j) && w == TakeOver(t[winner], t[losers[j]]);
        assert FirstIn(t, fs, k, winner, losers, j);
      } else if Donor(t, fs, k, winner, losers[n]) {
        assert FirstIn(t, fs, k, winner, losers, n);
      }
    }
  }

  ghost predicate FirstIn(t: Table, fs: FileSystem, k: Key, winner: nat, losers: seq<nat>, j: int)
    requires winner in t
  {
    && 0 <= j < |losers| && Donor(t, fs, k, winner, losers[j])
    && forall i :: 0 <= i < j ==> !Donor(t, fs, k, winner, losers[i])
  }

  lemma {:induction false} InheritKeepsContent(t: Table, fs: FileSystem, w: Row, losers: seq<nat>)
    requires w.path.Some? && forall j :: 0 <= j < |losers| ==> losers[j] in t
    ensures InheritAll(t, fs, w, losers) == w
  {
    if losers != [] {
      InheritKeepsContent(t, fs, w, losers[..|losers| - 1]);
    }
  }

  /** Going through the losers one by one gives the winner the content of the first that has some. */
  lemma InheritIsAbsorb(t: Table, fs: FileSystem, k: Key, winner: nat, losers: seq<nat>)
    requires IsGroup(t, k, winner, losers)
    ensures InheritAll(t, fs, t[winner], losers) == Absorb(t, fs, k, winner)
  {
    if t[winner].path.Some? {
      InheritKeepsContent(t, fs, t[winner], losers);
    } else {
      InheritFinds(t, fs, k, winner, losers);
      forall x | Donor(t, fs, k, winner, x) ensures exists i :: 0 <= i < |losers| && losers[i] == x {
        assert x in losers;
      }
      if j :| FirstIn(t, fs, k, winner, losers, j) {
        forall x | Donor(t, fs, k, winner, x) ensures losers[j] <= x {
          var i :| 0 <= i < |losers| && losers[i] == x;
          assert i >= j;
        }
        assert FirstDonor(t, fs, k, winner, losers[j]);
      }
    }
  }

  lemma GroupAudits(t: Table, fs: FileSystem, k: Key, winner: nat, losers: seq<nat>)
    requires winner in t && Wins(t, k, winner)
    requires forall j :: 0 <= j < |losers| ==> losers[j] in t && losers[j] != winner && Same(k, t[winner], t[losers[j]])
    requires forall i, j :: 0 <= i < j < |losers| ==> losers[i] != losers[j]
    ensures AuditsFor(t, fs, k, Elems(losers), AuditRows(t, fs, k, winner, losers))
  {
    var entries := AuditRows(t, fs, k, winner, losers);
    DistinctSize(losers);
    forall x | x in Elems(losers) ensures Audited(entries, x) {
      var j :| 0 <= j < |losers| && losers[j] == x;
      assert entries[j] in entries && entries[j].discarded == x;
    }
    forall e | e in entries ensures EntryOk(t, fs, k, Elems(losers), e) {
      var j :| 0 <= j < |entries| && entries[j] == e;
      assert losers[j] in losers;
    }
  }

  lemma {:induction false} DistinctSize(s: seq<nat>)
    requires forall i, j :: 0 <= i < j < |s| ==> s[i] != s[j]
    ensures |Elems(s)| == |s|
  {
    if s != [] {
      var rest := s[..|s| - 1];
      DistinctSize(rest);
      assert s[|s| - 1] !in rest;
      assert Elems(s) == Elems(rest) + {s[|s| - 1]};
    }
  }

  // ---------------------------------------------------------------- group after group

  ghost predicate WholeGroups(t: Table, k: Key, left: set<nat>) {
    left <= t.Keys && forall a, b :: a in left && b in t && Same(k, t[b], t[a]) ==> b in left
  }

  /** The rows of `left` are untouched, all others have been merged. */
  ghost predicate MergedSoFar(t: Table, fs: FileSystem, k: Key, left: set<nat>, u: Table) {
    && u.Keys <= t.Keys
    && (forall x {:trigger x in u} :: x in t ==> (x in u <==> x in left || Wins(t, k, x)))
    && (forall x :: x in u ==> u[x] == if x in left then t[x] else Absorb(t, fs, k, x))
  }

  function MergeOne(t: Table, fs: FileSystem, u: Table, winner: nat, losers: seq<nat>): Table
    requires winner in t && forall j :: 0 <= j < |losers| ==> losers[j] in t
  {
    (u - Elems(losers))[winner := InheritAll(t, fs, t[winner], losers)]
  }

  lemma GroupStaysTogether(t: Table, k: Key, left: set<nat>, winner: nat, losers: seq<nat>)
    requires WholeGroups(t, k, left) && IsGroup(t, k, winner, losers) && winner in left
    ensures Elems(losers) <= left
    ensures WholeGroups(t, k, left - {winner} - Elems(losers))
  {
    var rest := left - {winner} - Elems(losers);
    forall a, b | a in rest && b in t && Same(k, t[b], t[a]) ensures b in rest {}
  }

  lemma MergeOneStep(t: Table, fs: FileSystem, k: Key, left: set<nat>, u: Table, winner: nat, losers: seq<nat>)
    requires WholeGroups(t, k, left) && MergedSoFar(t, fs, k, left, u) && IsGroup(t, k, winner, losers) && winner in left
    ensures MergedSoFar(t, fs, k, left - {winner} - Elems(losers), MergeOne(t, fs, u, winner, losers))
    ensures t.Keys - MergeOne(t, fs, u, winner, losers).Keys == (t.Keys - u.Keys) + Elems(losers)
    ensures (t.Keys - u.Keys) !! Elems(losers)
  {
    GroupStaysTogether(t, k, left, winner, losers);
    GroupHasOneWinner(t, k, winner, losers);
    InheritIsAbsorb(t, fs, k, winner, losers);
    assert winner !in Elems(losers);
    forall x | x in Elems(losers) ensures x in u && !Wins(t, k, x) {}
  }

  lemma AuditStep(
    t: Table, fs: FileSystem, k: Key, left: set<nat>, u: Table, winner: nat, losers: seq<nat>, entries: seq<Audit>)
    requires WholeGroups(t, k, left) && MergedSoFar(t, fs, k, left, u) && IsGroup(t, k, winner, losers) && winner in left
    requires AuditsFor(t, fs, k, t.Keys - u.Keys, entries)
    ensures AuditsFor(t, fs, k, t.Keys - MergeOne(t, fs, u, winner, losers).Keys,
                      entries + AuditRows(t, fs, k, winner, losers))
  {
    MergeOneStep(t, fs, k, left, u, winner, losers);
    GroupHasOneWinner(t, k, winner, losers);
    GroupAudits(t, fs, k, winner, losers);
    AuditsJoin(t, fs, k, t.Keys - u.Keys, entries, Elems(losers), AuditRows(t, fs, k, winner, losers));
  }

  /** The group of any unmerged row, ready to be merged. */
  ghost predicate NextGroup(t: Table, k: Key, u: Table, left: set<nat>, winner: nat, losers: seq<nat>) {
    && winner in left && winner in u && winner in t && u[winner] == t[winner] && winner !in losers
    && (forall j :: 0 <= j < |losers| ==> losers[j] in u && losers[j] in t && u[losers[j]] == t[losers[j]])
    && (forall i, j :: 0 <= i < j < |losers| ==> losers[i] != losers[j])
  }

  lemma GroupReady(t: Table, fs: FileSystem, k: Key, left: set<nat>, u: Table, some: nat, winner: nat, losers: seq<nat>)
    requires WholeGroups(t, k, left) && MergedSoFar(t, fs, k, left, u)
    requires some in left && IsGroup(t, k, winner, losers) && Same(k, t[winner], t[some])
    ensures NextGroup(t, k, u, left, winner, losers)
  {
    assert winner in left;
    GroupStaysTogether(t, k, left, winner, losers);
    forall j | 0 <= j < |losers| ensures losers[j] in left {
      assert losers[j] in Elems(losers);
    }
  }

  lemma AllMerged(t: Table, fs: FileSystem, k: Key, u: Table)
    requires MergedSoFar(t, fs, k, {}, u)
    ensures u == Merged(t, fs, k)
  {
    forall x | x in u ensures x in Winners(t, k) {}
    forall x | x in Merged(t, fs, k) ensures x in u {}
  }

  class Migrator {
    var table: Table
    const fs: FileSystem
    var audits: seq<Audit>

    constructor (rows: Table, fs: FileSystem, audits: seq<Audit>)
      ensures table == rows && this.fs == fs && this.audits == audits
    {
      table := rows;
      this.fs := fs;
      this.audits := audits;
    }

    /** The first of some rows in the order of the SELECT. */
    static method First(t: Table, ids: set<nat>) returns (first: nat)
      requires ids != {} && ids <= t.Keys
      ensures first in ids && forall x :: x in ids && x != first ==> Before(t, first, x)
    {
      first :| first in ids;
      var rest := ids - {first};
      while rest != {}
        invariant rest <= ids && first in ids && first !in rest
        invariant forall x :: x in ids && x !in rest && x != first ==> Before(t, first, x)
        decreases rest
      {
        var x :| x in rest;
        rest := rest - {x};
        if Before(t, x, first) {
          first := x;
        }
      }
    }

    /** `SELECT * ... WHERE book_id=? AND identity=? ORDER BY ...` */
    static method SelectGroup(t: Table, k: Key, some: nat) returns (winner: nat, losers: seq<nat>)
      requires some in t
      ensures IsGroup(t, k, winner, losers) && Same(k, t[winner], t[some])
    {
      var left: set<nat> := set x | x in t && Same(k, t[x], t[some]);
      ghost var all := left;
      assert some in left;
      winner := First(t, left);
      left := left - {winner};
      losers := [];
      while left != {}
        invariant left <= all - {winner}
        invariant forall j :: 0 <= j < |losers| ==> losers[j] in all && losers[j] !in left && losers[j] != winner
        invariant forall x :: x in all ==> x == winner || x in left || x in losers
        invariant forall i, j :: 0 <= i < j < |losers| ==> losers[i] != losers[j] && Before(t, losers[i], losers[j])
        invariant forall j, x :: 0 <= j < |losers| && x in left ==> Before(t, losers[j], x)
        decreases left
      {
        var first := First(t, left);
        losers := losers + [first];
        left := left - {first};
      }
    }

    /** `_merge_duplicate_chapters`. */
    method MergeDuplicates(k: Key)
      modifies this
      ensures table == Merged(old(table), fs, k)
      ensures |audits| >= |old(audits)| && audits[..|old(audits)|] == old(audits)
      ensures AuditsFor(old(table), fs, k, old(table).Keys - table.Keys, audits[|old(audits)|..])
    {
      var t := table;
      var left := t.Keys;
      ghost var entries: seq<Audit> := [];
      while left != {}
        invariant WholeGroups(t, k, left) && MergedSoFar(t, fs, k, left, table)
        invariant audits == old(audits) + entries && AuditsFor(t, fs, k, t.Keys - table.Keys, entries)
        decreases left
      {
        ghost var next;
        left, next := MergeNext(k, t, left, entries);
        ConcatAssociative(old(audits), entries, next);
        entries := entries + next;
      }
      AllMerged(t, fs, k, table);
      SuffixOf(old(audits), entries);
    }

    method MergeNext(k: Key, t: Table, left: set<nat>, ghost entries: seq<Audit>)
      returns (rest: set<nat>, ghost next: seq<Audit>)
      requires left != {} && WholeGroups(t, k, left) && MergedSoFar(t, fs, k, left, table)
      requires AuditsFor(t, fs, k, t.Keys - table.Keys, entries)
      modifies this
      ensures rest < left && WholeGroups(t, k, rest) && MergedSoFar(t, fs, k, rest, table)
      ensures audits == old(audits) + next && AuditsFor(t, fs, k, t.Keys - table.Keys, entries + next)
    {
      var some :| some in left;
      var winner, losers := SelectGroup(t, k, some);
      GroupReady(t, fs, k, left, table, some, winner, losers);
      MergeOneStep(t, fs, k, left, table, winner, losers);
      GroupStaysTogether(t, k, left, winner, losers);
      AuditStep(t, fs, k, left, table, winner, losers, entries);
      MergeGroup(k, winner, losers, t);
      rest, next := left - {winner} - Elems(losers), AuditRows(t, fs, k, winner, losers);
      assert winner in left && winner !in rest;
    }

    /** One group: its first row wins, the others are audited and removed in order. */
    method MergeGroup(k: Key, winner: nat, losers: seq<nat>, t: Table)
      requires winner in table && winner in t && table[winner] == t[winner] && winner !in losers
      requires forall j :: 0 <= j < |losers| ==> losers[j] in table && losers[j] in t && table[losers[j]] == t[losers[j]]
      requires forall i, j :: 0 <= i < j < |losers| ==> losers[i] != losers[j]
      modifies this
      ensures table == MergeOne(t, fs, old(table), winner, losers)
      ensures audits == old(audits) + AuditRows(t, fs, k, winner, losers)
    {
      var merged := table[winner];
      for n := 0 to |losers|
        invariant table == old(table) - Elems(losers[..n])
        invariant merged == InheritAll(t, fs, t[winner], losers[..n])
        invariant audits == old(audits) + AuditRows(t, fs, k, winner, losers[..n])
      {
        var loser := table[losers[n]];
        assert losers[..n + 1][..n] == losers[..n];
        merged := Inherit(merged, loser, fs);
        audits := audits + [AuditOf(fs, k, losers[n], loser, winner)];
        table := table - {losers[n]};
      }
      assert losers[..|losers|] == losers;
      table := table[winner := merged];
    }
  }

  // ---------------------------------------------------------------- what a migration gives

  /** Merging on one key makes that key unique. */
  lemma MergedIsUnique(t: Table, fs: FileSystem, k: Key)
    ensures var u := Merged(t, fs, k); forall a, b :: a in u && b in u && a != b ==> !Same(k, u[a], u[b])
  {
    var u := Merged(t, fs, k);
    forall a, b | a in u && b in u && a != b ensures !Same(k, u[a], u[b]) {
      KeysKept(t, fs, k, a);
      KeysKept(t, fs, k, b);
      assert Wins(t, k, a) && Wins(t, k, b);
      assert Same(k, t[a], t[b]) <==> Same(k, t[b], t[a]);
    }
  }

  /** A surviving row differs from its old self at most in where its content is. */
  lemma KeysKept(t: Table, fs: FileSystem, k: Key, id: nat)
    requires id in Merged(t, fs, k)
    ensures id in t && Wins(t, k, id)
    ensures var r := Merged(t, fs, k)[id];
      r == t[id].(path := r.path, hash := r.hash) && (t[id].path.Some? ==> r == t[id])
  {
  }

  /** Every row has a winner: the group does not vanish, and it keeps a done row if it had one. */
  lemma {:induction false} GroupKept(t: Table, fs: FileSystem, k: Key, id: nat)
    requires id in t
    ensures exists w :: (w in Merged(t, fs, k) && Same(k, Merged(t, fs, k)[w], t[id])
      && (t[id].status.Done? ==> Merged(t, fs, k)[w].status.Done?))
    decreases if t[id].status.Done? then 0 else 1, id
  {
    if Wins(t, k, id) {
      assert id in Merged(t, fs, k);
      KeysKept(t, fs, k, id);
    } else {
      var x :| x in t && x != id && Same(k, t[x], t[id]) && !Before(t, id, x);
      GroupKept(t, fs, k, x);
      var w :| w in Merged(t, fs, k) && Same(k, Merged(t, fs, k)[w], t[x])
        && (t[x].status.Done? ==> Merged(t, fs, k)[w].status.Done?);
      assert Same(k, Merged(t, fs, k)[w], t[id]);
    }
  }

  /** What `_migrate_chapters` writes into every row before merging: the normal form of its
   *  address, or a private one, and the digest of content that has none yet. */
  function Refreshed(id: nat, r: Row, fs: FileSystem, canonical: string -> Option<string>): Row {
    var address := canonical(r.url);
    r.(canonical := if address.Some? then address.value else "invalid://chapter/" + Decimal(id),
       hash := if r.hash.None? && r.path.Some? && IsFile(fs, r.path.value) then Some(Sha256(fs[r.path.value].bytes)) else r.hash,
       error := if r.error.None? then None else Some(SafeError(r.error.value)))
  }

  function Refresh(t: Table, fs: FileSystem, canonical: string -> Option<string>): Table {
    map id | id in t :: Refreshed(id, t[id], fs, canonical)
  }

  ghost function Migrated(t: Table, fs: FileSystem, canonical: string -> Option<string>): Table {
    Merged(Merged(Refresh(t, fs, canonical), fs, ByIndex), fs, ByAddress)
  }

  /** After the two merges both unique indexes can be created, whatever the old rows were. */
  lemma MigratedIsKeyed(t: Table, fs: FileSystem, canonical: string -> Option<string>)
    ensures Keyed(Migrated(t, fs, canonical))
  {
    var once := Merged(Refresh(t, fs, canonical), fs, ByIndex);
    var twice := Migrated(t, fs, canonical);
    MergedIsUnique(Refresh(t, fs, canonical), fs, ByIndex);
    MergedIsUnique(once, fs, ByAddress);
    forall a, b | a in twice && b in twice && a != b ensures !SameChapter(twice[a], twice[b]) && !SameAddress(twice[a], twice[b]) {
      KeysKept(once, fs, ByAddress, a);
      KeysKept(once, fs, ByAddress, b);
      assert !Same(ByIndex, once[a], once[b]);
      assert !Same(ByAddress, twice[a], twice[b]);
    }
  }

  /** A kept row that stands for another in one merge: of the same group, and done if that was. */
  predicate StandsFor(k: Key, u: Row, r: Row) {
    Same(k, u, r) && (r.status.Done? ==> u.status.Done?)
  }

  /** Both merges together: every row has one that stands for its chapter after the first merge, and
   *  that one has one that stands for its address after the second. */
  lemma MigratedStandsFor(t: Table, fs: FileSystem, canonical: string -> Option<string>, id: nat)
    requires id in t
    ensures var refreshed := Refresh(t, fs, canonical);
      var once := Merged(refreshed, fs, ByIndex);
      exists x, w :: x in once && w in Migrated(t, fs, canonical) && SameChapter(refreshed[id], t[id])
        && StandsFor(ByIndex, once[x], refreshed[id]) && StandsFor(ByAddress, Migrated(t, fs, canonical)[w], once[x])
  {
    var refreshed := Refresh(t, fs, canonical);
    var once := Merged(refreshed, fs, ByIndex);
    GroupKept(refreshed, fs, ByIndex, id);
    var x :| x in once && Same(ByIndex, once[x], refreshed[id]) && (refreshed[id].status.Done? ==> once[x].status.Done?);
    GroupKept(once, fs, ByAddress, x);
    var w :| w in Merged(once, fs, ByAddress) && Same(ByAddress, Merged(once, fs, ByAddress)[w], once[x])
      && (once[x].status.Done? ==> Merged(once, fs, ByAddress)[w].status.Done?);
    assert StandsFor(ByIndex, once[x], refreshed[id]) && StandsFor(ByAddress, Migrated(t, fs, canonical)[w], once[x]);
  }

  /** Both merges, in place: the table ends keyed, and rows before equal rows after plus new audit
   *  entries. */
  method Migrate(t: Table, fs: FileSystem, canonical: string -> Option<string>, audits: seq<Audit>)
    returns (migrated: Table, trail: seq<Audit>)
    ensures migrated == Migrated(t, fs, canonical) && Keyed(migrated)
    ensures |t| + |audits| == |migrated| + |trail|
    ensures |audits| <= |trail| && trail[..|audits|] == audits
  {
    var m := new Migrator(Refresh(t, fs, canonical), fs, audits);
    assert m.table.Keys == t.Keys;
    RemovedSize(m.table, fs, ByIndex);
    m.MergeDuplicates(ByIndex);
    RemovedSize(m.table, fs, ByAddress);
    ghost var middle := m.audits;
    m.MergeDuplicates(ByAddress);
    assert m.audits[..|audits|] == m.audits[..|middle|][..|audits|];
    migrated, trail := m.table, m.audits;
    MigratedIsKeyed(t, fs, canonical);
  }

  lemma RemovedSize(t: Table, fs: FileSystem, k: Key)
    ensures |t.Keys - Merged(t, fs, k).Keys| + |Merged(t, fs, k)| == |t|
  {
    var kept := Merged(t, fs, k).Keys;
    assert kept <= t.Keys;
    assert t.Keys == (t.Keys - kept) + kept;
  }
}
