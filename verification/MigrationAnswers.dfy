/** Which row of a group of duplicates is kept, whose content it ends up with, what is written about the
 *  others, and what is done to every row before. */
module MigrationAnswers {
  import opened Basics
  import opened ChapterStore
  import opened Migration

  /** Rows of one book with the same chapter index, or with the same address. */
  predicate Group(t: Table, k: Key, a: nat, b: nat)
    requires a in t && b in t
  {
    t[a].book == t[b].book && if k.ByIndex? then t[a].index == t[b].index else t[a].canonical == t[b].canonical
  }

  /** The row with the least id among the done ones, or among all when none is done. */
  ghost predicate Leads(t: Table, k: Key, id: nat)
    requires id in t
  {
    if t[id].status == Done
    then forall x :: x in t && Group(t, k, x, id) && t[x].status == Done ==> id <= x
    else forall x :: x in t && Group(t, k, x, id) ==> t[x].status != Done && id <= x
  }

  lemma LeaderWins(t: Table, k: Key, id: nat)
    requires id in t
    ensures Wins(t, k, id) <==> Leads(t, k, id)
  {
    forall x | x in t ensures Same(k, t[x], t[id]) <==> Group(t, k, x, id) {}
    if Wins(t, k, id) {
      forall x | x in t && x != id && Group(t, k, x, id) ensures Before(t, id, x) {
        assert Same(k, t[x], t[id]);
      }
    }
    if Leads(t, k, id) {
      forall x | x in t && x != id && Same(k, t[x], t[id]) ensures Before(t, id, x) {
        assert Group(t, k, x, id);
      }
    }
  }

  /** Another row of the group that is done and whose content file is there. */
  predicate HasContentFor(t: Table, fs: FileSystem, k: Key, id: nat, x: nat)
    requires id in t
  {
    x in t && x != id && Group(t, k, x, id) && t[x].status == Done && t[x].path.Some?
    && t[x].path.value in fs && fs[t[x].path.value].File?
  }

  lemma DonorIs(t: Table, fs: FileSystem, k: Key, id: nat, x: nat)
    requires id in t
    ensures Donor(t, fs, k, id, x) <==> HasContentFor(t, fs, k, id, x)
  {
  }

  /** Exactly the leading rows are kept. */
  lemma KeptIff(t: Table, fs: FileSystem, k: Key, id: nat)
    ensures id in Merged(t, fs, k) <==> id in t && Leads(t, k, id)
  {
    if id in t {
      LeaderWins(t, k, id);
    }
  }

  /** A kept row with content, or in whose group nobody has any to give, is as it was. */
  lemma KeptUnchanged(t: Table, fs: FileSystem, k: Key, id: nat)
    requires id in Merged(t, fs, k)
    requires t[id].path.Some? || forall x :: !HasContentFor(t, fs, k, id, x)
    ensures Merged(t, fs, k)[id] == t[id]
  {
    forall x | Donor(t, fs, k, id, x) ensures HasContentFor(t, fs, k, id, x) {
      DonorIs(t, fs, k, id, x);
    }
  }

  /** One without content takes over path and digest of the first that has some, and nothing else. */
  lemma KeptTakesOver(t: Table, fs: FileSystem, k: Key, id: nat, d: nat)
    requires id in Merged(t, fs, k) && t[id].path.None?
    requires HasContentFor(t, fs, k, id, d) && forall x :: HasContentFor(t, fs, k, id, x) ==> d <= x
    ensures Merged(t, fs, k)[id] == t[id].(path := t[d].path, hash := t[d].hash)
  {
    forall x ensures Donor(t, fs, k, id, x) <==> HasContentFor(t, fs, k, id, x) {
      DonorIs(t, fs, k, id, x);
    }
    assert FirstDonor(t, fs, k, id, d);
  }

  predicate BelowContents(fs: FileSystem, p: Loc) {
    p.root == Contents && p.parts != [] && (p in fs ==> fs[p].File?)
  }

  /** What is written about a removed row: its book, which row was kept, why, its digest, and its path below
   *  the content root; a path that is not a safe one there is left for a person to clean up. */
  lemma EntrySays(t: Table, fs: FileSystem, k: Key, gone: set<nat>, e: Audit)
    requires EntryOk(t, fs, k, gone, e)
    ensures e.discarded in t && e.kept in t && Group(t, k, e.kept, e.discarded) && Leads(t, k, e.kept)
    ensures var r := t[e.discarded];
      && e.book == r.book && e.hash == r.hash
      && e.reason == (if k.ByIndex? then "chapter_index_conflict" else "canonical_url_conflict")
      && e.path == (if r.path.Some? && BelowContents(fs, r.path.value) then Some(r.path.value.parts) else None)
      && (e.manual <==> r.path.Some? && !BelowContents(fs, r.path.value))
  {
    LeaderWins(t, k, e.kept);
  }

  /** What is done to every row before: the address is brought to its normal form, or to one of its own
   *  when it has none; content without a digest gets one; error texts become codes. */
  lemma RefreshedIs(id: nat, r: Row, fs: FileSystem, canonical: string -> Option<string>)
    ensures var n := Refreshed(id, r, fs, canonical);
      && n == r.(canonical := n.canonical, hash := n.hash, error := n.error)
      && (canonical(r.url).Some? ==> n.canonical == canonical(r.url).value)
      && (canonical(r.url).None? ==> n.canonical == "invalid://chapter/" + Decimal(id))
      && (r.hash.Some? || r.path.None? ==> n.hash == r.hash)
      && (r.hash.None? && r.path.Some? ==>
           if r.path.value in fs && fs[r.path.value].File? then n.hash == Some(Sha256(fs[r.path.value].bytes)) else n.hash == None)
      && (r.error.None? ==> n.error == None)
      && (r.error.Some? ==> n.error == Some(if r.error.value in SafeErrorCodes then r.error.value else "chapter_download_failed"))
  {
  }

  /** Addresses that have no normal form do not make rows the same. */
  lemma PrivateAddressesDiffer(a: nat, b: nat, q: Row, r: Row, fs: FileSystem, canonical: string -> Option<string>)
    requires a != b && canonical(q.url).None? && canonical(r.url).None?
    ensures Refreshed(a, q, fs, canonical).canonical != Refreshed(b, r, fs, canonical).canonical
  {
    var x, y := "invalid://chapter/" + Decimal(a), "invalid://chapter/" + Decimal(b);
    if x == y {
      SuffixOf("invalid://chapter/", Decimal(a));
      SuffixOf("invalid://chapter/", Decimal(b));
      DecimalInjective(a, b);
    }
  }

  /** The merge by index comes first, then the one by address, both on rows made ready like that. */
  lemma FirstByIndex(t: Table, fs: FileSystem, canonical: string -> Option<string>, id: nat)
    ensures var ready := Refresh(t, fs, canonical);
      var once := Merged(ready, fs, ByIndex);
      && ready.Keys == t.Keys && (forall x :: x in t ==> ready[x] == Refreshed(x, t[x], fs, canonical))
      && (id in Migrated(t, fs, canonical) <==> id in t && Leads(ready, ByIndex, id) && id in once && Leads(once, ByAddress, id))
  {
    var ready := Refresh(t, fs, canonical);
    KeptIff(ready, fs, ByIndex, id);
    KeptIff(Merged(ready, fs, ByIndex), fs, ByAddress, id);
  }

  /** Codes that may be shown. */
  lemma CodesAreThese(code: string)
    ensures code in SafeErrorCodes <==>
      || code == "chapter_download_failed" || code == "chapter_content_duplicate" || code == "chapter_content_empty"
      || code == "chapter_redirect_mismatch" || code == "chapter_title_mismatch" || code == "chapter_processor_failed"
      || code == "connection_timeout" || code == "duplicate_content" || code == "empty_content" || code == "parse_failed"
      || code == "source_fetch_failed"
  {
  }
}
