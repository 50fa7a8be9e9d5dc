/** How a finished chapter loses its content: opening an old database lets a row inherit the file of
 *  another chapter, and that chapter can be inserted and written again. */
module InheritedContent {
  import opened Basics
  import opened ChapterStore
  import opened ChapterLaws
  import opened Migration

  /** Two finished rows with one address. The first has no content, the second has its own file. */
  function OldRow(index: int, url: string, path: Option<Loc>, hash: Option<Digest>): Row {
    Row(1, index, "", url, "", Done, path, hash, None, 0, None, 0)
  }

  function OldTable(url: string, bytes: string): Table {
    map[0 := OldRow(3, url, None, None), 1 := OldRow(5, url, Some(ChapterLoc(1, 5)), Some(Sha256(bytes)))]
  }

  function OldDisk(bytes: string): FileSystem {
    map[ContentDir(1) := Dir, ChapterLoc(1, 5) := File(bytes)]
  }

  function Inherited(url: string, address: string, bytes: string): Row {
    OldRow(3, url, Some(ChapterLoc(1, 5)), Some(Sha256(bytes))).(canonical := address)
  }

  /** Two rows with different chapters are both kept as they are. */
  lemma BothKept(t: Table, fs: FileSystem)
    requires t.Keys == {0, 1} && !SameChapter(t[0], t[1])
    ensures Merged(t, fs, ByIndex) == t
  {
    forall x, w | x in t && w in t ensures !Donor(t, fs, ByIndex, w, x) {}
    assert Wins(t, ByIndex, 0) && Wins(t, ByIndex, 1);
  }

  /** Of two finished rows with one address the first is kept, and takes over the other's content. */
  lemma FirstTakesOver(t: Table, fs: FileSystem)
    requires t.Keys == {0, 1} && SameAddress(t[0], t[1]) && t[0].status.Done? && t[1].status.Done?
    requires t[0].path.None? && t[1].path.Some? && IsFile(fs, t[1].path.value)
    ensures Merged(t, fs, ByAddress) == map[0 := TakeOver(t[0], t[1])]
  {
    assert Same(ByAddress, t[0], t[1]) && Before(t, 0, 1) && !Before(t, 1, 0);
    assert Wins(t, ByAddress, 0) && !Wins(t, ByAddress, 1);
    assert FirstDonor(t, fs, ByAddress, 0, 1);
  }

  /** The migration keeps the first row, with the content of the second. */
  lemma MigrationInherits(url: string, bytes: string, canonical: string -> Option<string>)
    requires canonical(url).Some?
    ensures Migrated(OldTable(url, bytes), OldDisk(bytes), canonical) == map[0 := Inherited(url, canonical(url).value, bytes)]
  {
    ChapterFilesDistinct(1, 5, 1, 5, "");
    var refreshed := Refresh(OldTable(url, bytes), OldDisk(bytes), canonical);
    BothKept(refreshed, OldDisk(bytes));
    FirstTakesOver(refreshed, OldDisk(bytes));
  }

  /** The store that has just been opened. */
  function Opened(url: string, address: string, bytes: string, info: Book): Store {
    Store(map[0 := Inherited(url, address, bytes)], OldDisk(bytes), map[1 := info], [], 2, {})
  }

  function NewChapter(url: string, address: string): Incoming {
    Incoming(5, "", url, Pending, Some(address))
  }

  function Rewrite(content: string, now: int, suffix: string): MarkRequest {
    MarkRequest(1, 5, "", content, None, now, false, suffix)
  }

  /** The same store once the chapter that lost its row has been listed again. */
  function Relisted(url: string, address: string, bytes: string, info: Book, url': string, address': string): Store {
    var s := Opened(url, address, bytes, info);
    s.(table := s.table[2 := NewRow(1, NewChapter(url', address'))], nextRow := 3)
  }

  lemma OpenedIsIntact(url: string, address: string, bytes: string, info: Book)
    ensures var s := Opened(url, address, bytes, info); TableInv(s) && Intact(s)
  {
    ChapterFilesDistinct(1, 5, 1, 5, "");
  }

  lemma ListedAgain(url: string, address: string, bytes: string, info: Book, url': string, address': string)
    requires address != address'
    ensures Apply(Opened(url, address, bytes, info), UpsertCall(1, [NewChapter(url', address')]))
      == Relisted(url, address, bytes, info, url', address')
  {
    var s := Opened(url, address, bytes, info);
    var chapters := [NewChapter(url', address')];
    assert chapters[..0] == [] && UpsertAll(s, 1, []) == s;
    assert UpsertAll(s, 1, chapters) == UpsertOne(UpsertAll(s, 1, chapters[..0]), 1, chapters[0]);
  }

  lemma RelistedIsIntact(url: string, address: string, bytes: string, info: Book, url': string, address': string)
    requires address != address'
    ensures var s := Relisted(url, address, bytes, info, url', address'); TableInv(s) && Intact(s)
  {
    var call := UpsertCall(1, [NewChapter(url', address')]);
    OpenedIsIntact(url, address, bytes, info);
    ListedAgain(url, address, bytes, info, url', address');
    CallKeepsIntactIff(Opened(url, address, bytes, info), call);
    ApplyKeepsTable(Opened(url, address, bytes, info), call);
  }

  lemma RewriteIsAdmitted(s: Store, content: string, now: int, suffix: string)
    requires Keyed(s.table) && 2 in s.table && At(s.table[2], 1, 5) && s.table[2].status.Pending? && s.table[2].claim.None?
    requires 1 in s.books && s.fs.Keys == {ContentDir(1), ChapterLoc(1, 5)} && s.fs[ContentDir(1)].Dir? && !Blank(content)
    ensures Decide(s, Rewrite(content, now, suffix)) == Write(2, Sha256(content))
  {
    RowAtFinds(s.table, 2);
    ChapterFilesDistinct(1, 5, 1, 5, suffix);
  }

  /** Writing it replaces the inherited file. */
  lemma RewriteLoses(s: Store, content: string, now: int, suffix: string)
    requires Decide(s, Rewrite(content, now, suffix)) == Write(2, Sha256(content))
    requires 0 in s.table && RowIntact(s, 0) && Names(s.table[0], ChapterLoc(1, 5)) && s.table[0].hash != Some(Sha256(content))
    ensures var (s', reply) := MarkDone(s, Rewrite(content, now, suffix), Clean);
      reply.Stored? && 0 in s'.table && s'.table[0] == s.table[0] && !RowIntact(s', 0)
  {
    var q := Rewrite(content, now, suffix);
    assert Overwrites(s, q, Clean, 0);
    OtherRowIntactIff(s, q, Clean, 0);
    WriteTouchesOneRow(s, q, 2, Sha256(content), Clean);
  }

  /** From an old database to a lost chapter, by calls that all return as they should. */
  lemma InheritedContentIsLost(
    url: string, bytes: string, canonical: string -> Option<string>, info: Book, url': string, address': string,
    content: string, now: int, suffix: string)
    requires canonical(url).Some? && canonical(url).value != address' && !Blank(content) && content != bytes
    ensures var s := Store(Migrated(OldTable(url, bytes), OldDisk(bytes), canonical), OldDisk(bytes), map[1 := info], [], 2, {});
      var s1 := Apply(s, UpsertCall(1, [NewChapter(url', address')]));
      var (s2, reply) := MarkDone(s1, Rewrite(content, now, suffix), Clean);
      && TableInv(s) && Intact(s) && Intact(s1) && reply.Stored?
      && 0 in s.table && s.table[0].status.Done? && 0 in s2.table && s2.table[0] == s.table[0] && !RowIntact(s2, 0)
  {
    var address := canonical(url).value;
    MigrationInherits(url, bytes, canonical);
    OpenedIsIntact(url, address, bytes, info);
    ListedAgain(url, address, bytes, info, url', address');
    RelistedIsIntact(url, address, bytes, info, url', address');
    var s1 := Relisted(url, address, bytes, info, url', address');
    RewriteIsAdmitted(s1, content, now, suffix);
    RewriteLoses(s1, content, now, suffix);
  }
}
