/**
 * Data directories that are backed up successfully: they are restored, unless one of their directories has a path
 * whose name field is lost.
 */
module LostDirectory {
  import opened Prelude
  import opened TarOctal
  import opened TarHeader
  import opened ArchivePath
  import opened ArchiveCheck
  import opened Archive
  import opened ArchiveRoundTrip
  import opened PgData
  import opened PgBackup

  const MEBIBYTE: nat := 1024 * 1024

  // "000000000000000000000000"
  const SEGMENT_NAME: Bytes := Fill(48, 24)
  const CONTROL: Bytes := [1]

  /** A control file, one WAL segment, and the directory `n`. */
  function DataDirectory(n: Bytes): Listing {
    Item(GLOBAL, Dir(Item(PG_CONTROL, File(CONTROL), End)),
         Item(PG_WAL, Dir(Item(SEGMENT_NAME, File(Fill(NUL, MEBIBYTE)), End)),
              Item(n, Dir(End), End)))
  }

  const FACTS: BackupFacts := BackupFacts(SEGMENT_NAME, SEGMENT_NAME, MEBIBYTE, [108], [])

  /** One more directory at the top of the data directory, which the backup keeps. */
  predicate Keepable(n: Bytes) { GoodName(n) && |n| <= 148 && !Skip([n]) && n != GLOBAL && n != PG_WAL }

  lemma FixedNamesGood()
    ensures GoodName(GLOBAL) && GoodName(PG_CONTROL) && GoodName(PG_WAL) && GoodName(SEGMENT_NAME)
    ensures |GLOBAL| == 6 && |PG_WAL| == 6 && |SEGMENT_NAME| == 24 && |PG_CONTROL| == 10
  {
  }

  lemma DirectoryWellFormed(n: Bytes)
    requires Keepable(n)
    ensures WellFormed(DataDirectory(n))
  {
    hide GoodName, Skip;
    FixedNamesGood();
    NamesDiffer();
    var last := Item(n, Dir(End), End);
    assert PgData.Names(End) == {} && WellFormed(End);
    assert WellFormed(last) && PgData.Names(last) == {n} + PgData.Names(End);
    var wal := Dir(Item(SEGMENT_NAME, File(Fill(NUL, MEBIBYTE)), End));
    assert WellFormed(wal.children);
    var tail := Item(PG_WAL, wal, last);
    assert WellFormed(tail) && PgData.Names(tail) == {PG_WAL} + PgData.Names(last);
    assert WellFormed(Item(PG_CONTROL, File(CONTROL), End));
  }

  lemma DirectoryLookups(n: Bytes)
    ensures Lookup(DataDirectory(n), [GLOBAL, PG_CONTROL]) == Some(File(CONTROL))
    ensures Lookup(DataDirectory(n), [PG_WAL]).Some? && Lookup(DataDirectory(n), [PG_WAL]).value.Dir?
    ensures Lookup(DataDirectory(n), [PG_WAL, SEGMENT_NAME]) == Some(File(Fill(NUL, MEBIBYTE)))
  {
    NamesDiffer();
    var wal := Item(SEGMENT_NAME, File(Fill(NUL, MEBIBYTE)), End);
    var tail := Item(PG_WAL, Dir(wal), Item(n, Dir(End), End));
    assert [GLOBAL, PG_CONTROL][1..] == [PG_CONTROL] && [PG_WAL, SEGMENT_NAME][1..] == [SEGMENT_NAME];
    assert Lookup(Item(PG_CONTROL, File(CONTROL), End), [PG_CONTROL]) == Some(File(CONTROL));
    assert Lookup(wal, [SEGMENT_NAME]) == Some(File(Fill(NUL, MEBIBYTE)));
    assert Lookup(tail, [PG_WAL]) == Some(Dir(wal));
    assert Lookup(tail, [PG_WAL, SEGMENT_NAME]) == Some(File(Fill(NUL, MEBIBYTE)));
  }

  /** The three directories, and none of the two files. */
  function WalkOf(n: Bytes): seq<Found> {
    [Found(At([GLOBAL]), Directory, []), Found(At([PG_WAL]), Directory, []), Found(At([n]), Directory, [])]
  }

  /** A kept directory with nothing to keep in it, at the top of the data directory. */
  lemma WalkTop(m: Bytes, children: Listing, rest: Listing, others: seq<Found>)
    requires !Skip([m]) && Walk(children, [m]) == Some([]) && Walk(rest, []) == Some(others)
    ensures Walk(Item(m, Dir(children), rest), []) == Some([Found(At([m]), Directory, [])] + others)
  {
    hide Skip;
    assert [] + [m] == [m];
    var x := Found(At([m]), Directory, []);
    assert [x] + [] + others == [x] + others;
  }

  lemma WalkSkipped(m: Bytes, f: Bytes, content: Bytes)
    requires Skip([m, f])
    ensures Walk(Item(f, File(content), End), [m]) == Some([])
  {
    hide Skip;
    assert [m] + [f] == [m, f];
  }

  lemma DirectoryWalk(n: Bytes)
    requires Keepable(n)
    ensures Walk(DataDirectory(n), []) == Some(WalkOf(n))
  {
    DirectoriesKept();
    ExtraIsSkipped([GLOBAL, PG_CONTROL]);
    ExtraIsSkipped([PG_WAL, SEGMENT_NAME]);
    hide Skip, GoodName, Walk;
    var segment := Fill(NUL, MEBIBYTE);
    var wal := Item(SEGMENT_NAME, File(segment), End);
    WalkSkipped(GLOBAL, PG_CONTROL, CONTROL);
    WalkSkipped(PG_WAL, SEGMENT_NAME, segment);
    WalkNothing(n);
    WalkTop(n, End, End, []);
    var lost := Found(At([n]), Directory, []);
    assert [lost] + [] == [lost];
    WalkTop(PG_WAL, wal, Item(n, Dir(End), End), [lost]);
    WalkTop(GLOBAL, Item(PG_CONTROL, File(CONTROL), End), Item(PG_WAL, Dir(wal), Item(n, Dir(End), End)),
            [Found(At([PG_WAL]), Directory, [])] + [lost]);
    assert [Found(At([GLOBAL]), Directory, [])] + ([Found(At([PG_WAL]), Directory, [])] + [lost]) == WalkOf(n);
  }

  lemma WalkNothing(n: Bytes)
    ensures Walk(End, [n]) == Some([]) && Walk(End, []) == Some([])
  {
  }

  // ---------------------------------------------------------------------------
  // One WAL segment
  // ---------------------------------------------------------------------------

  lemma SixteenTimes(n: nat)
    requires Wal.PowerOfTwo(n)
    ensures Wal.PowerOfTwo(16 * n)
  {
    assert 2 * n / 2 == n && Wal.PowerOfTwo(2 * n);
    assert 4 * n / 2 == 2 * n && Wal.PowerOfTwo(4 * n);
    assert 8 * n / 2 == 4 * n && Wal.PowerOfTwo(8 * n);
    assert 16 * n / 2 == 8 * n;
  }

  lemma MebibyteIsLegal()
    ensures Wal.LegalSegmentSize(MEBIBYTE) && Wal.SegmentsPerLog(MEBIBYTE) == 4096
  {
    assert Wal.PowerOfTwo(1);
    hide Wal.PowerOfTwo;
    SixteenTimes(1);
    SixteenTimes(16);
    SixteenTimes(256);
    SixteenTimes(4096);
    SixteenTimes(65536);
  }

  lemma {:induction false} ZerosAreZero(n: nat)
    ensures Wal.HexNumber(Fill(48, n)) == Some(0)
  {
    if n > 0 {
      ZerosAreZero(n - 1);
      assert Fill(48, n)[..n - 1] == Fill(48, n - 1);
    }
  }

  lemma SegmentParses()
    ensures Wal.ParseName(SEGMENT_NAME, 4096) == Some(Wal.Position(0, 0))
  {
    hide Wal.HexNumber;
    ZerosAreZero(8);
    assert SEGMENT_NAME[..8] == Fill(48, 8) && SEGMENT_NAME[8..16] == Fill(48, 8) && SEGMENT_NAME[16..] == Fill(48, 8);
  }

  lemma OneSegmentRange()
    ensures Wal.RangeOk(SEGMENT_NAME, SEGMENT_NAME, MEBIBYTE)
    ensures Wal.WalNames(SEGMENT_NAME, SEGMENT_NAME, MEBIBYTE) == [SEGMENT_NAME]
  {
    MebibyteIsLegal();
    SegmentParses();
    hide Wal.LegalSegmentSize, Wal.SegmentsPerLog, Wal.ParseName, Wal.WalNames, Wal.Consecutive;
    Wal.WalNamesAreTheRange(SEGMENT_NAME, SEGMENT_NAME, MEBIBYTE);
    var names := Wal.WalNames(SEGMENT_NAME, SEGMENT_NAME, MEBIBYTE);
    assert |names| == 1 && names[0] == SEGMENT_NAME;
  }

  lemma OneSegment(n: Bytes)
    ensures Wal.RangeOk(SEGMENT_NAME, SEGMENT_NAME, MEBIBYTE)
    ensures WalFiles(DataDirectory(n), FACTS) ==
            Some([Found(At([PG_WAL, SEGMENT_NAME]), RegularFile, Fill(NUL, MEBIBYTE))])
  {
    hide Wal.RangeOk, Wal.WalNames, Lookup;
    OneSegmentRange();
    DirectoryLookups(n);
    var tree, segment := DataDirectory(n), Found(At([PG_WAL, SEGMENT_NAME]), RegularFile, Fill(NUL, MEBIBYTE));
    assert Segment(tree, SEGMENT_NAME, MEBIBYTE) == Some(segment);
    assert [SEGMENT_NAME][1..] == [];
    assert Segments(tree, [], MEBIBYTE) == Some([]);
    assert [segment] + [] == [segment];
    assert Segments(tree, [SEGMENT_NAME], MEBIBYTE) == Some([segment]);
  }

  // ---------------------------------------------------------------------------
  // Everything can be written
  // ---------------------------------------------------------------------------

  lemma PathLength(a: Bytes, b: Bytes, c: Bytes)
    ensures |Join([a])| == |a| && |Join([a, b])| == |a| + 1 + |b| && |Join([a, b, c])| == |a| + |b| + |c| + 2
  {
    assert [a, b][1..] == [b] && [a, b, c][1..] == [b, c] && [b, c][1..] == [c];
    assert Join([c]) == c && Join([b]) == b && Join([b, c]) == b + [SLASH] + Join([c]);
    JoinFirst([a, b]);
    JoinFirst([a, b, c]);
  }

  /** A sound entry can be written if its header path fits one field, or loses its name. */
  lemma SoundIsWritten(x: Found)
    requires Sound(x) && (|Join(x.at)| < 100 || Unreadable(ToEntry(x)))
    ensures EncodeEntry(ToEntry(x)).Some?
  {
    hide GoodName, Join, Components;
    GoodNamesAreComponents(x.at);
    JoinClean(x.at);
    ComponentsOfJoin(x.at);
    JoinStartsWithFirst(x.at);
    EmptyNameIff(HeaderPath(Join(x.at), x.kind));
  }

  lemma {:induction false} AllWritten(es: seq<Entry>)
    requires forall i :: 0 <= i < |es| ==> EncodeEntry(es[i]).Some?
    ensures EncodeAll(es).Some?
  {
    hide EncodeEntry;
    if es != [] { AllWritten(es[1..]); }
  }

  function ContentsOf(n: Bytes): seq<Found> {
    [ROOT] + WalkOf(n) + [Found(At([GLOBAL, PG_CONTROL]), RegularFile, CONTROL)]
    + [Found(At([PG_WAL, SEGMENT_NAME]), RegularFile, Fill(NUL, MEBIBYTE))] + [Label(FACTS)] + [MANIFEST]
  }

  lemma DirectoryContents(n: Bytes)
    requires Keepable(n)
    ensures Contents(DataDirectory(n), FACTS) == Some(ContentsOf(n))
  {
    hide Walk, WalFiles, Lookup, Keepable, Label;
    DirectoryWalk(n);
    DirectoryLookups(n);
    OneSegment(n);
    var control := Found(At([GLOBAL, PG_CONTROL]), RegularFile, CONTROL);
    var wal := [Found(At([PG_WAL, SEGMENT_NAME]), RegularFile, Fill(NUL, MEBIBYTE))];
    assert ControlFile(DataDirectory(n)) == Some(control);
    assert MapFile(FACTS) == [];
    assert [ROOT] + WalkOf(n) + ([control] + wal + [Label(FACTS)] + [] + [MANIFEST]) == ContentsOf(n);
  }

  lemma EntryLengths(n: Bytes, x: Found)
    requires Keepable(n) && x in ContentsOf(n)
    ensures |Join(x.at)| < 100 || (x.at == At([n]) && x.kind == Directory && |Join(x.at)| + 1 == 8 + |n|)
    ensures |x.content| <= MEBIBYTE
  {
    hide GoodName, Skip, Join;
    FixedNamesGood();
    NamesDiffer();
    assert ROOT.at == [PGDATA] && MANIFEST.at == [METADATA, MANIFEST_NAME] && Label(FACTS).at == [PGDATA, BACKUP_LABEL];
    assert At([GLOBAL]) == [PGDATA, GLOBAL] && At([PG_WAL]) == [PGDATA, PG_WAL] && At([n]) == [PGDATA, n];
    assert At([GLOBAL, PG_CONTROL]) == [PGDATA, GLOBAL, PG_CONTROL] &&
      At([PG_WAL, SEGMENT_NAME]) == [PGDATA, PG_WAL, SEGMENT_NAME];
    assert |PGDATA| == 6 && |METADATA| == 10 && |MANIFEST_NAME| < 60 && |MANIFEST_CORE| < 200;
    PathLength(PGDATA, n, n);
    PathLength(PGDATA, GLOBAL, PG_CONTROL);
    PathLength(PGDATA, PG_WAL, SEGMENT_NAME);
    PathLength(PGDATA, BACKUP_LABEL, n);
    PathLength(METADATA, MANIFEST_NAME, n);
  }

  lemma MebibyteFits()
    ensures MEBIBYTE < Pow8(11)
  {
    assert Pow8(3) == 512;
    assert Pow8(6) == 512 * 512;
    assert Pow8(9) == 512 * 512 * 512;
    Pow8Monotone(9, 11);
  }

  /**
   * For every such directory name the backup succeeds; its archive gives the data directory back if the name is
   * shorter than 93 bytes, and is refused if it is not.
   */
  lemma RestoredIffShort(n: Bytes)
    requires Keepable(n)
    ensures BackupBytes(DataDirectory(n), FACTS).Some? && Wal.RangeOk(SEGMENT_NAME, SEGMENT_NAME, MEBIBYTE)
    ensures var r := ReadArchive(BackupBytes(DataDirectory(n), FACTS).value, [], map[]);
      (r.Some? <==> |n| < 93) && (r.Some? ==> RestoresExactly(r.value, DataDirectory(n), FACTS))
  {
    hide Keepable, Contents, EncodeAll, ReadArchive, Pow8, ContentsOf, Unreadable, Sound, RestoresExactly,
      WellFormed, ToEntry, Wal.RangeOk;
    var tree, xs := DataDirectory(n), ContentsOf(n);
    DirectoryWellFormed(n);
    DirectoryContents(n);
    OneSegmentRange();
    MebibyteFits();
    forall x | x in xs ensures EncodeEntry(ToEntry(x)).Some? && |x.content| < Pow8(11) { EntryIsWritten(n, x); }
    var es := Entries(xs);
    assert forall i :: 0 <= i < |es| ==> xs[i] in xs && es[i] == ToEntry(xs[i]);
    AllWritten(es);
    if |n| >= 93 {
      LostIsStored(n);
    } else {
      forall x | x in xs ensures !Unreadable(ToEntry(x)) { ShortIsReadable(n, x); }
    }
    RestoreGivesBack(tree, FACTS);
  }

  lemma ShortIsReadable(n: Bytes, x: Found)
    requires Keepable(n) && |n| < 93 && x in ContentsOf(n)
    ensures !Unreadable(ToEntry(x))
  {
    EntryLengths(n, x);
    hide Keepable, ContentsOf, Join;
  }

  lemma EntryIsWritten(n: Bytes, x: Found)
    requires Keepable(n) && x in ContentsOf(n)
    ensures EncodeEntry(ToEntry(x)).Some? && |x.content| <= MEBIBYTE
  {
    DirectoryWellFormed(n);
    DirectoryContents(n);
    ContentsSound(DataDirectory(n), FACTS, x);
    EntryLengths(n, x);
    hide ContentsOf, Sound, Skip, GoodName, Join, EncodeEntry, WellFormed, Contents;
    SoundIsWritten(x);
  }

  lemma LostIsStored(n: Bytes)
    requires Keepable(n) && |n| >= 93
    ensures var lost := Found(At([n]), Directory, []); lost in ContentsOf(n) && Unreadable(ToEntry(lost))
  {
    hide GoodName, Skip;
    PathLength(PGDATA, n, n);
    var lost := Found(At([n]), Directory, []);
    assert WalkOf(n)[2] == lost;
    assert ContentsOf(n)[3] == lost;
  }

  /** There are such names on both sides. */
  lemma BothLengthsOccur()
    ensures Keepable(Fill(97, 4)) && Keepable(Fill(97, 93))
  {
    RepeatedIsKeepable(4);
    RepeatedIsKeepable(93);
  }

  lemma RepeatedIsKeepable(k: nat)
    requires 0 < k <= 148
    ensures Keepable(Fill(97, k))
  {
    var n := Fill(97, k);
    assert n[0] == 97 && [n][0] == n;
    assert INTERNAL_INIT[0] != 97 && PGSQL_TMP[0] != 97;
    assert |n| >= |INTERNAL_INIT| ==> n[..|INTERNAL_INIT|][0] == 97;
    assert |n| >= |PGSQL_TMP| ==> n[..|PGSQL_TMP|][0] == 97;
    assert AUTO_CONF_TMP[0] != 97 && LOGFILES_TMP[0] != 97 && BACKUP_MANIFEST[0] != 97 && DS_STORE[0] != 97;
    assert POSTMASTER_OPTS[0] != 97 && POSTMASTER_PID[0] != 97 && TABLESPACE_MAP[0] != 97 && BACKUP_LABEL[0] != 97;
    assert GLOBAL[0] != 97 && PG_WAL[0] != 97;
  }
}
