/**
 * Which paths of a data directory a restored backup holds, spelled out name by name: nothing here is stated through
 * the filter that decides it.
 */
module BackupScope {
  import opened Prelude
  import opened TarOctal
  import opened TarHeader
  import opened ArchivePath
  import opened ArchiveCheck
  import opened Archive
  import opened ArchiveRoundTrip
  import opened TarWriter
  import opened PgData
  import opened PgBackup

  /** Left out wherever they stand, with everything below them. */
  predicate NeverStored(name: Bytes) {
    name == Ascii(".DS_Store") || Ascii("pg_internal.init") <= name || Ascii("pgsql_tmp") <= name
  }

  /** Left out at the top of the data directory. */
  predicate TopLeftOut(name: Bytes) {
    || name == Ascii("backup_label") || name == Ascii("backup_manifest") || name == Ascii("current_logfiles.tmp")
    || name == Ascii("postgresql.auto.conf.tmp") || name == Ascii("postmaster.opts")
    || name == Ascii("postmaster.pid") || name == Ascii("tablespace_map")
  }

  /** Top directories that are stored empty. */
  predicate StoredEmpty(name: Bytes) {
    || name == Ascii("pg_dynshmem") || name == Ascii("pg_notify") || name == Ascii("pg_replslot")
    || name == Ascii("pg_serial") || name == Ascii("pg_snapshots") || name == Ascii("pg_stat_tmp")
    || name == Ascii("pg_subtrans") || name == Ascii("pg_wal")
  }

  predicate LeftOut(rel: seq<Bytes>)
    requires rel != []
  {
    || (exists i :: 0 <= i < |rel| && NeverStored(rel[i]))
    || TopLeftOut(rel[0])
    || (|rel| >= 2 && rel[0] == Ascii("global") && rel[1] == Ascii("pg_control"))
    || (|rel| >= 2 && StoredEmpty(rel[0]))
  }

  /** Stored after all, by another way than the walk. */
  predicate StoredApart(b: BackupFacts, rel: seq<Bytes>)
    requires Wal.RangeOk(b.startWal, b.stopWal, b.segmentSize)
  {
    || rel == [Ascii("global"), Ascii("pg_control")]
    || rel == [Ascii("backup_label")]
    || (rel == [Ascii("tablespace_map")] && b.tablespaceMap != [])
    || (|rel| == 2 && rel[0] == Ascii("pg_wal") && rel[1] in Wal.WalNames(b.startWal, b.stopWal, b.segmentSize))
  }

  lemma LabelNames()
    ensures BACKUP_LABEL == Ascii("backup_label") && BACKUP_MANIFEST == Ascii("backup_manifest")
    ensures TABLESPACE_MAP == Ascii("tablespace_map")
  {
  }

  lemma TemporaryNames()
    ensures LOGFILES_TMP == Ascii("current_logfiles.tmp") && AUTO_CONF_TMP == Ascii("postgresql.auto.conf.tmp")
  {
  }

  lemma TopNames()
    ensures BACKUP_LABEL == Ascii("backup_label") && BACKUP_MANIFEST == Ascii("backup_manifest")
    ensures LOGFILES_TMP == Ascii("current_logfiles.tmp") && AUTO_CONF_TMP == Ascii("postgresql.auto.conf.tmp")
    ensures POSTMASTER_OPTS == Ascii("postmaster.opts") && POSTMASTER_PID == Ascii("postmaster.pid")
    ensures TABLESPACE_MAP == Ascii("tablespace_map")
  {
    LabelNames();
    TemporaryNames();
  }

  lemma SharedMemoryNames()
    ensures PG_DYNSHMEM == Ascii("pg_dynshmem") && PG_NOTIFY == Ascii("pg_notify")
    ensures PG_REPLSLOT == Ascii("pg_replslot") && PG_SERIAL == Ascii("pg_serial")
  {
  }

  lemma DirectoryNames()
    ensures PG_DYNSHMEM == Ascii("pg_dynshmem") && PG_NOTIFY == Ascii("pg_notify")
    ensures PG_REPLSLOT == Ascii("pg_replslot") && PG_SERIAL == Ascii("pg_serial")
    ensures PG_SNAPSHOTS == Ascii("pg_snapshots") && PG_STAT_TMP == Ascii("pg_stat_tmp")
    ensures PG_SUBTRANS == Ascii("pg_subtrans") && PG_WAL == Ascii("pg_wal")
  {
    SharedMemoryNames();
  }

  lemma PrefixNames()
    ensures DS_STORE == Ascii(".DS_Store") && INTERNAL_INIT == Ascii("pg_internal.init")
    ensures PGSQL_TMP == Ascii("pgsql_tmp")
  {
  }

  lemma OtherNames()
    ensures DS_STORE == Ascii(".DS_Store") && INTERNAL_INIT == Ascii("pg_internal.init")
    ensures PGSQL_TMP == Ascii("pgsql_tmp") && GLOBAL == Ascii("global") && PG_CONTROL == Ascii("pg_control")
    ensures PGDATA == Ascii("pgdata")
  {
    PrefixNames();
  }

  lemma SkipIff(rel: seq<Bytes>)
    requires rel != []
    ensures Skip(rel) <==>
      || NeverStored(rel[|rel| - 1])
      || (|rel| == 1 && TopLeftOut(rel[0]))
      || (|rel| == 2 && rel[0] == Ascii("global") && rel[1] == Ascii("pg_control"))
      || (|rel| >= 2 && StoredEmpty(rel[0]))
  {
    hide Ascii;
    TopNames();
    DirectoryNames();
    OtherNames();
    assert rel == [GLOBAL, PG_CONTROL] <==> |rel| == 2 && rel[0] == GLOBAL && rel[1] == PG_CONTROL;
  }

  /** No prefix of `rel` under `base` is skipped. */
  ghost predicate Unskipped(base: seq<Bytes>, rel: seq<Bytes>) {
    forall k :: 1 <= k <= |rel| ==> !Skip(base + rel[..k])
  }

  lemma UnskippedStep(base: seq<Bytes>, rel: seq<Bytes>)
    requires rel != []
    ensures Unskipped(base, rel) <==> !Skip(base + [rel[0]]) && Unskipped(base + [rel[0]], rel[1..])
  {
    hide Skip;
    var next := base + [rel[0]];
    assert base + rel[..1] == next;
    forall k | 1 <= k <= |rel| - 1 ensures next + rel[1..][..k] == base + rel[..k + 1] {}
    if !Skip(next) && Unskipped(next, rel[1..]) {
      forall k | 1 <= k <= |rel| ensures !Skip(base + rel[..k]) {
        if k > 1 { assert next + rel[1..][..k - 1] == base + rel[..k]; }
      }
    }
  }

  lemma {:induction false} VisibleSteps(base: seq<Bytes>, rel: seq<Bytes>)
    ensures Visible(base, rel) <==> Unskipped(base, rel)
    decreases |rel|
  {
    if rel != [] {
      hide Skip, Unskipped;
      UnskippedStep(base, rel);
      VisibleSteps(base + [rel[0]], rel[1..]);
    }
  }

  lemma VisibleIff(rel: seq<Bytes>)
    requires rel != []
    ensures Visible([], rel) <==> !LeftOut(rel)
  {
    hide Skip, NeverStored, TopLeftOut, StoredEmpty, Ascii, Visible;
    VisibleSteps([], rel);
    forall k | 1 <= k <= |rel| ensures Skip([] + rel[..k]) ==> LeftOut(rel) {
      assert [] + rel[..k] == rel[..k];
      SkipIff(rel[..k]);
    }
    if LeftOut(rel) {
      var k := LeftOutAt(rel);
      assert [] + rel[..k] == rel[..k];
    }
  }

  lemma LeftOutAt(rel: seq<Bytes>) returns (k: nat)
    requires rel != [] && LeftOut(rel)
    ensures 1 <= k <= |rel| && Skip(rel[..k])
  {
    hide Skip, NeverStored, TopLeftOut, StoredEmpty, Ascii;
    if i :| 0 <= i < |rel| && NeverStored(rel[i]) {
      k := i + 1;
    } else {
      k := if TopLeftOut(rel[0]) then 1 else 2;
    }
    SkipIff(rel[..k]);
  }

  /** What a restored file system holds for a node of the data directory. */
  predicate Holds(fs: Fs, p: Bytes, node: Option<Node>) {
    match node
    case Some(File(c)) => p in fs && fs[p] == FsFile(c)
    case Some(Dir(_)) => p in fs && fs[p] == FsDir
    case _ => p !in fs
  }

  /**
   * Every path of the data directory, whatever it is: unless it is left out, the restored archive has the same file
   * with the same contents there, or a directory, or nothing; what is left out is not there.
   */
  lemma RestoredPaths(tree: Listing, b: BackupFacts, rel: seq<Bytes>)
    requires WellFormed(tree) && BackupBytes(tree, b).Some?
    requires forall x :: x in Contents(tree, b).value ==> |x.content| < Pow8(11)
    requires ReadArchive(BackupBytes(tree, b).value, [], map[]).Some? && rel != [] && AllComponents(rel)
    ensures Wal.RangeOk(b.startWal, b.stopWal, b.segmentSize)
    ensures var fs := ReadArchive(BackupBytes(tree, b).value, [], map[]).value;
      var p := Join([Ascii("pgdata")] + rel);
      && (!LeftOut(rel) ==> Holds(fs, p, Lookup(tree, rel)))
      && (LeftOut(rel) && !StoredApart(b, rel) ==> p !in fs)
  {
    hide Contents, EncodeAll, ReadArchive, WellFormed, Pow8, Lookup, LeftOut, Visible, Join, Wal.RangeOk, Wal.WalNames;
    RestoreGivesBack(tree, b);
    RangeIsOk(tree, b);
    OtherNames();
    VisibleIff(rel);
    var cs := At(rel);
    assert cs == [Ascii("pgdata")] + rel && cs[1..] == rel;
    PathIsComponents(rel);
    ExpectedAt(tree, b, rel);
  }

  lemma PathIsComponents(rel: seq<Bytes>)
    requires AllComponents(rel)
    ensures AllComponents(At(rel))
  {
    OwnNamesGood();
    assert forall i :: 1 <= i <= |rel| ==> At(rel)[i] == rel[i - 1];
  }

  lemma ExpectedAt(tree: Listing, b: BackupFacts, rel: seq<Bytes>)
    requires Wal.RangeOk(b.startWal, b.stopWal, b.segmentSize) && rel != []
    ensures Visible([], rel) ==> Expected(tree, b, At(rel)) == Restored(Lookup(tree, rel))
    ensures !Visible([], rel) && !StoredApart(b, rel) ==> Expected(tree, b, At(rel)) == None
  {
    hide Ascii;
    hide Visible, Lookup, Restored, Wal.RangeOk, Wal.WalNames;
    if Visible([], rel) { WalkedIsExpected(tree, b, rel); }
    TopNames();
    DirectoryNames();
    OtherNames();
    NamesDiffer();
    assert At(rel)[1..] == rel && At(rel)[0] == PGDATA && |At(rel)| > 1;
    assert At(rel) == At([BACKUP_LABEL]) ==> rel == [BACKUP_LABEL] by {
      if At(rel) == At([BACKUP_LABEL]) { assert At([BACKUP_LABEL])[1..] == [BACKUP_LABEL]; }
    }
    assert At(rel) == At([TABLESPACE_MAP]) ==> rel == [TABLESPACE_MAP] by {
      if At(rel) == At([TABLESPACE_MAP]) { assert At([TABLESPACE_MAP])[1..] == [TABLESPACE_MAP]; }
    }
    assert [METADATA, MANIFEST_NAME][0] == METADATA;
  }

  lemma OtherPlaces()
    ensures METADATA == Ascii(".oliphaunt") && MANIFEST_NAME == Ascii("backup-manifest.properties")
    ensures [SLASH] == Ascii("/")
  {
  }

  /** The manifest of a native physical archive: five property lines. */
  function Manifest(): Bytes {
    Ascii("archiveLayout=oliphaunt-physical-archive-v1\nproduct=oliphaunt\nengineFamily=native\n")
    + Ascii("physicalFormat=native-pg18-v1\npostgresMajor=18\n")
  }

  lemma TwoPart(a: Bytes, b: Bytes)
    ensures Join([a, b]) == a + Ascii("/") + b
  {
    OtherPlaces();
    JoinFirst([a, b]);
    assert [a, b][1..] == [b];
    assert Join([b]) == b;
  }

  lemma ThreePart(a: Bytes, b: Bytes, c: Bytes)
    ensures Join([a, b, c]) == a + Ascii("/") + b + Ascii("/") + c
  {
    OtherPlaces();
    hide Ascii;
    JoinFirst([a, b, c]);
    assert [a, b, c][1..] == [b, c];
    TwoPart(b, c);
    assert a + Ascii("/") + (b + Ascii("/") + c) == a + Ascii("/") + b + Ascii("/") + c;
  }

  /**
   * What a restored archive holds besides: the label and the map PostgreSQL gave, the control file, the manifest, and
   * every segment of the WAL range with its full size.
   */
  lemma RestoredApart(tree: Listing, b: BackupFacts)
    requires WellFormed(tree) && BackupBytes(tree, b).Some?
    requires forall x :: x in Contents(tree, b).value ==> |x.content| < Pow8(11)
    requires ReadArchive(BackupBytes(tree, b).value, [], map[]).Some?
    ensures Wal.RangeOk(b.startWal, b.stopWal, b.segmentSize)
    ensures var fs := ReadArchive(BackupBytes(tree, b).value, [], map[]).value;
      var top := Ascii("pgdata") + Ascii("/");
      && Holds(fs, top + Ascii("backup_label"), Some(File(b.labelFile)))
      && Holds(fs, top + Ascii("tablespace_map"), if b.tablespaceMap == [] then None else Some(File(b.tablespaceMap)))
      && Holds(fs, Ascii(".oliphaunt") + Ascii("/") + Ascii("backup-manifest.properties"), Some(File(Manifest())))
    ensures var fs := ReadArchive(BackupBytes(tree, b).value, [], map[]).value;
      var top := Ascii("pgdata") + Ascii("/");
      var control := Lookup(tree, [Ascii("global"), Ascii("pg_control")]);
      control.Some? && control.value.File? &&
      Holds(fs, top + Ascii("global") + Ascii("/") + Ascii("pg_control"), control)
    ensures var fs := ReadArchive(BackupBytes(tree, b).value, [], map[]).value;
      var wal := Ascii("pgdata") + Ascii("/") + Ascii("pg_wal") + Ascii("/");
      forall n :: n in Wal.WalNames(b.startWal, b.stopWal, b.segmentSize) ==>
        var segment := Lookup(tree, [Ascii("pg_wal"), n]);
        && segment.Some? && segment.value.File? && |segment.value.content| == b.segmentSize
        && Holds(fs, wal + n, segment)
  {
    hide Contents, EncodeAll, ReadArchive, WellFormed, Pow8, Lookup, Visible, Join, Wal.RangeOk, Wal.WalNames, Expected,
      RestoresExactly, Holds, Ascii, Manifest;
    RestoreGivesBack(tree, b);
    RangeIsOk(tree, b);
    var fs := ReadArchive(BackupBytes(tree, b).value, [], map[]).value;
    ApartLabel(tree, b, fs);
    ApartManifest(tree, b, fs);
    ApartControl(tree, b, fs);
    forall n | n in Wal.WalNames(b.startWal, b.stopWal, b.segmentSize)
      ensures var segment := Lookup(tree, [Ascii("pg_wal"), n]);
        && segment.Some? && segment.value.File? && |segment.value.content| == b.segmentSize
        && Holds(fs, Ascii("pgdata") + Ascii("/") + Ascii("pg_wal") + Ascii("/") + n, segment)
    {
      ApartSegment(tree, b, fs, n);
    }
  }

  lemma HeldAt(tree: Listing, b: BackupFacts, fs: Fs, cs: seq<Bytes>, node: Option<Node>)
    requires Wal.RangeOk(b.startWal, b.stopWal, b.segmentSize) && RestoresExactly(fs, tree, b)
    requires cs != [] && AllComponents(cs) && Expected(tree, b, cs) == Restored(node)
    ensures Holds(fs, Join(cs), node)
  {
    hide Expected, Join, Wal.RangeOk, AllComponents;
  }

  lemma ApartLabel(tree: Listing, b: BackupFacts, fs: Fs)
    requires Wal.RangeOk(b.startWal, b.stopWal, b.segmentSize) && RestoresExactly(fs, tree, b)
    ensures var top := Ascii("pgdata") + Ascii("/");
      && Holds(fs, top + Ascii("backup_label"), Some(File(b.labelFile)))
      && Holds(fs, top + Ascii("tablespace_map"), if b.tablespaceMap == [] then None else Some(File(b.tablespaceMap)))
  {
    hide Ascii;
    TopNames();
    OtherNames();
    OwnNamesGood();
    NamesDiffer();
    ExtraIsSkipped([TABLESPACE_MAP]);
    assert !Visible([], [TABLESPACE_MAP]) by { assert [] + [TABLESPACE_MAP][..1] == [TABLESPACE_MAP]; }
    hide Join, RestoresExactly, Holds, Wal.RangeOk, Wal.WalNames, Lookup, Visible, Skip, Manifest;
    TwoPart(PGDATA, BACKUP_LABEL);
    TwoPart(PGDATA, TABLESPACE_MAP);
    assert At([BACKUP_LABEL]) == [PGDATA, BACKUP_LABEL] && At([TABLESPACE_MAP]) == [PGDATA, TABLESPACE_MAP];
    assert At([TABLESPACE_MAP])[1..] == [TABLESPACE_MAP];
    assert [PGDATA, BACKUP_LABEL][0] == PGDATA && [METADATA, MANIFEST_NAME][0] == METADATA;
    assert [PGDATA, BACKUP_LABEL][1] == BACKUP_LABEL && [PGDATA, TABLESPACE_MAP][1] == TABLESPACE_MAP;
    HeldAt(tree, b, fs, [PGDATA, BACKUP_LABEL], Some(File(b.labelFile)));
    HeldAt(tree, b, fs, [PGDATA, TABLESPACE_MAP],
           if b.tablespaceMap == [] then None else Some(File(b.tablespaceMap)));
  }

  lemma ApartManifest(tree: Listing, b: BackupFacts, fs: Fs)
    requires Wal.RangeOk(b.startWal, b.stopWal, b.segmentSize) && RestoresExactly(fs, tree, b)
    ensures Holds(fs, Ascii(".oliphaunt") + Ascii("/") + Ascii("backup-manifest.properties"), Some(File(Manifest())))
  {
    hide Ascii;
    OtherPlaces();
    assert MANIFEST_CORE == Manifest();
    OwnNamesGood();
    NamesDiffer();
    hide Join, RestoresExactly, Holds, Wal.RangeOk, Wal.WalNames, Lookup, Visible, Manifest;
    TwoPart(METADATA, MANIFEST_NAME);
    assert [METADATA, MANIFEST_NAME][0] == METADATA && |[METADATA, MANIFEST_NAME]| == 2;
    HeldAt(tree, b, fs, [METADATA, MANIFEST_NAME], Some(File(MANIFEST_CORE)));
  }

  lemma ApartControl(tree: Listing, b: BackupFacts, fs: Fs)
    requires Contents(tree, b).Some?
    requires Wal.RangeOk(b.startWal, b.stopWal, b.segmentSize) && RestoresExactly(fs, tree, b)
    ensures var control := Lookup(tree, [Ascii("global"), Ascii("pg_control")]);
      control.Some? && control.value.File? &&
      Holds(fs, Ascii("pgdata") + Ascii("/") + Ascii("global") + Ascii("/") + Ascii("pg_control"), control)
  {
    hide Ascii;
    OtherNames();
    OwnNamesGood();
    ControlIsGood();
    NamesDiffer();
    hide Join, RestoresExactly, Holds, Wal.RangeOk, Wal.WalNames, Walk, Visible, Lookup, Extras;
    ThreePart(PGDATA, GLOBAL, PG_CONTROL);
    var cs := [PGDATA, GLOBAL, PG_CONTROL];
    assert cs[1..] == [GLOBAL, PG_CONTROL] && |cs| == 3;
    assert |At([BACKUP_LABEL])| == |At([TABLESPACE_MAP])| == 2;
    HeldAt(tree, b, fs, cs, Lookup(tree, [GLOBAL, PG_CONTROL]));
  }

  lemma ControlIsGood()
    ensures GoodName(GLOBAL) && GoodName(PG_CONTROL) && GoodName(PG_WAL)
  {
  }

  lemma ApartSegment(tree: Listing, b: BackupFacts, fs: Fs, n: Bytes)
    requires WellFormed(tree) && Contents(tree, b).Some?
    requires Wal.RangeOk(b.startWal, b.stopWal, b.segmentSize) && RestoresExactly(fs, tree, b)
    requires n in Wal.WalNames(b.startWal, b.stopWal, b.segmentSize)
    ensures var segment := Lookup(tree, [Ascii("pg_wal"), n]);
      && segment.Some? && segment.value.File? && |segment.value.content| == b.segmentSize
      && Holds(fs, Ascii("pgdata") + Ascii("/") + Ascii("pg_wal") + Ascii("/") + n, segment)
  {
    hide Ascii;
    DirectoryNames();
    OtherNames();
    OwnNamesGood();
    ControlIsGood();
    NamesDiffer();
    hide Join, RestoresExactly, Holds, Wal.RangeOk, Wal.WalNames, Walk, Visible, Lookup, Extras, GoodName,
      WellFormed;
    SegmentPresent(tree, Wal.WalNames(b.startWal, b.stopWal, b.segmentSize), b.segmentSize, n);
    LookupGoodNames(tree, [PG_WAL, n]);
    assert GoodName([PG_WAL, n][1]);
    ThreePart(PGDATA, PG_WAL, n);
    var cs := [PGDATA, PG_WAL, n];
    assert cs[1..] == [PG_WAL, n] && |cs| == 3;
    GoodNamesAreComponents(cs);
    assert |At([BACKUP_LABEL])| == |At([TABLESPACE_MAP])| == 2;
    HeldAt(tree, b, fs, cs, Lookup(tree, [PG_WAL, n]));
  }

  lemma {:induction false} SegmentPresent(tree: Listing, names: seq<Bytes>, size: nat, n: Bytes)
    requires Segments(tree, names, size).Some? && n in names
    ensures var segment := Lookup(tree, [PG_WAL, n]);
      segment.Some? && segment.value.File? && |segment.value.content| == size
  {
    hide Lookup;
    if n != names[0] { SegmentPresent(tree, names[1..], size, n); }
  }

  /**
   * The order of the archive: the data directory itself, its walked contents with every directory before what it holds,
   * the control file, the WAL segments, the label, the map if there is one, and the manifest last.
   */
  lemma StoredOrder(tree: Listing, b: BackupFacts)
    requires Contents(tree, b).Some?
    ensures Walk(tree, []).Some? && ParentsFirst(Walk(tree, []).value, [])
    ensures WalFiles(tree, b).Some?
    ensures var xs, walked, wal := Contents(tree, b).value, Walk(tree, []).value, WalFiles(tree, b).value;
      var n := 1 + |walked|;
      && |xs| == n + 1 + |wal| + (if b.tablespaceMap == [] then 2 else 3)
      && xs[0] == Found([Ascii("pgdata")], Directory, [])
      && xs[1..n] == walked
      && xs[n].at == [Ascii("pgdata"), Ascii("global"), Ascii("pg_control")] && xs[n].kind == RegularFile
      && xs[n + 1..n + 1 + |wal|] == wal
      && xs[n + 1 + |wal|] == Found([Ascii("pgdata"), Ascii("backup_label")], RegularFile, b.labelFile)
      && (b.tablespaceMap != [] ==>
            xs[n + 2 + |wal|] == Found([Ascii("pgdata"), Ascii("tablespace_map")], RegularFile, b.tablespaceMap))
      && xs[|xs| - 1].at == [Ascii(".oliphaunt"), Ascii("backup-manifest.properties")]
      && xs[|xs| - 1].kind == RegularFile
  {
    hide *;
    ContentsParts(tree, b);
    WalkParentsFirst(tree, []);
    var walked, control, wal := Walk(tree, []).value, ControlFile(tree).value, WalFiles(tree, b).value;
    OrderNames(tree, b);
    MapCount(b);
    InOrder(ROOT, walked, control, wal, Label(b), MapFile(b), MANIFEST);
  }

  lemma ContentsParts(tree: Listing, b: BackupFacts)
    requires Contents(tree, b).Some?
    ensures Walk(tree, []).Some? && ControlFile(tree).Some? && WalFiles(tree, b).Some?
    ensures var walked, control, wal := Walk(tree, []).value, ControlFile(tree).value, WalFiles(tree, b).value;
      Contents(tree, b).value == [ROOT] + walked + ([control] + wal + [Label(b)] + MapFile(b) + [MANIFEST])
  {
    hide Walk, ControlFile, WalFiles, Label, MapFile, Ascii;
  }

  lemma MapCount(b: BackupFacts)
    ensures |MapFile(b)| == if b.tablespaceMap == [] then 0 else 1
  {
  }

  lemma OrderNames(tree: Listing, b: BackupFacts)
    requires ControlFile(tree).Some?
    ensures ROOT == Found([Ascii("pgdata")], Directory, [])
    ensures ControlFile(tree).value.at == [Ascii("pgdata"), Ascii("global"), Ascii("pg_control")]
    ensures ControlFile(tree).value.kind == RegularFile
    ensures Label(b) == Found([Ascii("pgdata"), Ascii("backup_label")], RegularFile, b.labelFile)
    ensures b.tablespaceMap != [] ==>
      MapFile(b) == [Found([Ascii("pgdata"), Ascii("tablespace_map")], RegularFile, b.tablespaceMap)]
    ensures MANIFEST.at == [Ascii(".oliphaunt"), Ascii("backup-manifest.properties")] && MANIFEST.kind == RegularFile
  {
    hide Ascii, Lookup;
    TopNames();
    OtherNames();
    OtherPlaces();
    assert At([GLOBAL, PG_CONTROL]) == [PGDATA, GLOBAL, PG_CONTROL] && At([]) == [PGDATA];
    assert At([BACKUP_LABEL]) == [PGDATA, BACKUP_LABEL] && At([TABLESPACE_MAP]) == [PGDATA, TABLESPACE_MAP];
  }

  lemma InOrder(root: Found, walked: seq<Found>, control: Found, wal: seq<Found>, labelled: Found, spaces: seq<Found>,
                manifest: Found)
    requires |spaces| <= 1
    ensures var xs, n := [root] + walked + ([control] + wal + [labelled] + spaces + [manifest]), 1 + |walked|;
      && |xs| == n + 3 + |wal| + |spaces| && xs[0] == root && xs[1..n] == walked && xs[n] == control
      && xs[n + 1..n + 1 + |wal|] == wal && xs[n + 1 + |wal|] == labelled
      && (spaces != [] ==> xs[n + 2 + |wal|] == spaces[0]) && xs[|xs| - 1] == manifest
  {
    var rest := [control] + wal + [labelled] + spaces + [manifest];
    assert rest[1..1 + |wal|] == wal && rest[1 + |wal|] == labelled && rest[|rest| - 1] == manifest;
    var xs, n := [root] + walked + rest, 1 + |walked|;
    assert xs[..n] == [root] + walked && xs[n..] == rest;
    assert xs[1..n] == xs[..n][1..] && xs[n + 1..n + 1 + |wal|] == rest[1..1 + |wal|];
  }

  // ---------------------------------------------------------------------------
  // When a backup succeeds
  // ---------------------------------------------------------------------------

  /** No visible node below `base` is special. */
  ghost predicate NoSpecial(l: Listing, base: seq<Bytes>) {
    forall rel :: rel != [] && Lookup(l, rel) == Some(Special) ==> !Visible(base, rel)
  }

  lemma {:induction false} WalkSomeIff(l: Listing, base: seq<Bytes>)
    requires WellFormed(l)
    ensures Walk(l, base).Some? <==> NoSpecial(l, base)
    decreases l
  {
    hide Skip, GoodName;
    match l
    case End =>
    case Item(n, node, rest) =>
      var here := base + [n];
      WalkSomeIff(rest, base);
      if node.Dir? { WalkSomeIff(node.children, here); }
      SpecialBehind(n, node, rest, base);
      SpecialBelow(n, node, rest, base);
  }

  lemma LookupNotListed(l: Listing, rel: seq<Bytes>)
    requires rel != [] && rel[0] !in PgData.Names(l)
    ensures Lookup(l, rel) == None
  {
  }

  /** Special nodes of the rest of a listing are special nodes of the listing. */
  lemma SpecialBehind(n: Bytes, node: Node, rest: Listing, base: seq<Bytes>)
    requires n !in PgData.Names(rest)
    ensures forall rel :: rel != [] && Lookup(rest, rel) == Some(Special) ==>
      rel[0] != n && Lookup(Item(n, node, rest), rel) == Some(Special)
    ensures forall rel :: rel != [] && rel[0] != n ==> Lookup(Item(n, node, rest), rel) == Lookup(rest, rel)
  {
    forall rel | rel != [] && Lookup(rest, rel) == Some(Special) ensures rel[0] != n {
      if rel[0] == n { LookupNotListed(rest, rel); }
    }
  }

  /** So are those below its first entry. */
  lemma SpecialBelow(n: Bytes, node: Node, rest: Listing, base: seq<Bytes>)
    ensures Lookup(Item(n, node, rest), [n]) == Some(node)
    ensures Visible(base, [n]) <==> !Skip(base + [n])
    ensures node.Dir? ==> forall rel :: rel != [] ==>
      && Lookup(Item(n, node, rest), [n] + rel) == Lookup(node.children, rel)
      && (Visible(base, [n] + rel) <==> !Skip(base + [n]) && Visible(base + [n], rel))
    ensures forall rel :: rel != [] && rel[0] == n ==> rel == [n] + rel[1..] && (|rel| == 1 <==> rel == [n])
    ensures !node.Dir? ==> forall rel :: |rel| > 1 && rel[0] == n ==> Lookup(Item(n, node, rest), rel) == None
  {
    hide Skip;
    assert [n][1..] == [] && Visible(base + [n], []);
    forall rel: seq<Bytes> | rel != []
      ensures ([n] + rel)[1..] == rel && ([n] + rel)[0] == n
    {
    }
  }

  /** A path that a header can hold: up to 100 bytes, or with a slash to cut it at. */
  ghost predicate Fits(path: Bytes) { |path| <= 100 || exists i: nat :: CutAt(path, i) }

  /** The segment is a file of exactly the segment size. */
  predicate SegmentThere(tree: Listing, name: Bytes, size: nat) {
    match Lookup(tree, [Ascii("pg_wal"), name])
    case Some(File(c)) => |c| == size
    case _ => false
  }

  predicate IsFile(node: Option<Node>) { node.Some? && node.value.File? }

  predicate IsDir(node: Option<Node>) { node.Some? && node.value.Dir? }

  lemma {:induction false} SegmentsIff(tree: Listing, names: seq<Bytes>, size: nat)
    ensures Segments(tree, names, size).Some? <==> forall n :: n in names ==> SegmentThere(tree, n, size)
  {
    hide Lookup, Ascii;
    DirectoryNames();
    if names != [] {
      SegmentsIff(tree, names[1..], size);
      assert names == [names[0]] + names[1..];
      assert Segment(tree, names[0], size).Some? <==> SegmentThere(tree, names[0], size);
    }
  }

  lemma {:induction false} EncodeAllIff(es: seq<Entry>)
    ensures EncodeAll(es).Some? <==> forall e :: e in es ==> EncodeEntry(e).Some?
  {
    hide EncodeEntry;
    if es != [] {
      EncodeAllIff(es[1..]);
      assert es == [es[0]] + es[1..];
    }
  }

  /** What a backup stores can be written if its path fits: it is never absolute and never contains dot-dot. */
  lemma SoundFits(x: Found)
    requires Sound(x)
    ensures EncodeEntry(ToEntry(x)).Some? <==> Fits(HeaderPath(Join(x.at), x.kind))
  {
    hide GoodName, Join, Components, HeaderPath, SplitName;
    RecordLayout(ToEntry(x));
    GoodNamesAreComponents(x.at);
    ComponentsOfJoin(x.at);
    JoinClean(x.at);
    JoinStartsWithFirst(x.at);
    NameIff(HeaderPath(Join(x.at), x.kind));
  }

  /**
   * When a backup of a data directory succeeds: no link or other special node among what is stored, a control file, a
   * real pg_wal directory, a legal WAL range whose segments are all there in full size, and paths that fit a header.
   */
  lemma BackupSucceedsIff(tree: Listing, b: BackupFacts)
    requires WellFormed(tree)
    ensures BackupBytes(tree, b).Some? <==>
      && (forall rel :: rel != [] && Lookup(tree, rel) == Some(Special) ==> LeftOut(rel))
      && IsFile(Lookup(tree, [Ascii("global"), Ascii("pg_control")])) && IsDir(Lookup(tree, [Ascii("pg_wal")]))
      && Wal.RangeOk(b.startWal, b.stopWal, b.segmentSize)
      && (forall n :: n in Wal.WalNames(b.startWal, b.stopWal, b.segmentSize) ==> SegmentThere(tree, n, b.segmentSize))
      && Contents(tree, b).Some?
      && (forall x :: x in Contents(tree, b).value ==> Fits(HeaderPath(Join(x.at), x.kind)))
    ensures Contents(tree, b).Some? <==>
      && (forall rel :: rel != [] && Lookup(tree, rel) == Some(Special) ==> LeftOut(rel))
      && IsFile(Lookup(tree, [Ascii("global"), Ascii("pg_control")])) && IsDir(Lookup(tree, [Ascii("pg_wal")]))
      && Wal.RangeOk(b.startWal, b.stopWal, b.segmentSize)
      && (forall n :: n in Wal.WalNames(b.startWal, b.stopWal, b.segmentSize) ==> SegmentThere(tree, n, b.segmentSize))
  {
    hide Ascii, LeftOut, Join, HeaderPath, EncodeAll, Contents, Fits, Wal.RangeOk, Wal.WalNames, WellFormed, Lookup,
      SegmentThere;
    ContentsIff(tree, b);
    if Contents(tree, b).Some? {
      var xs := Contents(tree, b).value;
      var es := Entries(xs);
      EncodeAllIff(es);
      forall x | x in xs ensures EncodeEntry(ToEntry(x)).Some? <==> Fits(HeaderPath(Join(x.at), x.kind)) {
        ContentsSound(tree, b, x);
        SoundFits(x);
      }
      EntriesOf(xs);
    }
  }

  lemma EntriesOf(xs: seq<Found>)
    ensures forall e :: e in Entries(xs) <==> exists x :: x in xs && e == ToEntry(x)
  {
    var es := Entries(xs);
    forall x | x in xs ensures ToEntry(x) in es {
      var i :| 0 <= i < |xs| && xs[i] == x;
      assert es[i] == ToEntry(x);
    }
  }

  lemma ContentsIff(tree: Listing, b: BackupFacts)
    requires WellFormed(tree)
    ensures Contents(tree, b).Some? <==>
      && (forall rel :: rel != [] && Lookup(tree, rel) == Some(Special) ==> LeftOut(rel))
      && IsFile(Lookup(tree, [Ascii("global"), Ascii("pg_control")])) && IsDir(Lookup(tree, [Ascii("pg_wal")]))
      && Wal.RangeOk(b.startWal, b.stopWal, b.segmentSize)
      && (forall n :: n in Wal.WalNames(b.startWal, b.stopWal, b.segmentSize) ==> SegmentThere(tree, n, b.segmentSize))
  {
    hide Ascii, LeftOut, Lookup, Wal.RangeOk, Wal.WalNames, WellFormed, Visible, SegmentThere, Walk, Segments;
    OtherNames();
    DirectoryNames();
    WalkSomeIff(tree, []);
    forall rel | rel != [] ensures Visible([], rel) <==> !LeftOut(rel) { VisibleIff(rel); }
    if Wal.RangeOk(b.startWal, b.stopWal, b.segmentSize) {
      SegmentsIff(tree, Wal.WalNames(b.startWal, b.stopWal, b.segmentSize), b.segmentSize);
    }
  }
}
