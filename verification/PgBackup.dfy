/**
 * The contents of a physical backup, and the theorem that a restore gives back exactly
 * the data directory it was taken from.
 */
module PgBackup {
  import opened Prelude
  import opened TarOctal
  import opened TarHeader
  import opened ArchivePath
  import opened ArchiveCheck
  import opened Archive
  import opened ArchiveRoundTrip
  import opened PgData
  import Wal

  /** What pg_backup_start and pg_backup_stop returned. */
  datatype BackupFacts = BackupFacts(startWal: Bytes, stopWal: Bytes, segmentSize: nat, labelFile: Bytes,
    tablespaceMap: Bytes)

  // ---------------------------------------------------------------------------
  // The entries of a backup
  // ---------------------------------------------------------------------------

  function ControlFile(tree: Listing): Option<Found> {
    match Lookup(tree, [GLOBAL, PG_CONTROL])
    case Some(File(c)) => Some(Found(At([GLOBAL, PG_CONTROL]), RegularFile, c))
    case _ => None
  }

  /** A required segment must be a regular file of exactly the segment size. */
  function Segment(tree: Listing, name: Bytes, size: nat): Option<Found> {
    match Lookup(tree, [PG_WAL, name])
    case Some(File(c)) => if |c| == size then Some(Found(At([PG_WAL, name]), RegularFile, c)) else None
    case _ => None
  }

  function Segments(tree: Listing, names: seq<Bytes>, size: nat): Option<seq<Found>> {
    if names == [] then Some([])
    else
      match (Segment(tree, names[0], size), Segments(tree, names[1..], size))
      case (Some(first), Some(rest)) => Some([first] + rest)
      case _ => None
  }

  function WalFiles(tree: Listing, b: BackupFacts): Option<seq<Found>> {
    match Lookup(tree, [PG_WAL])
    case Some(Dir(_)) =>
      if Wal.RangeOk(b.startWal, b.stopWal, b.segmentSize)
      then Segments(tree, Wal.WalNames(b.startWal, b.stopWal, b.segmentSize), b.segmentSize)
      else None
    case _ => None
  }

  const ROOT: Found := Found(At([]), Directory, [])
  const MANIFEST: Found := Found([METADATA, MANIFEST_NAME], RegularFile, MANIFEST_CORE)

  function Label(b: BackupFacts): Found { Found(At([BACKUP_LABEL]), RegularFile, b.labelFile) }

  function MapFile(b: BackupFacts): seq<Found> {
    if b.tablespaceMap == [] then [] else [Found(At([TABLESPACE_MAP]), RegularFile, b.tablespaceMap)]
  }

  /** The files added after the walk. */
  function Extras(control: Found, wal: seq<Found>, b: BackupFacts): seq<Found> {
    [control] + wal + [Label(b)] + MapFile(b) + [MANIFEST]
  }

  /** Everything the backup stores, in order; None when the backup refuses the directory. */
  function Contents(tree: Listing, b: BackupFacts): Option<seq<Found>> {
    match (Walk(tree, []), ControlFile(tree), WalFiles(tree, b))
    case (Some(found), Some(control), Some(wal)) => Some([ROOT] + found + Extras(control, wal, b))
    case _ => None
  }

  function Entries(xs: seq<Found>): (es: seq<Entry>)
    ensures |es| == |xs| && forall i :: 0 <= i < |xs| ==> es[i] == ToEntry(xs[i])
  {
    seq(|xs|, i requires 0 <= i < |xs| => ToEntry(xs[i]))
  }

  /** The archive bytes. */
  function BackupBytes(tree: Listing, b: BackupFacts): Option<Bytes> {
    match Contents(tree, b)
    case None => None
    case Some(xs) =>
      match EncodeAll(Entries(xs))
      case None => None
      case Some(body) => Some(Finished(body))
  }

  // ---------------------------------------------------------------------------
  // From components to bytes
  // ---------------------------------------------------------------------------

  lemma JoinFirst(cs: seq<Bytes>)
    requires |cs| > 1
    ensures Join(cs) == cs[0] + [SLASH] + Join(cs[1..])
  {
  }

  lemma {:induction false} JoinSplit(a: seq<Bytes>, b: seq<Bytes>)
    requires a != [] && b != []
    ensures Join(a + b) == Join(a) + [SLASH] + Join(b)
  {
    if |a| == 1 {
      assert (a + b)[1..] == b;
    } else {
      assert (a + b)[1..] == a[1..] + b;
      JoinSplit(a[1..], b);
    }
  }

  /** Ancestors of a joined path are its proper prefixes. */
  lemma AncestorIffPrefix(a: seq<Bytes>, b: seq<Bytes>)
    requires AllComponents(a) && AllComponents(b) && a != [] && b != []
    ensures IsAncestor(Join(a), Join(b)) <==> ProperPrefix(a, b)
  {
    if ProperPrefix(a, b) {
      assert b == a + b[|a|..];
      JoinSplit(a, b[|a|..]);
    }
    if IsAncestor(Join(a), Join(b)) {
      AncestorIsPrefix(Join(a), b);
      var k :| 0 < k < |b| && Join(a) == Join(b[..k]);
      JoinInjective(a, b[..k]);
    }
  }

  lemma {:induction false} AncestorIsPrefix(p: Bytes, b: seq<Bytes>)
    requires AllComponents(b) && b != [] && IsAncestor(p, Join(b))
    ensures exists k :: 0 < k < |b| && p == Join(b[..k])
  {
    if |b| > 1 {
      JoinFirst(b);
      var first, rest := b[0], Join(b[1..]);
      var whole := first + [SLASH] + rest;
      assert whole[..|first|] == first;
      if |p| == |first| {
        assert p == whole[..|first|] == first;
        assert b[..1] == [first];
        assert p == Join(b[..1]);
      } else if |p| > |first| {
        assert whole[|first|] == SLASH && p[..|first|] == first && p[|first|] == SLASH;
        var q := p[|first| + 1..];
        assert p == first + [SLASH] + q;
        assert rest[..|q|] == q && rest[|q|] == SLASH;
        AncestorIsPrefix(q, b[1..]);
        var k :| 0 < k < |b[1..]| && q == Join(b[1..][..k]);
        assert b[..k + 1] == [first] + b[1..][..k];
        assert b[..k + 1][1..] == b[1..][..k];
        assert p == Join(b[..k + 1]);
      }
    }
  }

  lemma CollideIffClash(x: Found, y: Found)
    requires AllComponents(x.at) && AllComponents(y.at) && x.at != [] && y.at != []
    ensures Collide(x, y) <==> Clash(ToEntry(x), ToEntry(y))
  {
    hide Join, IsAncestor, ProperPrefix;
    AncestorIffPrefix(x.at, y.at);
    AncestorIffPrefix(y.at, x.at);
    if Join(x.at) == Join(y.at) { JoinInjective(x.at, y.at); }
  }

  predicate Proper(x: Found) { x.at != [] && AllComponents(x.at) }

  lemma HarmoniousIsConsistent(xs: seq<Found>)
    requires Harmonious(xs) && forall i :: 0 <= i < |xs| ==> Proper(xs[i])
    ensures Consistent(Entries(xs))
  {
    hide Collide, Clash, ToEntry;
    var es := Entries(xs);
    forall i, j | 0 <= i < j < |es| ensures !Clash(es[i], es[j]) {
      CollideIffClash(xs[i], xs[j]);
    }
  }

  // ---------------------------------------------------------------------------
  // The entries of a backup never collide
  // ---------------------------------------------------------------------------

  /** Paths below the data directory that are stored after the walk. */
  predicate ExtraPath(rel: seq<Bytes>) {
    || rel == [GLOBAL, PG_CONTROL]
    || (|rel| == 2 && rel[0] == PG_WAL)
    || rel == [BACKUP_LABEL]
    || rel == [TABLESPACE_MAP]
  }

  /** The walk passes over every one of them. */
  lemma ExtraIsSkipped(rel: seq<Bytes>)
    requires ExtraPath(rel)
    ensures Skip(rel)
  {
  }

  lemma DirectoriesKept()
    ensures !Skip([GLOBAL]) && !Skip([PG_WAL])
  {
    assert [GLOBAL][0] == GLOBAL && [PG_WAL][0] == PG_WAL;
    assert GLOBAL[0] == 103 && PG_WAL[3] == 119;
    assert BACKUP_LABEL[0] == 98 && BACKUP_MANIFEST[0] == 98 && LOGFILES_TMP[0] == 99;
    assert |AUTO_CONF_TMP| > 6 && |POSTMASTER_OPTS| > 6 && |POSTMASTER_PID| > 6 && |TABLESPACE_MAP| > 6;
    assert |INTERNAL_INIT| > 6 && |PGSQL_TMP| > 6 && |DS_STORE| > 6;
  }

  lemma {:induction false} VisiblePrefix(base: seq<Bytes>, rel: seq<Bytes>, k: nat)
    requires Visible(base, rel) && 0 < k <= |rel|
    ensures Visible(base, rel[..k]) && !Skip(base + rel[..k])
    decreases |rel|
  {
    hide Skip;
    assert rel[..k][0] == rel[0];
    assert rel[..1] == [rel[0]];
    if k > 1 {
      VisiblePrefix(base + [rel[0]], rel[1..], k - 1);
      assert rel[..k][1..] == rel[1..][..k - 1];
      assert base + [rel[0]] + rel[1..][..k - 1] == base + rel[..k];
    } else {
      assert rel[..1][1..] == [];
    }
  }

  /** Above every node of the tree stand directories of the tree. */
  lemma {:induction false} LookupPrefix(l: Listing, rel: seq<Bytes>, k: nat)
    requires 0 < k < |rel| && Lookup(l, rel).Some?
    ensures Lookup(l, rel[..k]).Some? && Lookup(l, rel[..k]).value.Dir?
    decreases l
  {
    match l
    case End =>
    case Item(n, node, rest) =>
      if n != rel[0] {
        LookupPrefix(rest, rel, k);
      } else if k > 1 {
        LookupPrefix(node.children, rel[1..], k - 1);
        assert rel[..k][1..] == rel[1..][..k - 1];
      }
  }

  lemma {:induction false} LookupGoodNames(l: Listing, rel: seq<Bytes>)
    requires WellFormed(l) && Lookup(l, rel).Some?
    ensures rel != [] && forall i :: 0 <= i < |rel| ==> GoodName(rel[i])
    decreases l
  {
    hide GoodName;
    match l
    case End =>
    case Item(n, node, rest) =>
      if n != rel[0] {
        LookupGoodNames(rest, rel);
      } else if |rel| > 1 {
        LookupGoodNames(node.children, rel[1..]);
        assert forall i :: 1 <= i < |rel| ==> rel[i] == rel[1..][i - 1];
      }
  }

  lemma {:induction false} SegmentsShape(tree: Listing, names: seq<Bytes>, size: nat)
    requires Segments(tree, names, size).Some?
    ensures |Segments(tree, names, size).value| == |names|
    ensures forall i :: 0 <= i < |names| ==> Segment(tree, names[i], size) == Some(Segments(tree, names, size).value[i])
  {
    hide Segment;
    if names != [] {
      SegmentsShape(tree, names[1..], size);
      assert forall i :: 1 <= i < |names| ==> names[i] == names[1..][i - 1];
    }
  }

  /** What is known of an extra entry. */
  ghost predicate IsExtra(tree: Listing, b: BackupFacts, x: Found) {
    || x == MANIFEST
    || (&& x.kind == RegularFile && |x.at| >= 2 && x.at == At(x.at[1..]) && ExtraPath(x.at[1..])
        && (|x.at| == 3 ==> Lookup(tree, x.at[1..]) == Some(File(x.content))))
  }

  lemma WalExtras(tree: Listing, b: BackupFacts, x: Found)
    requires WalFiles(tree, b).Some? && x in WalFiles(tree, b).value
    ensures IsExtra(tree, b, x) && |x.at| == 3 && x.at[1] == PG_WAL
    ensures x.at[2] in Wal.WalNames(b.startWal, b.stopWal, b.segmentSize)
  {
    hide Wal.RangeOk, Wal.WalNames, Skip;
    var names := Wal.WalNames(b.startWal, b.stopWal, b.segmentSize);
    SegmentsShape(tree, names, b.segmentSize);
    var xs := WalFiles(tree, b).value;
    var i :| 0 <= i < |xs| && xs[i] == x;
    assert Segment(tree, names[i], b.segmentSize) == Some(x);
    assert x.at[1..] == [PG_WAL, names[i]];
  }

  lemma ExtrasShape(tree: Listing, b: BackupFacts, x: Found)
    requires Contents(tree, b).Some?
    requires x in Extras(ControlFile(tree).value, WalFiles(tree, b).value, b)
    ensures IsExtra(tree, b, x)
  {
    hide Walk, WalFiles;
    var control, wal := ControlFile(tree).value, WalFiles(tree, b).value;
    if x in wal {
      WalExtras(tree, b, x);
    } else if x == control {
      assert x.at[1..] == [GLOBAL, PG_CONTROL];
    } else if x == Label(b) {
      assert x.at[1..] == [BACKUP_LABEL];
    } else if x in MapFile(b) {
      assert x.at[1..] == [TABLESPACE_MAP];
    }
  }

  lemma WalHarmonious(tree: Listing, b: BackupFacts)
    requires WalFiles(tree, b).Some?
    ensures Harmonious(WalFiles(tree, b).value)
  {
    hide Wal.ParseName, Wal.WalNames, Wal.IsRange;
    var names := Wal.WalNames(b.startWal, b.stopWal, b.segmentSize);
    var xs := WalFiles(tree, b).value;
    SegmentsShape(tree, names, b.segmentSize);
    Wal.WalNamesAreTheRange(b.startWal, b.stopWal, b.segmentSize);
    forall i, j | 0 <= i < j < |xs| ensures !Collide(xs[i], xs[j]) {
      Wal.RangeIsDistinct(names, b.startWal, b.stopWal, Wal.SegmentsPerLog(b.segmentSize), i, j);
      assert Segment(tree, names[i], b.segmentSize) == Some(xs[i]);
      assert Segment(tree, names[j], b.segmentSize) == Some(xs[j]);
      assert xs[i].at[2] == names[i] && xs[j].at[2] == names[j];
    }
  }

  /** An extra entry and what the walk found: the walk skipped the extra and went through its parents. */
  lemma ExtraApart(tree: Listing, b: BackupFacts, x: Found, y: Found)
    requires WellFormed(tree) && Walk(tree, []).Some? && x in Walk(tree, []).value && IsExtra(tree, b, y)
    ensures !Collide(x, y)
  {
    hide Skip, Walk, WellFormed, Lookup, ExtraPath;
    WalkSound(tree, [], x);
    var rel := x.at[1..];
    assert [] + rel == rel;
    assert x.at == At(rel);
    NamesDiffer();
    if y != MANIFEST {
      var e := y.at[1..];
      ExtraIsSkipped(e);
      if |e| <= |rel| && rel[..|e|] == e {
        assert [] + rel[..|e|] == e;
        VisiblePrefix([], rel, |e|);
      } else if |rel| < |e| && e[..|rel|] == rel {
        assert |e| == 2 by { ExtraLength(e); }
        LookupPrefix(tree, e, |rel|);
      } else {
        SlicesDiffer(rel, e);
      }
    } else {
      DifferAt(x, y, 0);
    }
  }

  lemma ExtraLength(rel: seq<Bytes>)
    requires ExtraPath(rel)
    ensures 1 <= |rel| <= 2
  {
  }

  /** Neither of two incomparable paths stays comparable below the data directory. */
  lemma SlicesDiffer(a: seq<Bytes>, b: seq<Bytes>)
    requires !(|b| <= |a| && a[..|b|] == b) && !(|a| <= |b| && b[..|a|] == a)
    ensures At(a) != At(b) && !ProperPrefix(At(a), At(b)) && !ProperPrefix(At(b), At(a))
  {
    assert At(a)[1..] == a && At(b)[1..] == b;
    if |a| < |b| { assert At(b)[..1 + |a|][1..] == b[..|a|]; }
    if |b| < |a| { assert At(a)[..1 + |b|][1..] == a[..|b|]; }
    assert a[..|a|] == a;
  }

  lemma DifferAt(x: Found, y: Found, k: nat)
    requires k < |x.at| && k < |y.at| && x.at[k] != y.at[k]
    ensures !Collide(x, y)
  {
    if |x.at| < |y.at| { assert y.at[..|x.at|][k] == y.at[k]; }
    if |y.at| < |x.at| { assert x.at[..|y.at|][k] == x.at[k]; }
  }

  lemma NamesDiffer()
    ensures GLOBAL != PG_WAL && PGDATA != METADATA && |GLOBAL| == |PG_WAL| == 6
    ensures |BACKUP_LABEL| == 12 && |TABLESPACE_MAP| == 14
  {
    assert GLOBAL[0] != PG_WAL[0];
    assert PGDATA[0] != METADATA[0];
  }

  lemma ExtrasHarmonious(tree: Listing, b: BackupFacts)
    requires Contents(tree, b).Some?
    ensures Harmonious(Extras(ControlFile(tree).value, WalFiles(tree, b).value, b))
  {
    hide Walk, WalFiles, IsExtra, Collide;
    var control, wal, map_ := ControlFile(tree).value, WalFiles(tree, b).value, MapFile(b);
    WalHarmonious(tree, b);
    NamesDiffer();
    forall x | x in wal ensures |x.at| == 3 && x.at[0] == PGDATA && x.at[1] == PG_WAL { WalExtra(tree, b, x); }
    forall x | x in wal ensures !Collide(control, x) { DifferAt(control, x, 1); }
    HarmoniousConcat([control], wal);
    forall x | x in [control] + wal ensures !Collide(x, Label(b)) { DifferAt(x, Label(b), 1); }
    HarmoniousConcat([control] + wal, [Label(b)]);
    forall x, y | x in [control] + wal + [Label(b)] && y in map_ ensures !Collide(x, y) { DifferAt(x, y, 1); }
    HarmoniousConcat([control] + wal + [Label(b)], map_);
    forall x | x in [control] + wal + [Label(b)] + map_ ensures !Collide(x, MANIFEST) { DifferAt(x, MANIFEST, 0); }
    HarmoniousConcat([control] + wal + [Label(b)] + map_, [MANIFEST]);
  }

  lemma WalExtra(tree: Listing, b: BackupFacts, x: Found)
    requires WalFiles(tree, b).Some? && x in WalFiles(tree, b).value
    ensures |x.at| == 3 && x.at[0] == PGDATA && x.at[1] == PG_WAL && x.kind == RegularFile
  {
    hide WalFiles;
    WalExtras(tree, b, x);
    assert At(x.at[1..])[0] == PGDATA;
  }

  /** No two entries of a backup are in each other's way. */
  lemma ContentsHarmonious(tree: Listing, b: BackupFacts)
    requires WellFormed(tree) && Contents(tree, b).Some?
    ensures Harmonious(Contents(tree, b).value)
  {
    hide Extras, Skip, WalFiles, ControlFile, Collide, IsExtra, WellFormed, Walk;
    var found, extras := Walk(tree, []).value, Extras(ControlFile(tree).value, WalFiles(tree, b).value, b);
    WalkHarmonious(tree, []);
    ExtrasHarmonious(tree, b);
    forall i, j | 0 <= i < |found| && 0 <= j < |extras| ensures !Collide(found[i], extras[j]) {
      ExtrasShape(tree, b, extras[j]);
      ExtraApart(tree, b, found[i], extras[j]);
    }
    HarmoniousConcat(found, extras);
    forall x | x in found + extras ensures !Collide(ROOT, x) { RootApart(tree, b, x); }
    HarmoniousConcat([ROOT], found + extras);
    assert [ROOT] + found + extras == [ROOT] + (found + extras);
  }

  lemma RootApart(tree: Listing, b: BackupFacts, x: Found)
    requires WellFormed(tree) && Contents(tree, b).Some?
    requires x in Walk(tree, []).value + Extras(ControlFile(tree).value, WalFiles(tree, b).value, b)
    ensures !Collide(ROOT, x)
  {
    hide Extras, Skip, WalFiles, ControlFile, ExtraPath, WellFormed, Walk;
    if x in Walk(tree, []).value {
      WalkSound(tree, [], x);
    } else {
      ExtrasShape(tree, b, x);
    }
  }

  // ---------------------------------------------------------------------------
  // Every entry of a backup is storable
  // ---------------------------------------------------------------------------

  /** Names a reader takes as they stand, below the data directory or the manifest's own path. */
  predicate Sound(x: Found) {
    && (forall i :: 0 <= i < |x.at| ==> GoodName(x.at[i]))
    && InsideArchive(x.at) && x.at != At([POSTMASTER_PID]) && x.at != At([POSTMASTER_OPTS])
    && (x.kind == Directory ==> x.content == [])
  }

  lemma {:induction false} JoinClean(cs: seq<Bytes>)
    requires cs != [] && forall i :: 0 <= i < |cs| ==> GoodName(cs[i])
    ensures Join(cs) != [] && NoNul(Join(cs)) && Join(cs)[|Join(cs)| - 1] != SLASH
  {
    if |cs| > 1 {
      JoinClean(cs[1..]);
      JoinFirst(cs);
      var tail := Join(cs[1..]);
      assert Join(cs)[|Join(cs)| - 1] == tail[|tail| - 1];
    }
  }

  lemma GoodNamesAreComponents(cs: seq<Bytes>)
    requires forall i :: 0 <= i < |cs| ==> GoodName(cs[i])
    ensures AllComponents(cs) && DOT !in cs && DOTDOT !in cs
  {
  }

  lemma SoundIsStorable(x: Found)
    requires Sound(x) && |x.content| < Pow8(11)
    ensures Proper(x) && Storable(ToEntry(x))
  {
    hide GoodName, Canonical, NoNul, Pow8, Join;
    GoodNamesAreComponents(x.at);
    JoinClean(x.at);
    CanonicalOfJoin(x.at);
    OwnNamesGood();
    NotNamed(x.at, POSTMASTER_PID);
    NotNamed(x.at, POSTMASTER_OPTS);
  }

  lemma NotNamed(cs: seq<Bytes>, n: Bytes)
    requires AllComponents(cs) && cs != At([n]) && IsComponent(PGDATA) && IsComponent(n)
    ensures Join(cs) != PGDATA + [SLASH] + n
  {
    JoinFirst(At([n]));
    assert At([n])[1..] == [n];
    assert Join([n]) == n;
    if Join(cs) == Join(At([n])) { JoinInjective(cs, At([n])); }
  }

  lemma OwnNamesGood()
    ensures GoodName(PGDATA) && GoodName(METADATA) && GoodName(MANIFEST_NAME)
    ensures GoodName(POSTMASTER_PID) && GoodName(POSTMASTER_OPTS)
    ensures GoodName(BACKUP_LABEL) && GoodName(TABLESPACE_MAP)
    ensures |POSTMASTER_PID| == 14 && |POSTMASTER_OPTS| == 15 && TABLESPACE_MAP != POSTMASTER_PID
  {
    assert TABLESPACE_MAP[0] != POSTMASTER_PID[0];
  }

  lemma ProcessFilesSkipped()
    ensures Skip([POSTMASTER_PID]) && Skip([POSTMASTER_OPTS])
  {
  }

  lemma WalkedIsSound(tree: Listing, x: Found)
    requires WellFormed(tree) && Walk(tree, []).Some? && x in Walk(tree, []).value
    ensures Sound(x)
  {
    hide Skip, Walk, WellFormed, Lookup, GoodName, Visible;
    WalkSound(tree, [], x);
    var rel := x.at[1..];
    assert [] + rel == rel;
    LookupGoodNames(tree, rel);
    assert rel[..|rel|] == rel;
    VisiblePrefix([], rel, |rel|);
    UnskippedIsSound(x, rel);
  }

  lemma UnskippedIsSound(x: Found, rel: seq<Bytes>)
    requires rel != [] && x.at == At(rel) && !Skip(rel) && (x.kind == Directory ==> x.content == [])
    requires forall i :: 0 <= i < |rel| ==> GoodName(rel[i])
    ensures Sound(x)
  {
    hide GoodName, Skip;
    OwnNamesGood();
    ProcessFilesSkipped();
    assert x.at[1..] == rel;
    assert forall i :: 1 <= i < |x.at| ==> x.at[i] == rel[i - 1];
  }

  lemma ExtraIsSound(tree: Listing, b: BackupFacts, x: Found)
    requires WellFormed(tree) && IsExtra(tree, b, x)
    ensures Sound(x)
  {
    hide WellFormed, Lookup, GoodName;
    OwnNamesGood();
    NamesDiffer();
    if x != MANIFEST {
      var rel := x.at[1..];
      assert x.at == At(rel);
      assert forall i :: 1 <= i < |x.at| ==> x.at[i] == rel[i - 1];
      if |x.at| == 3 {
        LookupGoodNames(tree, rel);
      }
    }
  }

  lemma ContentsSound(tree: Listing, b: BackupFacts, x: Found)
    requires WellFormed(tree) && Contents(tree, b).Some? && x in Contents(tree, b).value
    ensures Sound(x)
  {
    hide Walk, WellFormed, Extras, IsExtra, ControlFile, WalFiles, GoodName;
    if x in Walk(tree, []).value {
      WalkedIsSound(tree, x);
    } else if x == ROOT {
      OwnNamesGood();
    } else {
      ExtrasShape(tree, b, x);
      ExtraIsSound(tree, b, x);
    }
  }

  // ---------------------------------------------------------------------------
  // What a restore gives back
  // ---------------------------------------------------------------------------

  function Restored(node: Option<Node>): Option<FsNode> {
    match node
    case Some(File(c)) => Some(FsFile(c))
    case Some(Dir(_)) => Some(FsDir)
    case _ => None
  }

  /** Paths whose nodes a backup takes from the data directory. */
  predicate Taken(b: BackupFacts, rel: seq<Bytes>)
    requires Wal.RangeOk(b.startWal, b.stopWal, b.segmentSize)
  {
    || Visible([], rel)
    || rel == [GLOBAL, PG_CONTROL]
    || (|rel| == 2 && rel[0] == PG_WAL && rel[1] in Wal.WalNames(b.startWal, b.stopWal, b.segmentSize))
  }

  /** The node a restored archive must hold at a path, read off the original data directory. */
  function Expected(tree: Listing, b: BackupFacts, cs: seq<Bytes>): Option<FsNode>
    requires Wal.RangeOk(b.startWal, b.stopWal, b.segmentSize)
  {
    if cs == [PGDATA] || cs == [METADATA] then Some(FsDir)
    else if cs == [METADATA, MANIFEST_NAME] then Some(FsFile(MANIFEST_CORE))
    else if cs == At([BACKUP_LABEL]) then Some(FsFile(b.labelFile))
    else if cs == At([TABLESPACE_MAP]) && b.tablespaceMap != [] then Some(FsFile(b.tablespaceMap))
    else if |cs| > 1 && cs[0] == PGDATA && Taken(b, cs[1..]) then Restored(Lookup(tree, cs[1..]))
    else None
  }

  /** `fs` holds the expected nodes and nothing else. */
  ghost predicate RestoresExactly(fs: Fs, tree: Listing, b: BackupFacts)
    requires Wal.RangeOk(b.startWal, b.stopWal, b.segmentSize)
  {
    && (forall cs :: cs != [] && AllComponents(cs) ==>
          (Join(cs) in fs <==> Expected(tree, b, cs).Some?)
          && (Join(cs) in fs ==> Expected(tree, b, cs) == Some(fs[Join(cs)])))
    && (forall p :: p in fs ==> IsJoin(p))
  }

  ghost predicate IsJoin(p: Bytes) { exists cs :: cs != [] && AllComponents(cs) && p == Join(cs) }

  function NodeOf(x: Found): FsNode { if x.kind == Directory then FsDir else FsFile(x.content) }

  lemma WalkedIsExpected(tree: Listing, b: BackupFacts, rel: seq<Bytes>)
    requires Wal.RangeOk(b.startWal, b.stopWal, b.segmentSize) && rel != [] && Visible([], rel)
    ensures Expected(tree, b, At(rel)) == Restored(Lookup(tree, rel))
  {
    hide Skip, Lookup, Restored, Wal.RangeOk, Wal.WalNames;
    VisiblePrefix([], rel, |rel|);
    assert rel[..|rel|] == rel == [] + rel;
    ExtraIsSkipped([BACKUP_LABEL]);
    ExtraIsSkipped([TABLESPACE_MAP]);
    var cs := At(rel);
    assert |cs| > 1 && cs[0] == PGDATA && cs[1..] == rel;
    assert [METADATA, MANIFEST_NAME][0] == METADATA;
    assert At([BACKUP_LABEL])[1..] == [BACKUP_LABEL] && At([TABLESPACE_MAP])[1..] == [TABLESPACE_MAP];
    NamesDiffer();
  }

  lemma ExtraIsExpected(tree: Listing, b: BackupFacts, x: Found)
    requires Contents(tree, b).Some? && x in Extras(ControlFile(tree).value, WalFiles(tree, b).value, b)
    ensures Expected(tree, b, x.at) == Some(NodeOf(x))
  {
    hide Skip, Walk, Wal.RangeOk, Wal.WalNames, Lookup;
    NamesDiffer();
    if x in WalFiles(tree, b).value {
      WalExtras(tree, b, x);
      WalExtra(tree, b, x);
      assert x.at[1..][1] == x.at[2];
    } else if x == ControlFile(tree).value {
      assert x.at[1..] == [GLOBAL, PG_CONTROL];
    } else {
      assert x == Label(b) || x in MapFile(b) || x == MANIFEST;
      assert Label(b).at[1] == BACKUP_LABEL;
    }
  }

  lemma EntryIsExpected(tree: Listing, b: BackupFacts, x: Found)
    requires WellFormed(tree) && Contents(tree, b).Some? && x in Contents(tree, b).value
    ensures Expected(tree, b, x.at) == Some(NodeOf(x))
  {
    hide Walk, WellFormed, Extras, ControlFile, Lookup, Skip;
    if x in Walk(tree, []).value {
      WalkSound(tree, [], x);
      var rel := x.at[1..];
      assert [] + rel == rel;
      assert x.at == At(rel);
      WalkedIsExpected(tree, b, rel);
    } else if x != ROOT {
      ExtraIsExpected(tree, b, x);
    }
  }

  lemma ParentIsExpected(tree: Listing, b: BackupFacts, x: Found, k: nat)
    requires WellFormed(tree) && Contents(tree, b).Some? && x in Contents(tree, b).value && 0 < k < |x.at|
    ensures Expected(tree, b, x.at[..k]) == Some(FsDir)
  {
    hide Walk, WellFormed, Extras, ControlFile, Lookup, Skip, Expected, ExtraPath, Visible;
    var rel := x.at[1..];
    if x in Walk(tree, []).value {
      WalkSound(tree, [], x);
      assert [] + rel == rel;
      assert x.at == At(rel);
      if k > 1 { VisiblePrefix([], rel, k - 1); }
      PrefixIsExpected(tree, b, rel, k);
    } else {
      ExtrasShape(tree, b, x);
      if x == MANIFEST {
        assert x.at[..k] == [METADATA];
        TopIsExpected(tree, b);
      } else {
        ExtraLength(rel);
        if k > 1 {
          ExtraParentVisible(rel);
          assert rel[..1] == [rel[0]];
        }
        PrefixIsExpected(tree, b, rel, k);
      }
    }
  }

  lemma TopIsExpected(tree: Listing, b: BackupFacts)
    requires Wal.RangeOk(b.startWal, b.stopWal, b.segmentSize)
    ensures Expected(tree, b, [PGDATA]) == Expected(tree, b, [METADATA]) == Some(FsDir)
  {
    hide Wal.RangeOk, Wal.WalNames, Lookup, Visible;
  }

  lemma PrefixIsExpected(tree: Listing, b: BackupFacts, rel: seq<Bytes>, k: nat)
    requires Wal.RangeOk(b.startWal, b.stopWal, b.segmentSize) && 0 < k <= |rel|
    requires k > 1 ==> Lookup(tree, rel).Some? && Visible([], rel[..k - 1])
    ensures Expected(tree, b, At(rel)[..k]) == Some(FsDir)
  {
    hide Wal.RangeOk, Lookup, Visible, Expected;
    if k == 1 {
      assert At(rel)[..1] == [PGDATA];
      TopIsExpected(tree, b);
    } else {
      assert At(rel)[..k] == At(rel[..k - 1]);
      LookupPrefix(tree, rel, k - 1);
      WalkedIsExpected(tree, b, rel[..k - 1]);
    }
  }

  lemma ExtraParentVisible(rel: seq<Bytes>)
    requires ExtraPath(rel) && |rel| == 2
    ensures Visible([], [rel[0]])
  {
    hide Skip;
    DirectoriesKept();
    assert [] + [rel[0]] == [rel[0]];
    assert [rel[0]][1..] == [];
  }

  /** Everything expected was stored, except the manifest's directory, which comes with the manifest. */
  lemma ExpectedIsStored(tree: Listing, b: BackupFacts, cs: seq<Bytes>) returns (x: Found)
    requires Contents(tree, b).Some? && Expected(tree, b, cs).Some? && cs != [METADATA]
    ensures x in Contents(tree, b).value && x.at == cs
  {
    hide Walk, Skip, WalFiles, Lookup, Visible, Wal.RangeOk, Wal.WalNames;
    RangeIsOk(tree, b);
    var rel := cs[1..];
    var control, wal := ControlFile(tree).value, WalFiles(tree, b).value;
    if cs == [PGDATA] {
      x := ROOT;
    } else if cs == MANIFEST.at {
      x := MANIFEST;
    } else if cs == At([BACKUP_LABEL]) {
      x := Label(b);
    } else if cs == At([TABLESPACE_MAP]) && b.tablespaceMap != [] {
      x := MapFile(b)[0];
    } else if Visible([], rel) {
      WalkComplete(tree, [], rel);
      assert [] + rel == rel;
      x := FoundOf(rel, Lookup(tree, rel).value);
    } else if rel == [GLOBAL, PG_CONTROL] {
      x := control;
    } else {
      x := SegmentIsStored(tree, b, rel[1]);
    }
    assert cs == [cs[0]] + rel;
  }

  lemma SegmentIsStored(tree: Listing, b: BackupFacts, name: Bytes) returns (x: Found)
    requires WalFiles(tree, b).Some? && name in Wal.WalNames(b.startWal, b.stopWal, b.segmentSize)
    ensures x in WalFiles(tree, b).value && x.at == At([PG_WAL, name])
  {
    hide Wal.RangeOk, Wal.WalNames, Lookup;
    var names := Wal.WalNames(b.startWal, b.stopWal, b.segmentSize);
    SegmentsShape(tree, names, b.segmentSize);
    var i :| 0 <= i < |names| && names[i] == name;
    assert Segment(tree, names[i], b.segmentSize) == Some(WalFiles(tree, b).value[i]);
    x := WalFiles(tree, b).value[i];
  }

  // ---------------------------------------------------------------------------
  // The theorem
  // ---------------------------------------------------------------------------

  lemma StoredSoundly(tree: Listing, b: BackupFacts)
    requires WellFormed(tree) && Contents(tree, b).Some?
    requires forall x :: x in Contents(tree, b).value ==> |x.content| < Pow8(11)
    ensures forall i :: 0 <= i < |Contents(tree, b).value| ==> Proper(Contents(tree, b).value[i])
    ensures forall e :: e in Entries(Contents(tree, b).value) ==> Storable(e)
  {
    hide Contents, WellFormed, Sound, Storable, Proper, Pow8, ToEntry;
    var xs := Contents(tree, b).value;
    forall i | 0 <= i < |xs| ensures Proper(xs[i]) && Storable(ToEntry(xs[i])) {
      ContentsSound(tree, b, xs[i]);
      SoundIsStorable(xs[i]);
    }
  }

  /** Every path of the restored tree is an entry's path or one above it, and is expected. */
  lemma PresentIsExpected(tree: Listing, b: BackupFacts, fs: Fs, p: Bytes) returns (cs: seq<Bytes>)
    requires WellFormed(tree) && Contents(tree, b).Some?
    requires forall i :: 0 <= i < |Contents(tree, b).value| ==> Proper(Contents(tree, b).value[i])
    requires Represents(fs, Entries(Contents(tree, b).value)) && p in fs
    ensures cs != [] && AllComponents(cs) && p == Join(cs) && Expected(tree, b, cs).Some?
  {
    hide Contents, Expected, WellFormed, Join, IsAncestor, Wal.RangeOk;
    var xs := Contents(tree, b).value;
    var es := Entries(xs);
    assert Called(es, p);
    var i :| 0 <= i < |es| && (es[i].path == p || IsAncestor(p, es[i].path));
    assert es[i] == ToEntry(xs[i]) && Proper(xs[i]);
    if es[i].path == p {
      cs := xs[i].at;
      EntryIsExpected(tree, b, xs[i]);
    } else {
      AncestorIsPrefix(p, xs[i].at);
      var k :| 0 < k < |xs[i].at| && p == Join(xs[i].at[..k]);
      cs := xs[i].at[..k];
      ParentIsExpected(tree, b, xs[i], k);
    }
  }

  lemma RangeIsOk(tree: Listing, b: BackupFacts)
    requires Contents(tree, b).Some?
    ensures Wal.RangeOk(b.startWal, b.stopWal, b.segmentSize)
  {
  }

  lemma NodeIsExpected(tree: Listing, b: BackupFacts, fs: Fs, cs: seq<Bytes>)
    requires WellFormed(tree) && Contents(tree, b).Some? && cs != [] && AllComponents(cs)
    requires forall i :: 0 <= i < |Contents(tree, b).value| ==> Proper(Contents(tree, b).value[i])
    requires Represents(fs, Entries(Contents(tree, b).value)) && Expected(tree, b, cs).Some?
    ensures Join(cs) in fs && Expected(tree, b, cs) == Some(fs[Join(cs)])
  {
    hide Contents, Expected, WellFormed, Join, Wal.RangeOk, IsAncestor;
    var xs := Contents(tree, b).value;
    var es := Entries(xs);
    RangeIsOk(tree, b);
    if cs == [METADATA] {
      ManifestStored(tree, b);
      var m :| 0 <= m < |xs| && xs[m] == MANIFEST;
      AncestorIffPrefix(cs, MANIFEST.at);
      assert es[m] == ToEntry(MANIFEST);
      assert Called(es, Join(cs));
      TopIsExpected(tree, b);
      MetadataIsNoFile(tree, b, fs);
    } else {
      var x := ExpectedIsStored(tree, b, cs);
      var i :| 0 <= i < |xs| && xs[i] == x;
      assert es[i] == ToEntry(x) && Placed(fs, es[i]);
      EntryIsExpected(tree, b, x);
    }
  }

  lemma ManifestStored(tree: Listing, b: BackupFacts)
    requires Contents(tree, b).Some?
    ensures MANIFEST in Contents(tree, b).value
  {
    hide Walk, ControlFile, WalFiles;
  }

  lemma MetadataIsNoFile(tree: Listing, b: BackupFacts, fs: Fs)
    requires WellFormed(tree) && Contents(tree, b).Some?
    requires forall i :: 0 <= i < |Contents(tree, b).value| ==> Proper(Contents(tree, b).value[i])
    requires Represents(fs, Entries(Contents(tree, b).value)) && Join([METADATA]) in fs
    ensures fs[Join([METADATA])] == FsDir
  {
    hide Contents, Expected, WellFormed, Join, Wal.RangeOk, IsAncestor;
    var xs := Contents(tree, b).value;
    var es := Entries(xs);
    RangeIsOk(tree, b);
    if fs[Join([METADATA])].FsFile? {
      var i :| 0 <= i < |es| && es[i].path == Join([METADATA]) && es[i].kind == RegularFile;
      assert es[i] == ToEntry(xs[i]) && Proper(xs[i]);
      OwnNamesGood();
      JoinInjective(xs[i].at, [METADATA]);
      EntryIsExpected(tree, b, xs[i]);
      TopIsExpected(tree, b);
    }
  }

  lemma RepresentsIsExact(tree: Listing, b: BackupFacts, fs: Fs)
    requires WellFormed(tree) && Contents(tree, b).Some?
    requires forall i :: 0 <= i < |Contents(tree, b).value| ==> Proper(Contents(tree, b).value[i])
    requires Represents(fs, Entries(Contents(tree, b).value))
    ensures RestoresExactly(fs, tree, b)
  {
    hide Contents, Expected, WellFormed, Join, Represents, Wal.RangeOk;
    RangeIsOk(tree, b);
    forall cs | cs != [] && AllComponents(cs)
      ensures Join(cs) in fs <==> Expected(tree, b, cs).Some?
      ensures Join(cs) in fs ==> Expected(tree, b, cs) == Some(fs[Join(cs)])
    {
      if Join(cs) in fs {
        var ds := PresentIsExpected(tree, b, fs, Join(cs));
        JoinInjective(cs, ds);
      }
      if Expected(tree, b, cs).Some? { NodeIsExpected(tree, b, fs, cs); }
    }
    forall p | p in fs ensures IsJoin(p) {
      var ds := PresentIsExpected(tree, b, fs, p);
    }
  }

  /**
   * Backing up a data directory and restoring the archive gives back the directory: every kept
   * file with its contents, every kept directory, and nothing else. The one exception is known in
   * advance: the archive is refused exactly when a stored directory has an unreadable path length.
   */
  lemma RestoreGivesBack(tree: Listing, b: BackupFacts)
    requires WellFormed(tree) && BackupBytes(tree, b).Some?
    requires forall x :: x in Contents(tree, b).value ==> |x.content| < Pow8(11)
    ensures var r := ReadArchive(BackupBytes(tree, b).value, [], map[]);
      && (r.Some? <==> forall x :: x in Contents(tree, b).value ==> !Unreadable(ToEntry(x)))
      && (r.Some? ==> RestoresExactly(r.value, tree, b))
  {
    hide Contents, WellFormed, Storable, Proper, Pow8, Unreadable, Consistent, ReadArchive, RestoresExactly,
      Finished, Represents, ToEntry, Harmonious, EncodeAll;
    var xs := Contents(tree, b).value;
    var es := Entries(xs);
    StoredSoundly(tree, b);
    ContentsHarmonious(tree, b);
    HarmoniousIsConsistent(xs);
    ReadWhatWasWritten(es);
    assert forall i :: 0 <= i < |xs| ==> es[i] == ToEntry(xs[i]);
    RangeIsOk(tree, b);
    var r := ReadArchive(BackupBytes(tree, b).value, [], map[]);
    if r.Some? { RepresentsIsExact(tree, b, r.value); }
  }

  // ---------------------------------------------------------------------------
  // The writer
  // ---------------------------------------------------------------------------

  lemma {:induction false} EncodeAllConcat(a: seq<Entry>, b: seq<Entry>)
    ensures EncodeAll(a + b) ==
      if EncodeAll(a).Some? && EncodeAll(b).Some? then Some(EncodeAll(a).value + EncodeAll(b).value) else None
  {
    hide EncodeEntry;
    if a == [] {
      assert a + b == b;
      if EncodeAll(b).Some? { assert [] + EncodeAll(b).value == EncodeAll(b).value; }
    } else {
      EncodeAllConcat(a[1..], b);
      assert (a + b)[1..] == a[1..] + b;
      if EncodeAll(a).Some? && EncodeAll(b).Some? {
        var x, y, z := EncodeEntry(a[0]).value, EncodeAll(a[1..]).value, EncodeAll(b).value;
        assert x + (y + z) == (x + y) + z;
      }
    }
  }

  /** The bytes of a list of found entries. */
  function Written(xs: seq<Found>): Option<Bytes> { EncodeAll(Entries(xs)) }

  lemma WrittenConcat(a: seq<Found>, b: seq<Found>)
    ensures Written(a + b) ==
      if Written(a).Some? && Written(b).Some? then Some(Written(a).value + Written(b).value) else None
  {
    hide EncodeAll;
    assert Entries(a + b) == Entries(a) + Entries(b);
    EncodeAllConcat(Entries(a), Entries(b));
  }

  lemma WrittenOne(x: Found)
    ensures Written([x]) == EncodeEntry(ToEntry(x))
  {
    hide EncodeEntry;
    var es := Entries([x]);
    assert es == [ToEntry(x)] && es[1..] == [];
    assert EncodeAll(es[1..]) == Some([]);
    if EncodeEntry(es[0]).Some? { assert EncodeEntry(es[0]).value + [] == EncodeEntry(es[0]).value; }
  }

  /** What one unskipped node contributes: itself, then what lies below it. */
  function NodeWalk(node: Node, here: seq<Bytes>): Option<seq<Found>> {
    if node.Special? then None
    else
      match if node.Dir? then Walk(node.children, here) else Some([])
      case None => None
      case Some(children) => Some([FoundOf(here, node)] + children)
  }

  function Joined(a: Option<seq<Found>>, b: Option<seq<Found>>): Option<seq<Found>> {
    if a.Some? && b.Some? then Some(a.value + b.value) else None
  }

  /** The bytes a list of entries comes to, when there is one and it can be written. */
  function WrittenAll(xs: Option<seq<Found>>): Option<Bytes> {
    if xs.None? then None else Written(xs.value)
  }

  lemma WrittenJoined(a: Option<seq<Found>>, b: Option<seq<Found>>)
    ensures WrittenAll(Joined(a, b)) ==
      if WrittenAll(a).Some? && WrittenAll(b).Some? then Some(WrittenAll(a).value + WrittenAll(b).value) else None
  {
    hide Written;
    if a.Some? && b.Some? { WrittenConcat(a.value, b.value); }
  }

  /** Every child in order; a skipped one costs nothing, a special node fails the backup. */
  method AppendChildren(archive: ArchiveBuffer, l: Listing, base: seq<Bytes>) returns (ok: bool)
    modifies archive
    ensures ok <==> WrittenAll(Walk(l, base)).Some?
    ensures ok ==> archive.data == old(archive.data) + WrittenAll(Walk(l, base)).value
    decreases l, 0
  {
    hide Skip, Written, NodeWalk, WrittenAll;
    match l
    case End =>
      WrittenNothing();
      ok := true;
    case Item(n, node, rest) =>
      if Skip(base + [n]) {
        ok := AppendChildren(archive, rest, base);
      } else {
        WalkItem(l, base);
        WrittenJoined(NodeWalk(node, base + [n]), Walk(rest, base));
        ok := AppendNode(archive, node, base + [n]);
        if ok {
          ok := AppendChildren(archive, rest, base);
        }
      }
  }

  lemma WrittenNothing()
    ensures WrittenAll(Some([])) == Some([])
  {
    assert Entries([]) == [];
  }

  lemma WalkItem(l: Listing, base: seq<Bytes>)
    requires l.Item? && !Skip(base + [l.name])
    ensures Walk(l, base) == Joined(NodeWalk(l.node, base + [l.name]), Walk(l.rest, base))
  {
    hide Skip;
  }

  /** A directory's entry comes before its children; a file is its own entry. */
  method AppendNode(archive: ArchiveBuffer, node: Node, here: seq<Bytes>) returns (ok: bool)
    modifies archive
    ensures ok <==> WrittenAll(NodeWalk(node, here)).Some?
    ensures ok ==> archive.data == old(archive.data) + WrittenAll(NodeWalk(node, here)).value
    decreases node, 1
  {
    hide Skip, Written, Walk, FoundOf;
    if node.Special? {
      return false;
    }
    ok := AppendFound(archive, FoundOf(here, node));
    if node.Dir? {
      WrittenJoined(Some([FoundOf(here, node)]), Walk(node.children, here));
      if ok {
        ok := AppendChildren(archive, node.children, here);
      }
    } else {
      assert [FoundOf(here, node)] + [] == [FoundOf(here, node)];
    }
  }

  method AppendFound(archive: ArchiveBuffer, x: Found) returns (ok: bool)
    modifies archive
    ensures ok <==> Written([x]).Some?
    ensures ok ==> archive.data == old(archive.data) + Written([x]).value
  {
    hide EncodeEntry, EncodeAll;
    WrittenOne(x);
    ok := archive.AppendEntry(ToEntry(x));
  }

  /** The visitor of the WAL range: each segment is appended, the first bad one ends the visit. */
  method AppendSegments(archive: ArchiveBuffer, tree: Listing, names: seq<Bytes>, size: nat) returns (ok: bool)
    modifies archive
    ensures ok <==> WrittenAll(Segments(tree, names, size)).Some?
    ensures ok ==> archive.data == old(archive.data) + WrittenAll(Segments(tree, names, size)).value
  {
    hide Written, WrittenAll, Segment;
    ghost var whole, done := WrittenAll(Segments(tree, names, size)), [];
    var i := 0;
    assert names[0..] == names;
    PrependNothing(whole);
    while i < |names|
      invariant 0 <= i <= |names|
      invariant archive.data == old(archive.data) + done
      invariant whole == Prepend(done, WrittenAll(Segments(tree, names[i..], size)))
    {
      var segment := Segment(tree, names[i], size);
      ghost var rest := Segments(tree, names[i + 1..], size);
      assert names[i..][0] == names[i] && names[i..][1..] == names[i + 1..];
      if segment.None? {
        WrittenNone();
        return false;
      }
      assert Segments(tree, names[i..], size) == Joined(Some([segment.value]), rest);
      WrittenJoined(Some([segment.value]), rest);
      WrittenSome([segment.value]);
      ok := AppendFound(archive, segment.value);
      if !ok {
        return;
      }
      PrependMore(done, Written([segment.value]).value, WrittenAll(rest));
      done := done + Written([segment.value]).value;
      i := i + 1;
    }
    assert names[i..] == [];
    WrittenNothing();
    ok := true;
  }

  ghost function Prepend(done: Bytes, rest: Option<Bytes>): Option<Bytes> {
    if rest.Some? then Some(done + rest.value) else None
  }

  lemma WrittenNone()
    ensures WrittenAll(None).None?
  {
  }

  lemma WrittenSome(xs: seq<Found>)
    ensures WrittenAll(Some(xs)) == Written(xs)
  {
  }

  lemma PrependNothing(rest: Option<Bytes>)
    ensures Prepend([], rest) == rest
  {
    if rest.Some? { assert [] + rest.value == rest.value; }
  }

  lemma PrependMore(done: Bytes, more: Bytes, rest: Option<Bytes>)
    ensures Prepend(done + more, rest) == Prepend(done, Prepend(more, rest))
  {
    if rest.Some? { assert done + more + rest.value == done + (more + rest.value); }
  }

  method AppendWalRange(archive: ArchiveBuffer, tree: Listing, b: BackupFacts) returns (ok: bool)
    modifies archive
    ensures ok <==> WrittenAll(WalFiles(tree, b)).Some?
    ensures ok ==> archive.data == old(archive.data) + WrittenAll(WalFiles(tree, b)).value
  {
    hide Written, WrittenAll, Segments, Wal.RangeOk, Wal.WalNames, Lookup;
    WrittenNone();
    var directory := Lookup(tree, [PG_WAL]);
    if directory.None? || !directory.value.Dir? {
      return false;
    }
    var names := Wal.VisitWalRange(b.startWal, b.stopWal, b.segmentSize);
    if names.None? {
      return false;
    }
    ok := AppendSegments(archive, tree, names.value, b.segmentSize);
  }

  method AppendPgControl(archive: ArchiveBuffer, tree: Listing) returns (ok: bool)
    modifies archive
    ensures ok <==> ControlFile(tree).Some? && Written([ControlFile(tree).value]).Some?
    ensures ok ==> archive.data == old(archive.data) + Written([ControlFile(tree).value]).value
  {
    hide Written, Lookup;
    var control := ControlFile(tree);
    if control.None? {
      return false;
    }
    ok := AppendFound(archive, control.value);
  }

  method AppendBackupFiles(archive: ArchiveBuffer, b: BackupFacts) returns (ok: bool)
    modifies archive
    ensures ok <==> Written(ClosingFiles(b)).Some?
    ensures ok ==> archive.data == old(archive.data) + Written(ClosingFiles(b)).value
  {
    hide Written, Label, WrittenAll;
    WrittenConcat([Label(b)], MapFile(b));
    WrittenConcat([Label(b)] + MapFile(b), [MANIFEST]);
    WrittenNothing();
    WrittenSome([]);
    ok := AppendFound(archive, Label(b));
    if ok && b.tablespaceMap != [] {
      ok := AppendFound(archive, MapFile(b)[0]);
    }
    if ok {
      ok := AppendFound(archive, MANIFEST);
    }
  }

  function ClosingFiles(b: BackupFacts): seq<Found> { [Label(b)] + MapFile(b) + [MANIFEST] }

  /** What is stored while PostgreSQL is in backup mode. */
  function DataPart(tree: Listing): Option<Bytes> {
    var root, found, control := Written([ROOT]), WrittenAll(Walk(tree, [])), ControlFile(tree);
    if root.Some? && found.Some? && control.Some? && Written([control.value]).Some?
    then Some(root.value + found.value + Written([control.value]).value)
    else None
  }

  /** What is stored once it has left backup mode. */
  function ClosingPart(tree: Listing, b: BackupFacts): Option<Bytes> {
    var wal, closing := WrittenAll(WalFiles(tree, b)), Written(ClosingFiles(b));
    if wal.Some? && closing.Some? then Some(wal.value + closing.value) else None
  }

  lemma BackupParts(tree: Listing, b: BackupFacts)
    ensures BackupBytes(tree, b) ==
      if DataPart(tree).Some? && ClosingPart(tree, b).Some?
      then Some(Finished(DataPart(tree).value + ClosingPart(tree, b).value))
      else None
  {
    hide Entries, EncodeAll, Finished, Walk, ControlFile, WalFiles, Label, MapFile;
    var found, control, wal := Walk(tree, []), ControlFile(tree), WalFiles(tree, b);
    if found.Some? && control.Some? && wal.Some? {
      var closing := ClosingFiles(b);
      WrittenConcat([ROOT], found.value);
      WrittenConcat([ROOT] + found.value, [control.value]);
      WrittenConcat(wal.value, closing);
      WrittenConcat([ROOT] + found.value + [control.value], wal.value + closing);
      assert Contents(tree, b).value == [ROOT] + found.value + [control.value] + (wal.value + closing);
    }
  }

  method AppendDataFiles(archive: ArchiveBuffer, tree: Listing) returns (ok: bool)
    modifies archive
    ensures ok <==> DataPart(tree).Some?
    ensures ok ==> archive.data == old(archive.data) + DataPart(tree).value
  {
    hide Written, WrittenAll, Walk, ControlFile;
    ok := AppendFound(archive, ROOT);
    if ok { ok := AppendChildren(archive, tree, []); }
    if ok { ok := AppendPgControl(archive, tree); }
  }

  method AppendClosingFiles(archive: ArchiveBuffer, tree: Listing, b: BackupFacts) returns (ok: bool)
    modifies archive
    ensures ok <==> ClosingPart(tree, b).Some?
    ensures ok ==> archive.data == Finished(old(archive.data) + ClosingPart(tree, b).value)
  {
    hide Written, WrittenAll, WalFiles, ClosingFiles, Finished;
    ok := AppendWalRange(archive, tree, b);
    if ok { ok := AppendBackupFiles(archive, b); }
    if ok {
      assert archive.data == old(archive.data) + ClosingPart(tree, b).value;
      archive.Finish();
    }
  }

  /** End to end, whatever fragments the restore is handed: the outcome is the one `RestoreGivesBack` describes. */
  method RestoreBackup(tree: Listing, b: BackupFacts, source: ArchiveSource) returns (r: Option<Fs>)
    requires WellFormed(tree) && BackupBytes(tree, b) == Some(source.data) && source.Valid() && source.pos == 0
    requires source.reliable
    requires forall x :: x in Contents(tree, b).value ==> |x.content| < Pow8(11)
    modifies source
    ensures r.Some? <==> forall x :: x in Contents(tree, b).value ==> !Unreadable(ToEntry(x))
    ensures r.Some? ==> Wal.RangeOk(b.startWal, b.stopWal, b.segmentSize) && RestoresExactly(r.value, tree, b)
  {
    hide Contents, WellFormed, ReadArchive, RestoresExactly, Unreadable, ToEntry, Pow8, EncodeAll, Wal.RangeOk;
    RestoreGivesBack(tree, b);
    RangeIsOk(tree, b);
    r := ProcessPhysicalArchive(source);
  }
}
