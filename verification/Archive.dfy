/**
 * The physical archive as bytes: the writer appends one padded entry after another,
 * the reader takes them back from a source that hands over fragments of any size.
 */
module Archive {
  import opened Prelude
  import opened TarOctal
  import opened TarHeader
  import opened ArchivePath
  import opened ArchiveCheck

  // "postmaster.pid" and "postmaster.opts"
  const POSTMASTER_PID: Bytes := [112, 111, 115, 116, 109, 97, 115, 116, 101, 114, 46, 112, 105, 100]
  const POSTMASTER_OPTS: Bytes := [112, 111, 115, 116, 109, 97, 115, 116, 101, 114, 46, 111, 112, 116, 115]

  // ---------------------------------------------------------------------------
  // The restore staging directory
  // ---------------------------------------------------------------------------

  datatype FsNode = FsDir | FsFile(content: Bytes)

  /** Paths below the staging root; the root itself always exists. */
  type Fs = map<Bytes, FsNode>

  function Prefixes(path: Bytes): set<Bytes> {
    set i | 0 <= i < |path| && path[i] == SLASH :: path[..i]
  }

  lemma PrefixesAreAncestors(path: Bytes)
    ensures forall a :: a in Prefixes(path) <==> IsAncestor(a, path)
  {
    forall a | IsAncestor(a, path) ensures a in Prefixes(path) { assert a == path[..|a|]; }
  }

  /** mkdir -p over the given prefixes: fails on a file in the way, keeps what exists. */
  function MakeDirs(fs: Fs, dirs: set<Bytes>): Option<Fs> {
    if exists p :: p in dirs && p in fs && fs[p].FsFile? then None
    else Some(map p | p in fs.Keys + dirs :: if p in fs then fs[p] else FsDir)
  }

  /** Directories are made with their parents; files are created exclusively below theirs. */
  function WriteEntry(fs: Fs, e: Entry): Option<Fs> {
    if e.kind == Directory then MakeDirs(fs, Prefixes(e.path) + {e.path})
    else
      match MakeDirs(fs, Prefixes(e.path))
      case None => None
      case Some(parents) => if e.path in parents then None else Some(parents[e.path := FsFile(e.content)])
  }

  /** `fs` is exactly the tree the entries call for: they and their ancestors, with the files' contents. */
  ghost predicate Represents(fs: Fs, es: seq<Entry>) {
    && (forall p :: p in fs <==> Called(es, p))
    && (forall i :: 0 <= i < |es| ==> Placed(fs, es[i]))
    && (forall p :: p in fs && fs[p].FsFile? ==> StoredAsFile(es, p))
  }

  predicate Placed(fs: Fs, e: Entry) {
    e.path in fs && fs[e.path] == if e.kind == Directory then FsDir else FsFile(e.content)
  }

  ghost predicate Called(es: seq<Entry>, p: Bytes) {
    exists i :: 0 <= i < |es| && (es[i].path == p || IsAncestor(p, es[i].path))
  }

  ghost predicate StoredAsFile(es: seq<Entry>, p: Bytes) {
    exists i :: 0 <= i < |es| && es[i].path == p && es[i].kind == RegularFile
  }

  lemma CalledSnoc(es: seq<Entry>, e: Entry, p: Bytes)
    ensures Called(es + [e], p) <==> Called(es, p) || e.path == p || IsAncestor(p, e.path)
  {
    var all := es + [e];
    assert all[|es|] == e;
    assert forall i :: 0 <= i < |es| ==> all[i] == es[i];
    if Called(es, p) {
      var i :| 0 <= i < |es| && (es[i].path == p || IsAncestor(p, es[i].path));
      assert all[i].path == p || IsAncestor(p, all[i].path);
    }
  }

  lemma StoredSnoc(es: seq<Entry>, e: Entry, p: Bytes)
    ensures StoredAsFile(es, p) ==> StoredAsFile(es + [e], p)
    ensures e.kind == RegularFile ==> StoredAsFile(es + [e], e.path)
  {
    var all := es + [e];
    assert all[|es|] == e;
    if StoredAsFile(es, p) {
      var i :| 0 <= i < |es| && es[i].path == p && es[i].kind == RegularFile;
      assert all[i] == es[i];
    }
  }

  /** A node in the way of an entry betrays a clash with an earlier one. */
  lemma ObstacleIsClash(fs: Fs, es: seq<Entry>, e: Entry, p: Bytes)
    requires Represents(fs, es) && p in fs && (p == e.path || IsAncestor(p, e.path))
    requires fs[p].FsFile? || (p == e.path && e.kind == RegularFile)
    ensures !Consistent(es + [e])
  {
    ConsistentSnoc(es, e);
    if fs[p].FsFile? {
      var i :| 0 <= i < |es| && es[i].path == p && es[i].kind == RegularFile;
      assert Clash(es[i], e);
    } else {
      assert Called(es, p);
      var i :| 0 <= i < |es| && (es[i].path == p || IsAncestor(p, es[i].path));
      assert Clash(es[i], e);
    }
  }

  /** Nothing the tree holds is in the way of a consistent next entry. */
  lemma NothingInTheWay(fs: Fs, es: seq<Entry>, e: Entry)
    requires Represents(fs, es) && Consistent(es + [e])
    ensures forall p :: p in fs && (p == e.path || IsAncestor(p, e.path)) ==> fs[p] == FsDir
    ensures e.kind == RegularFile ==> e.path !in fs
  {
    hide Consistent, Represents;
    forall p | p in fs && (p == e.path || IsAncestor(p, e.path)) ensures fs[p] == FsDir {
      if fs[p] != FsDir { ObstacleIsClash(fs, es, e, p); }
    }
    if e.kind == RegularFile && e.path in fs { ObstacleIsClash(fs, es, e, e.path); }
  }

  /** What a successful write leaves: the new path, its ancestors, and everything that was there. */
  lemma WriteEntryResult(fs: Fs, e: Entry)
    requires forall p :: p in fs && (p == e.path || IsAncestor(p, e.path)) ==> fs[p] == FsDir
    requires e.kind == RegularFile ==> e.path !in fs
    ensures WriteEntry(fs, e).Some?
    ensures var next := WriteEntry(fs, e).value;
      && (forall p :: p in next <==> p in fs || p == e.path || IsAncestor(p, e.path))
      && Placed(next, e)
      && (forall p :: p in next && p != e.path ==> next[p] == if p in fs then fs[p] else FsDir)
      && (forall p :: p in fs && p in next && e.kind == Directory ==> next[p] == fs[p])
  {
    PrefixesAreAncestors(e.path);
  }

  /** A consistent next entry always finds its place, and the tree stays exact. */
  lemma WriteEntryRepresents(fs: Fs, es: seq<Entry>, e: Entry)
    requires Represents(fs, es) && Consistent(es + [e])
    ensures WriteEntry(fs, e).Some? && Represents(WriteEntry(fs, e).value, es + [e])
  {
    NothingInTheWay(fs, es, e);
    WriteEntryResult(fs, e);
    ConsistentSnoc(es, e);
    var next, all := WriteEntry(fs, e).value, es + [e];
    forall p ensures p in next <==> Called(all, p) { CalledSnoc(es, e, p); }
    forall i | 0 <= i < |all| ensures Placed(next, all[i]) {
      if i < |es| { assert all[i] == es[i] && Placed(fs, es[i]) && !Clash(es[i], e); }
    }
    forall p | p in next && next[p].FsFile? ensures StoredAsFile(all, p) { StoredSnoc(es, e, p); }
  }

  lemma SameFile(a: Fs, b: Fs, es: seq<Entry>, p: Bytes)
    requires Represents(a, es) && Represents(b, es) && p in a && a[p].FsFile?
    ensures p in b && b[p] == a[p]
  {
    var i :| 0 <= i < |es| && es[i].path == p && es[i].kind == RegularFile;
    assert Placed(a, es[i]) && Placed(b, es[i]);
  }

  lemma RepresentsUnique(a: Fs, b: Fs, es: seq<Entry>)
    requires Represents(a, es) && Represents(b, es)
    ensures a == b
  {
    forall p | p in a ensures p in b && a[p] == b[p] {
      assert Called(es, p);
      if a[p].FsFile? {
        SameFile(a, b, es, p);
      } else if b[p].FsFile? {
        SameFile(b, a, es, p);
      }
    }
    forall p | p in b ensures p in a { assert Called(es, p); }
    assert a.Keys == b.Keys;
  }

  // ---------------------------------------------------------------------------
  // What the reader accepts
  // ---------------------------------------------------------------------------

  function Padded(size: nat): (n: nat)
    ensures size <= n < size + 512
  {
    (size + 511) / 512 * 512
  }

  predicate ProcessState(path: Bytes) {
    path == PGDATA + [SLASH] + POSTMASTER_PID || path == PGDATA + [SLASH] + POSTMASTER_OPTS
  }

  /** After the first zero block: at least one more, whole blocks only, all zero. */
  predicate TrailerOk(data: Bytes) {
    |data| >= 512 && |data| % 512 == 0 && AllNul(data)
  }

  /** The entry a header block announces, once its path is canonical and allowed. */
  function Announced(block: Bytes): Option<Parsed>
    requires |block| == 512
  {
    match ParseHeader(block)
    case None => None
    case Some(p) =>
      match Canonical(p.path)
      case None => None
      case Some(path) => if ProcessState(path) then None else Some(Parsed(path, p.kind, p.size))
  }

  /** What stands at the front of the remaining bytes. */
  datatype Next = Refuse | Finish | Take(entry: Entry, used: nat)

  /** The announced contents and their padding must follow the header. */
  function Body(p: Parsed, rest: Bytes): (n: Next)
    ensures n.Take? ==> 512 <= n.used <= 512 + |rest|
  {
    if |rest| < Padded(p.size) then Refuse
    else Take(Entry(p.path, p.kind, rest[..p.size]), 512 + Padded(p.size))
  }

  function NextEntry(data: Bytes): (n: Next)
    ensures n.Take? ==> 512 <= n.used <= |data|
  {
    if |data| < 512 then Refuse
    else if AllNul(data[..512]) then (if TrailerOk(data[512..]) then Finish else Refuse)
    else
      match Announced(data[..512])
      case None => Refuse
      case Some(p) => Body(p, data[512..])
  }

  /**
   * The restored tree of a complete archive, or None when it is refused. `done` are the entries
   * before `data`, `fs` the tree they left.
   */
  ghost function ReadArchive(data: Bytes, done: seq<Entry>, fs: Fs): Option<Fs>
    decreases |data|
  {
    match NextEntry(data)
    case Refuse => None
    case Finish => Some(fs)
    case Take(e, used) =>
      if !Consistent(done + [e]) || WriteEntry(fs, e).None? then None
      else ReadArchive(data[used..], done + [e], WriteEntry(fs, e).value)
  }

  /** The callback a restore reads from. Each call may hand over any non-empty part of what is asked for. */
  class ArchiveSource {
    const data: Bytes
    const reliable: bool
    var pos: nat

    ghost predicate Valid()
      reads this
    {
      pos <= |data|
    }

    constructor (data: Bytes, reliable: bool)
      ensures Valid() && pos == 0 && this.data == data && this.reliable == reliable
    {
      this.data, this.reliable, this.pos := data, reliable, 0;
    }

    method Read(capacity: nat) returns (ok: bool, chunk: Bytes)
      requires Valid()
      modifies this
      ensures Valid() && old(pos) <= pos && chunk == data[old(pos)..pos] && |chunk| <= capacity
      ensures reliable ==> ok
      ensures chunk == [] <==> capacity == 0 || old(pos) == |data|
    {
      ok := true;
      if !reliable {
        ok :| true;
      }
      if capacity == 0 || pos == |data| {
        return ok, [];
      }
      var n :| 1 <= n <= capacity && n <= |data| - pos;
      chunk := data[pos..pos + n];
      pos := pos + n;
    }
  }

  datatype ReadResult = Full(bytes: Bytes) | EndOfInput | Failed

  /** Gathers exactly `len` bytes however they are cut. */
  method ReadExact(source: ArchiveSource, len: nat) returns (r: ReadResult)
    requires source.Valid()
    modifies source
    ensures source.Valid()
    ensures r.Full? ==> source.pos == old(source.pos) + len && r.bytes == source.data[old(source.pos)..source.pos]
    ensures r.EndOfInput? ==> len > 0 && old(source.pos) == |source.data|
    ensures r.Failed? ==> !source.reliable || old(source.pos) < |source.data| < old(source.pos) + len
  {
    var bytes: Bytes := [];
    ghost var start := source.pos;
    while |bytes| < len
      invariant source.Valid() && |bytes| <= len
      invariant source.pos == start + |bytes| && bytes == source.data[start..source.pos]
      decreases len - |bytes|
    {
      var ok, chunk := source.Read(len - |bytes|);
      if !ok {
        return Failed;
      }
      if chunk == [] {
        return if bytes == [] then EndOfInput else Failed;
      }
      bytes := bytes + chunk;
    }
    r := Full(bytes);
  }

  /** File contents arrive in buffers of 64 KiB. */
  method ReadContent(source: ArchiveSource, len: nat) returns (r: Option<Bytes>)
    requires source.Valid()
    modifies source
    ensures source.Valid()
    ensures r.Some? ==> source.pos == old(source.pos) + len && r.value == source.data[old(source.pos)..source.pos]
    ensures r.None? ==> !source.reliable || |source.data| < old(source.pos) + len
  {
    var content: Bytes := [];
    ghost var start := source.pos;
    while |content| < len
      invariant source.Valid() && |content| <= len
      invariant source.pos == start + |content| && content == source.data[start..source.pos]
      decreases len - |content|
    {
      var take := Min(len - |content|, 65536);
      var part := ReadExact(source, take);
      if !part.Full? {
        return None;
      }
      content := content + part.bytes;
    }
    r := Some(content);
  }

  method BlockIsZero(block: Bytes) returns (zero: bool)
    ensures zero == AllNul(block)
  {
    for i := 0 to |block|
      invariant forall k :: 0 <= k < i ==> block[k] == NUL
    {
      if block[i] != NUL {
        return false;
      }
    }
    zero := true;
  }

  lemma TrailerStep(data: Bytes)
    requires |data| > 512
    ensures TrailerOk(data) <==> AllNul(data[..512]) && TrailerOk(data[512..])
  {
    assert data == data[..512] + data[512..];
    assert forall i :: 512 <= i < |data| ==> data[i] == data[512..][i - 512];
  }

  method ReadTrailer(source: ArchiveSource) returns (ok: bool)
    requires source.Valid()
    modifies source
    ensures source.Valid()
    ensures ok ==> TrailerOk(source.data[old(source.pos)..])
    ensures !ok ==> !source.reliable || !TrailerOk(source.data[old(source.pos)..])
  {
    ghost var start := source.pos;
    var block := ReadExact(source, 512);
    if !block.Full? {
      return false;
    }
    while true
      invariant source.Valid() && source.pos >= start + 512 && block.Full?
      invariant block.bytes == source.data[source.pos - 512..source.pos]
      invariant TrailerOk(source.data[start..]) <==> TrailerOk(source.data[source.pos - 512..])
      decreases |source.data| - source.pos
    {
      ghost var rest := source.data[source.pos - 512..];
      assert block.bytes == rest[..512] && rest[512..] == source.data[source.pos..];
      var zero := BlockIsZero(block.bytes);
      if !zero {
        assert exists i :: 0 <= i < 512 && rest[..512][i] == rest[i] != NUL;
        return false;
      }
      if source.pos < |source.data| { TrailerStep(rest); } else { assert rest == block.bytes; }
      block := ReadExact(source, 512);
      if block.EndOfInput? {
        return true;
      }
      if block.Failed? {
        return false;
      }
    }
  }

  /** The announced entry of a block, by the reader's own loops. */
  method ReadAnnounced(block: Bytes) returns (r: Option<Parsed>)
    requires |block| == 512
    ensures r == Announced(block)
  {
    var parsed := ReadHeader(block);
    if parsed.None? {
      return None;
    }
    var canonical := CanonicalRelativePath(parsed.value.path);
    if canonical.None? || ProcessState(canonical.value) {
      return None;
    }
    r := Some(Parsed(canonical.value, parsed.value.kind, parsed.value.size));
  }

  method ReadBody(source: ArchiveSource, p: Parsed) returns (n: Next)
    requires source.Valid()
    modifies source
    ensures source.Valid()
    ensures n.Refuse? ==> !source.reliable || Body(p, source.data[old(source.pos)..]).Refuse?
    ensures !n.Refuse? ==> n == Body(p, source.data[old(source.pos)..]) && source.pos == old(source.pos) + n.used - 512
  {
    ghost var rest := source.data[source.pos..];
    var content := ReadContent(source, p.size);
    if content.None? {
      return Refuse;
    }
    assert content.value == rest[..p.size];
    var padding := ReadExact(source, Padded(p.size) - p.size);
    if !padding.Full? {
      return Refuse;
    }
    n := Take(Entry(p.path, p.kind, content.value), 512 + Padded(p.size));
  }

  /** One header and its contents, padding included, or the end of the archive. */
  method ReadNext(source: ArchiveSource) returns (n: Next)
    requires source.Valid()
    modifies source
    ensures source.Valid()
    ensures n.Refuse? ==> !source.reliable || NextEntry(source.data[old(source.pos)..]).Refuse?
    ensures !n.Refuse? ==> n == NextEntry(source.data[old(source.pos)..])
    ensures n.Take? ==> source.pos == old(source.pos) + n.used
  {
    ghost var rest := source.data[source.pos..];
    var block := ReadExact(source, 512);
    if !block.Full? {
      return Refuse;
    }
    assert block.bytes == rest[..512];
    assert source.data[source.pos..] == rest[512..];
    var zero := BlockIsZero(block.bytes);
    if zero {
      var ok := ReadTrailer(source);
      return if ok then Finish else Refuse;
    }
    var announced := ReadAnnounced(block.bytes);
    if announced.None? {
      return Refuse;
    }
    n := ReadBody(source, announced.value);
  }

  /** The restore loop: for every way the source fragments its bytes the outcome is that of the bytes. */
  method ProcessPhysicalArchive(source: ArchiveSource) returns (r: Option<Fs>)
    requires source.Valid() && source.pos == 0
    modifies source
    ensures r.Some? ==> r == ReadArchive(source.data, [], map[])
    ensures r.None? ==> !source.reliable || ReadArchive(source.data, [], map[]).None?
  {
    var tracker := new PathTracker();
    var fs: Fs := map[];
    assert source.data[0..] == source.data;
    while true
      invariant source.Valid() && tracker.Valid() && fresh(tracker)
      invariant ReadArchive(source.data, [], map[]) == ReadArchive(source.data[source.pos..], tracker.entries, fs)
      decreases |source.data| - source.pos
    {
      ghost var rest := source.data[source.pos..];
      var next := ReadNext(source);
      if next.Refuse? {
        return None;
      }
      if next.Finish? {
        return Some(fs);
      }
      var admitted := tracker.Admit(next.entry);
      if !admitted {
        return None;
      }
      var written := WriteEntry(fs, next.entry);
      if written.None? {
        return None;
      }
      fs := written.value;
      assert source.data[source.pos..] == rest[next.used..];
    }
  }
}
