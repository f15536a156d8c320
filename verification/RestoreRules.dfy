/**
 * What a restore accepts, over all byte strings: an archive is a row of records, each a header block followed by its
 * padded contents, closed by zero blocks. The rules are stated on the bytes, not through the functions that read them.
 */
module RestoreRules {
  import opened Prelude
  import opened TarHeader
  import opened TarReader
  import opened ArchivePath
  import opened ArchiveCheck
  import opened Archive

  // ---------------------------------------------------------------------------
  // Paths
  // ---------------------------------------------------------------------------

  predicate AllSlashes(p: Bytes) { forall i :: 0 <= i < |p| ==> p[i] == 47 }

  /** `p` is these components, with slashes between and perhaps around them. */
  ghost predicate Spells(p: Bytes, cs: seq<Bytes>)
    decreases |cs|
  {
    if cs == [] then AllSlashes(p)
    else exists k: nat :: SpellsAt(p, cs, k)
  }

  ghost predicate SpellsAt(p: Bytes, cs: seq<Bytes>, k: nat)
    requires cs != []
    decreases |cs|, 0
  {
    && k + |cs[0]| <= |p| && AllSlashes(p[..k]) && p[k..k + |cs[0]|] == cs[0]
    && var rest := p[k + |cs[0]|..]; (rest == [] || rest[0] == 47) && Spells(rest, cs[1..])
  }

  /** The components that are not a single dot. */
  function WithoutDots(cs: seq<Bytes>): seq<Bytes> {
    if cs == [] then [] else (if cs[0] == [46] then [] else [cs[0]]) + WithoutDots(cs[1..])
  }

  /** A stored path and where it goes: relative, no dot-dot, and inside the data directory or the manifest itself. */
  ghost predicate Leads(p: Bytes, q: Bytes) {
    exists cs :: SpellsSafely(p, cs) && q == Join(WithoutDots(cs))
  }

  ghost predicate SpellsSafely(p: Bytes, cs: seq<Bytes>) {
    && p != [] && p[0] != 47 && Spells(p, cs)
    && (forall i :: 0 <= i < |cs| ==> cs[i] != [] && 47 !in cs[i] && cs[i] != [46, 46])
    && var ks := WithoutDots(cs);
       && ks != []
       && (ks[0] == Ascii("pgdata") || ks == [Ascii(".oliphaunt"), Ascii("backup-manifest.properties")])
  }

  lemma {:induction false} SpelledComponents(p: Bytes)
    ensures Spells(p, Components(p))
    decreases |p|
  {
    if p != [] {
      if p[0] == SLASH {
        SpelledComponents(p[1..]);
        OneMoreSlash(p, Components(p[1..]));
      } else {
        var n := RunLength(p);
        SpelledComponents(p[n..]);
        var cs := Components(p);
        assert cs[0] == p[..n] && cs[1..] == Components(p[n..]);
        assert p[0..0 + n] == p[..n];
        assert SpellsAt(p, cs, 0);
      }
    }
  }

  lemma OneMoreSlash(p: Bytes, cs: seq<Bytes>)
    requires p != [] && p[0] == 47 && Spells(p[1..], cs)
    ensures Spells(p, cs)
  {
    var q := p[1..];
    assert p == [47] + q;
    if cs == [] {
      SlashBefore(q);
    } else {
      var k: nat :| SpellsAt(q, cs, k);
      SlashBefore(q[..k]);
      assert p[..k + 1] == [47] + q[..k];
      assert p[k + 1..k + 1 + |cs[0]|] == q[k..k + |cs[0]|] && p[k + 1 + |cs[0]|..] == q[k + |cs[0]|..];
      assert SpellsAt(p, cs, k + 1);
    }
  }

  lemma SlashBefore(q: Bytes)
    requires AllSlashes(q)
    ensures AllSlashes([47] + q)
  {
  }

  lemma {:induction false} ComponentsSpelled(p: Bytes, cs: seq<Bytes>)
    requires AllComponents(cs) && Spells(p, cs)
    ensures Components(p) == cs
    decreases |cs|
  {
    if cs == [] {
      SlashesOnly(p);
    } else {
      var k: nat :| SpellsAt(p, cs, k);
      var rest := p[k + |cs[0]|..];
      ComponentsSpelled(rest, cs[1..]);
      assert p == p[..k] + (cs[0] + rest);
      ComponentThenRest(cs[0], rest);
      SlashesBefore(p[..k], cs[0] + rest);
      assert cs == [cs[0]] + cs[1..];
    }
  }

  lemma {:induction false} SlashesOnly(p: Bytes)
    requires AllSlashes(p)
    ensures Components(p) == []
  {
    if p != [] { SlashesOnly(p[1..]); }
  }

  lemma {:induction false} SlashesBefore(s: Bytes, rest: Bytes)
    requires AllSlashes(s)
    ensures Components(s + rest) == Components(rest)
  {
    if s == [] {
      assert s + rest == rest;
    } else {
      assert (s + rest)[1..] == s[1..] + rest;
      SlashesBefore(s[1..], rest);
    }
  }

  lemma {:induction false} KeptIsWithoutDots(cs: seq<Bytes>)
    ensures Kept(cs) == WithoutDots(cs)
  {
    if cs != [] {
      KeptIsWithoutDots(cs[1..]);
      assert cs == [cs[0]] + cs[1..];
      KeptAppend([cs[0]], cs[1..]);
      assert [cs[0]][..0] == [];
    }
  }

  lemma {:induction false} DotDotKept(cs: seq<Bytes>)
    ensures [46, 46] in WithoutDots(cs) <==> [46, 46] in cs
  {
    if cs != [] {
      DotDotKept(cs[1..]);
      assert cs == [cs[0]] + cs[1..];
    }
  }

  lemma ArchiveNames()
    ensures PGDATA == Ascii("pgdata") && METADATA == Ascii(".oliphaunt")
    ensures MANIFEST_NAME == Ascii("backup-manifest.properties")
  {
  }

  lemma ProcessNames()
    ensures POSTMASTER_PID == Ascii("postmaster.pid") && POSTMASTER_OPTS == Ascii("postmaster.opts")
  {
  }

  lemma CanonicalIff(p: Bytes, q: Bytes)
    ensures Canonical(p) == Some(q) <==> Leads(p, q)
  {
    ArchiveNames();
    hide Components, Kept, WithoutDots, Join, Ascii, Spells;
    var cs := Components(p);
    SpelledComponents(p);
    KeptIsWithoutDots(cs);
    DotDotKept(cs);
    if Canonical(p) == Some(q) {
      assert forall i :: 0 <= i < |cs| ==> cs[i] in cs;
      assert SpellsSafely(p, cs);
    }
    if Leads(p, q) {
      var ds :| SpellsSafely(p, ds) && q == Join(WithoutDots(ds));
      ComponentsSpelled(p, ds);
    }
  }

  // ---------------------------------------------------------------------------
  // Records
  // ---------------------------------------------------------------------------

  /** The process files that must not be restored. */
  predicate Forbidden(path: Bytes) {
    || path == Ascii("pgdata") + [47] + Ascii("postmaster.pid")
    || path == Ascii("pgdata") + [47] + Ascii("postmaster.opts")
  }

  /** One record: a header block that announces the entry, its contents, and padding to whole blocks. */
  ghost predicate IsRecord(rec: Bytes, e: Entry) {
    && |rec| >= 512 + |e.content| && |rec| % 512 == 0 && |rec| < 512 + |e.content| + 512
    && rec[512..512 + |e.content|] == e.content
    && (exists name, prefix :: StoredAt(rec[..512], name, prefix, e)) && !Forbidden(e.path)
  }

  ghost predicate StoredAt(block: Bytes, name: Bytes, prefix: Bytes, e: Entry)
    requires |block| == 512
  {
    && Announces(block, name, prefix, e.kind == Directory, |e.content|)
    && Leads(if prefix == [] then name else prefix + [47] + name, e.path)
  }

  predicate IsTrailer(t: Bytes) { |t| >= 1024 && |t| % 512 == 0 && forall i :: 0 <= i < |t| ==> t[i] == 0 }

  lemma AnnouncedIff(block: Bytes, path: Bytes, kind: Kind, size: nat)
    requires |block| == 512
    ensures Announced(block) == Some(Parsed(path, kind, size)) <==>
      !Forbidden(path) && exists name, prefix ::
        Announces(block, name, prefix, kind == Directory, size) &&
        Leads(if prefix == [] then name else prefix + [47] + name, path)
  {
    ArchiveNames();
    ProcessNames();
    hide ParseHeader, Canonical, TarReader.Announces, Leads, Ascii;
    if Announced(block) == Some(Parsed(path, kind, size)) {
      var p := ParseHeader(block).value;
      HeaderIff(block, p);
      CanonicalIff(p.path, path);
      var name, prefix :| Announces(block, name, prefix, p.kind == Directory, p.size) &&
        p.path == if prefix == [] then name else prefix + [47] + name;
    }
    forall name, prefix | Announces(block, name, prefix, kind == Directory, size) &&
        Leads(if prefix == [] then name else prefix + [47] + name, path) && !Forbidden(path)
      ensures Announced(block) == Some(Parsed(path, kind, size))
    {
      AnnouncedBy(block, name, prefix, path, kind, size);
    }
  }

  lemma AnnouncedBy(block: Bytes, name: Bytes, prefix: Bytes, path: Bytes, kind: Kind, size: nat)
    requires |block| == 512 && Announces(block, name, prefix, kind == Directory, size)
    requires Leads(if prefix == [] then name else prefix + [47] + name, path) && !Forbidden(path)
    ensures Announced(block) == Some(Parsed(path, kind, size))
  {
    ArchiveNames();
    ProcessNames();
    hide ParseHeader, Canonical, TarReader.Announces, Leads, Ascii;
    var full := if prefix == [] then name else prefix + [47] + name;
    HeaderIff(block, Parsed(full, kind, size));
    CanonicalIff(full, path);
  }

  /** An announcing block is not zero: its magic is not. */
  lemma AnnouncingIsNotZero(block: Bytes, name: Bytes, prefix: Bytes, directory: bool, size: nat)
    requires |block| == 512 && Announces(block, name, prefix, directory, size)
    ensures !AllNul(block)
  {
    hide Octal, OctalOrBlank, TarReader.Text;
    assert block[257..265][0] == block[257];
  }

  lemma PaddedIsMultiple(size: nat)
    ensures Padded(size) % 512 == 0
  {
  }

  lemma PaddedUnique(size: nat, n: nat)
    requires size <= n < size + 512 && n % 512 == 0
    ensures n == Padded(size)
  {
  }

  lemma TrailerIff(data: Bytes)
    ensures NextEntry(data).Finish? <==> IsTrailer(data)
  {
    hide Announced;
    if |data| >= 512 {
      var a, b := data[..512], data[512..];
      assert data == a + b;
      assert forall i :: 0 <= i < 512 ==> a[i] == data[i];
      assert forall i :: 512 <= i < |data| ==> b[i - 512] == data[i];
    }
  }

  lemma TakenIsRecord(data: Bytes, e: Entry, used: nat)
    requires NextEntry(data) == Take(e, used)
    ensures IsRecord(data[..used], e)
  {
    hide Announced, Announces, Leads, AllNul, Ascii;
    var p := Announced(data[..512]).value;
    PaddedIsMultiple(p.size);
    AnnouncedIff(data[..512], p.path, p.kind, p.size);
    var rec := data[..used];
    assert rec[..512] == data[..512];
    assert rec[512..512 + p.size] == data[512..][..p.size];
    var name, prefix :| Announces(data[..512], name, prefix, p.kind == Directory, p.size) &&
      Leads(if prefix == [] then name else prefix + [47] + name, p.path);
    assert StoredAt(rec[..512], name, prefix, e);
  }

  lemma RecordIsTaken(rec: Bytes, e: Entry, rest: Bytes)
    requires IsRecord(rec, e)
    ensures NextEntry(rec + rest) == Take(e, |rec|)
  {
    hide Announced, Announces, Leads, AllNul, Ascii;
    var data, n := rec + rest, |e.content|;
    var name, prefix :| StoredAt(rec[..512], name, prefix, e);
    AnnouncingIsNotZero(rec[..512], name, prefix, e.kind == Directory, n);
    AnnouncedIff(rec[..512], e.path, e.kind, n);
    PaddedUnique(n, |rec| - 512);
    assert data[..512] == rec[..512];
    assert data[512..][..n] == rec[512..512 + n];
  }

  // ---------------------------------------------------------------------------
  // Whole archives
  // ---------------------------------------------------------------------------

  /** The bytes are these records, for these entries, and then the closing zeros. */
  ghost predicate Laid(data: Bytes, recs: seq<Bytes>, es: seq<Entry>, trailer: Bytes) {
    && |recs| == |es| && data == Concat(recs) + trailer && IsTrailer(trailer)
    && forall i :: 0 <= i < |es| ==> IsRecord(recs[i], es[i])
  }

  lemma {:induction false} AcceptedIsLaid(data: Bytes, done: seq<Entry>, before: Fs)
    returns (recs: seq<Bytes>, es: seq<Entry>, trailer: Bytes)
    requires Consistent(done) && Represents(before, done) && ReadArchive(data, done, before).Some?
    ensures Laid(data, recs, es, trailer) && Consistent(done + es)
    ensures Represents(ReadArchive(data, done, before).value, done + es)
    decreases |data|
  {
    hide NextEntry, IsRecord, IsTrailer, Represents, Consistent, WriteEntry;
    TrailerIff(data);
    if NextEntry(data).Finish? {
      recs, es, trailer := [], [], data;
      assert done + es == done && Concat(recs) + trailer == data;
    } else {
      var e, used := NextEntry(data).entry, NextEntry(data).used;
      TakenIsRecord(data, e, used);
      WriteEntryRepresents(before, done, e);
      recs, es, trailer := AcceptedIsLaid(data[used..], done + [e], WriteEntry(before, e).value);
      assert done + [e] + es == done + ([e] + es);
      assert data == data[..used] + (Concat(recs) + trailer);
      assert ([data[..used]] + recs)[1..] == recs;
      assert data[..used] + Concat(recs) + trailer == data[..used] + (Concat(recs) + trailer);
      recs, es := [data[..used]] + recs, [e] + es;
    }
  }

  lemma {:induction false} LaidIsAccepted(data: Bytes, done: seq<Entry>, before: Fs, recs: seq<Bytes>, es: seq<Entry>,
                                          trailer: Bytes)
    requires Laid(data, recs, es, trailer) && Consistent(done + es) && Represents(before, done)
    ensures ReadArchive(data, done, before).Some?
    ensures Represents(ReadArchive(data, done, before).value, done + es)
    decreases |es|
  {
    hide NextEntry, IsRecord, IsTrailer, Represents, WriteEntry;
    if es == [] {
      assert recs == [] && data == trailer && done + es == done;
      TrailerIff(data);
    } else {
      var e, rest := es[0], Concat(recs[1..]) + trailer;
      assert data == recs[0] + rest;
      RecordIsTaken(recs[0], e, rest);
      assert data[|recs[0]|..] == rest;
      assert done + [e] + es[1..] == done + es;
      ConsistentFront(done + [e], es[1..]);
      hide Consistent;
      WriteEntryRepresents(before, done, e);
      RecordNotEmpty(recs[0], e);
      LaidIsAccepted(rest, done + [e], WriteEntry(before, e).value, recs[1..], es[1..], trailer);
    }
  }

  lemma RecordNotEmpty(rec: Bytes, e: Entry)
    requires IsRecord(rec, e)
    ensures |rec| >= 512
  {
  }

  lemma ConsistentFront(a: seq<Entry>, b: seq<Entry>)
    requires Consistent(a + b)
    ensures Consistent(a)
  {
    assert forall i :: 0 <= i < |a| ==> (a + b)[i] == a[i];
  }

  lemma EmptyRepresents()
    ensures Represents(map[], []) && Consistent([])
  {
  }

  /**
   * Over all byte strings: a restore accepts the bytes and leaves this tree if and only if they are a row of records of
   * consistent entries closed by zeros, and the tree is exactly the one those entries call for.
   */
  lemma AcceptedIff(data: Bytes, fs: Fs)
    ensures ReadArchive(data, [], map[]) == Some(fs) <==>
      exists recs, es, trailer :: Laid(data, recs, es, trailer) && Consistent(es) && Represents(fs, es)
  {
    hide ReadArchive, Laid, Represents, Consistent;
    EmptyRepresents();
    if ReadArchive(data, [], map[]) == Some(fs) {
      var recs, es, trailer := AcceptedIsLaid(data, [], map[]);
      assert [] + es == es;
    }
    if recs, es, trailer :| Laid(data, recs, es, trailer) && Consistent(es) && Represents(fs, es) {
      assert [] + es == es;
      LaidIsAccepted(data, [], map[], recs, es, trailer);
      RepresentsUnique(fs, ReadArchive(data, [], map[]).value, es);
    }
  }

  /** A staging write fails exactly if a file is in the way, or for a file anything at its own place. */
  lemma WriteEntryIff(fs: Fs, e: Entry)
    ensures WriteEntry(fs, e).None? <==>
      || (exists a :: a in fs && fs[a].FsFile? && IsAncestor(a, e.path))
      || (e.path in fs && (fs[e.path].FsFile? || e.kind == RegularFile))
  {
    PrefixesAreAncestors(e.path);
  }
}
