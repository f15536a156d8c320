/**
 * What the backup writes, byte position by byte position: the header block of a file or directory, its padded record,
 * the end of the archive, and which paths can be stored at all.
 */
module TarWriter {
  import opened Prelude
  import opened TarOctal
  import opened TarHeader
  import opened ArchivePath
  import opened ArchiveCheck
  import opened ArchiveRoundTrip

  predicate Zeros(f: Bytes) { forall i :: 0 <= i < |f| ==> f[i] == 0 }

  /** A text field, filled up with zeros. */
  predicate Field(f: Bytes, text: Bytes) { text <= f && Zeros(f[|text|..]) }

  lemma {:induction false} NoDigits(w: nat)
    ensures OctalDigits(0, w) == Fill(48, w)
  {
    if w > 0 {
      NoDigits(w - 1);
      assert OctalDigits(0, w) == OctalDigits(0, w - 1) + [48];
    }
  }

  lemma ZeroFields()
    ensures OctalField(0, 8) == [48, 48, 48, 48, 48, 48, 48, 0]
    ensures OctalField(0, 12) == [48, 48, 48, 48, 48, 48, 48, 48, 48, 48, 48, 0]
  {
    NoDigits(7);
    NoDigits(11);
  }

  lemma ModeDigits(v: nat, d: nat)
    requires d < 8 && v == 64 * d
    ensures OctalField(v, 8) == [48, 48, 48, 48, 48 + d as byte, 48, 48, 0]
  {
    assert v / 8 == 8 * d && v / 8 / 8 == d && d / 8 == 0;
    NoDigits(4);
    assert OctalDigits(d, 5) == Fill(48, 4) + [48 + d as byte];
    assert OctalDigits(8 * d, 6) == OctalDigits(d, 5) + [48];
    assert OctalDigits(v, 7) == OctalDigits(8 * d, 6) + [48];
    assert Pow8(3) == 512;
    Pow8Monotone(3, 7);
  }

  /**
   * The block of a file (mode 0600) or directory (mode 0700): owner, group and time zero, the size in eleven octal
   * digits, ustar format 00, and no link.
   */
  lemma BlockLayout(names: Names, kind: Kind, size: nat)
    requires |names.name| <= 100 && |names.prefix| <= 155
    ensures var h := HeaderBytes(names, kind, size);
      && Field(h[0..100], names.name) && Field(h[345..500], names.prefix) && Zeros(h[157..257])
      && h[100..108] == [48, 48, 48, 48, if kind == Directory then 55 else 54, 48, 48, 0]
      && h[108..116] == h[116..124] == [48, 48, 48, 48, 48, 48, 48, 0]
      && h[124..136] == OctalField(size, 12)
      && h[136..148] == [48, 48, 48, 48, 48, 48, 48, 48, 48, 48, 48, 0]
      && h[156] == (if kind == Directory then 53 else 48)
      && h[257..265] == [117, 115, 116, 97, 114, 0, 48, 48]
      && Zeros(h[265..345]) && Zeros(h[500..512])
  {
    hide OctalField;
    NumberSlices(names, kind, size);
    TextSlices(names, kind, size);
    ZeroFields();
    ModeDigits(Mode(kind), if kind == Directory then 7 else 6);
    RestIsZero(names, kind, size);
    var h := HeaderBytes(names, kind, size);
    assert h[257..265] == h[257..263] + h[263..265];
    PadIsField(names.name, 100);
    PadIsField(names.prefix, 155);
    PadIsField([], 100);
    assert h[157..257][0..] == h[157..257];
  }

  lemma PadIsField(f: Bytes, n: nat)
    requires |f| <= n
    ensures Field(Pad(f, n), f)
  {
  }

  lemma RestIsZero(names: Names, kind: Kind, size: nat)
    requires |names.name| <= 100 && |names.prefix| <= 155
    ensures var h := HeaderBytes(names, kind, size); Zeros(h[265..345]) && Zeros(h[500..512])
  {
    var h := HeaderBytes(names, kind, size);
    assert forall j :: 156 <= j < 512 ==> h[j] == ImageByte(names, kind, size, j);
  }

  /** A record is its block, the contents, and zeros up to a whole number of blocks; the end is two zero blocks. */
  lemma RecordLayout(e: Entry)
    ensures EncodeEntry(e).Some? <==>
      && e.path != [] && e.path[0] != 47 && [46, 46] !in Components(e.path)
      && SplitName(HeaderPath(e.path, e.kind)).Some?
    ensures EncodeEntry(e).Some? ==>
      var r, names := EncodeEntry(e).value, SplitName(HeaderPath(e.path, e.kind)).value;
      && |r| % 512 == 0 && 512 + |e.content| <= |r| < 512 + |e.content| + 512
      && r[..512] == HeaderBytes(names, e.kind, |e.content|)
      && r[512..512 + |e.content|] == e.content && Zeros(r[512 + |e.content|..])
  {
    hide HeaderBytes, SplitName, Components;
    if EncodeEntry(e).Some? {
      var names := SplitName(HeaderPath(e.path, e.kind)).value;
      RecordParts(HeaderBytes(names, e.kind, |e.content|), e.content);
    }
  }

  lemma RecordParts(header: Bytes, content: Bytes)
    requires |header| == 512
    ensures var r := Record(header, content);
      && |r| % 512 == 0 && 512 + |content| <= |r| < 512 + |content| + 512
      && r[..512] == header && r[512..512 + |content|] == content && Zeros(r[512 + |content|..])
  {
  }

  lemma EndLayout(body: Bytes)
    ensures Finished(body)[..|body|] == body && |Finished(body)| == |body| + 1024 && Zeros(Finished(body)[|body|..])
  {
  }

  /** A slash at which a path can be cut: at most 155 bytes before it and at most 100 behind it. */
  predicate CutAt(path: Bytes, i: nat) { i < |path| && path[i] == 47 && i <= 155 && |path| - i - 1 <= 100 }

  lemma {:induction false} LastSplitIsLast(path: Bytes, limit: nat)
    requires limit <= |path|
    ensures var r := LastSplit(path, limit);
      && (r.Some? ==> CutAt(path, r.value) && forall k :: r.value < k < limit ==> !CutAt(path, k))
      && (r.None? ==> forall k :: 0 <= k < limit ==> !CutAt(path, k))
  {
    if limit > 0 { LastSplitIsLast(path, limit - 1); }
  }

  /** A path of up to 100 bytes is the name; a longer one is cut at the last possible slash, or cannot be stored. */
  lemma NameIff(path: Bytes)
    ensures SplitName(path).None? <==> |path| > 100 && forall i: nat :: !CutAt(path, i)
    ensures |path| <= 100 ==> SplitName(path) == Some(Names(path, []))
    ensures |path| > 100 && SplitName(path).Some? ==>
      exists i: nat :: CutAt(path, i) && (forall k :: i < k < |path| ==> !CutAt(path, k)) &&
        SplitName(path) == Some(Names(path[i + 1..], path[..i]))
  {
    LastSplitIsLast(path, |path|);
  }

  /** Directories are stored with a slash at their end, files as they are. */
  lemma StoredPath(path: Bytes)
    requires path != [] && path[|path| - 1] != 47
    ensures HeaderPath(path, Directory) == path + [47] && HeaderPath(path, RegularFile) == path
    ensures HeaderPath(path + [47], Directory) == path + [47]
  {
  }
}
