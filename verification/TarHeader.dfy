/**
 * One 512-byte ustar header: what the writer puts into the block and what the strict
 * reader accepts. Layout as in "ustar Interchange Format" of the pax utility in POSIX.1-2017.
 */
module TarHeader {
  import opened Prelude
  import opened TarOctal

  const SLASH: byte := 47
  const MAGIC: Bytes := [117, 115, 116, 97, 114, 0]        // "ustar" NUL
  const VERSION: Bytes := [48, 48]                         // "00"
  const GNU_MAGIC: Bytes := [117, 115, 116, 97, 114, 32]   // "ustar "
  const GNU_VERSION: Bytes := [32, 0]

  datatype Kind = RegularFile | Directory

  function TypeFlag(k: Kind): byte { if k == Directory then 53 else 48 }

  function Mode(k: Kind): nat { if k == Directory then 448 else 384 }   // 0700, 0600

  predicate NoNul(s: Bytes) { forall i :: 0 <= i < |s| ==> s[i] != NUL }

  // ---------------------------------------------------------------------------
  // Name and prefix
  // ---------------------------------------------------------------------------

  datatype Names = Names(name: Bytes, prefix: Bytes)

  /** The writer looks for a slash from the end of the path. */
  function LastSplit(path: Bytes, limit: nat): (r: Option<nat>)
    requires limit <= |path|
    ensures r.Some? ==> r.value < limit && path[r.value] == SLASH && r.value <= 155 && |path| - r.value - 1 <= 100
  {
    if limit == 0 then None
    else if path[limit - 1] == SLASH && limit - 1 <= 155 && |path| - limit <= 100 then Some(limit - 1)
    else LastSplit(path, limit - 1)
  }

  function SplitName(path: Bytes): (r: Option<Names>)
    ensures r.Some? ==> |r.value.name| <= 100 && |r.value.prefix| <= 155
  {
    if |path| <= 100 then Some(Names(path, []))
    else
      match LastSplit(path, |path|)
      case None => None
      case Some(i) => Some(Names(path[i + 1..], path[..i]))
  }

  /** Directories are stored with a trailing slash. */
  function HeaderPath(path: Bytes, kind: Kind): Bytes {
    if kind == Directory && (path == [] || path[|path| - 1] != SLASH) then path + [SLASH] else path
  }

  function JoinNames(n: Names): Bytes {
    if n.prefix == [] then n.name else n.prefix + [SLASH] + n.name
  }

  /** The two fields still spell the path. */
  lemma SplitKeepsPath(path: Bytes)
    requires SplitName(path).Some? && path != [] && path[0] != SLASH
    ensures JoinNames(SplitName(path).value) == path
  {
    if |path| > 100 {
      var i := LastSplit(path, |path|).value;
      assert path == path[..i] + [path[i]] + path[i + 1..];
    }
  }

  method TarSetName(path: Bytes) returns (r: Option<Names>)
    ensures r == SplitName(path)
  {
    if |path| <= 100 {
      return Some(Names(path, []));
    }
    var split := |path|;
    while split > 0
      invariant 0 <= split <= |path|
      invariant LastSplit(path, |path|) == LastSplit(path, split)
    {
      split := split - 1;
      if path[split] == SLASH {
        var prefixLen := split;
        var nameLen := |path| - prefixLen - 1;
        if prefixLen <= 155 && nameLen <= 100 {
          return Some(Names(path[split + 1..], path[..split]));
        }
      }
    }
    r := None;
  }

  /** The directory paths the search splits at their own trailing slash. */
  predicate EmptyNameLength(slashed: nat) { 101 <= slashed <= 156 }

  /** A stored path loses its name field exactly when it ends in a slash and has 101 to 156 bytes. */
  lemma EmptyNameIff(path: Bytes)
    requires path != []
    ensures (SplitName(path).Some? && SplitName(path).value.name == []) <==>
            (path[|path| - 1] == SLASH && EmptyNameLength(|path|))
  {
  }

  // ---------------------------------------------------------------------------
  // The written block
  // ---------------------------------------------------------------------------

  function Pad(f: Bytes, n: nat): (r: Bytes)
    requires |f| <= n
    ensures |r| == n
  {
    f + Fill(NUL, n - |f|)
  }

  /** The block before its checksum is known: byte `j`, field by field. */
  function ImageByte(names: Names, kind: Kind, size: nat, j: nat): byte
    requires |names.name| <= 100 && |names.prefix| <= 155 && j < 512
  {
    if j < 100 then Pad(names.name, 100)[j]
    else if j < 108 then OctalField(Mode(kind), 8)[j - 100]
    else if j < 116 then OctalField(0, 8)[j - 108]
    else if j < 124 then OctalField(0, 8)[j - 116]
    else if j < 136 then OctalField(size, 12)[j - 124]
    else if j < 148 then OctalField(0, 12)[j - 136]
    else if j < 156 then SPACE
    else if j < 157 then TypeFlag(kind)
    else if j < 257 then NUL
    else if j < 263 then MAGIC[j - 257]
    else if j < 265 then VERSION[j - 263]
    else if j < 345 then NUL
    else if j < 500 then Pad(names.prefix, 155)[j - 345]
    else NUL
  }

  function Image(names: Names, kind: Kind, size: nat): (r: Bytes)
    requires |names.name| <= 100 && |names.prefix| <= 155
    ensures |r| == 512
  {
    seq(512, j requires 0 <= j < 512 => ImageByte(names, kind, size, j))
  }

  function ChecksumField(sum: nat): (r: Bytes)
    ensures |r| == 8
  {
    OctalDigits(sum, 6) + [NUL, SPACE]
  }

  function HeaderBytes(names: Names, kind: Kind, size: nat): (r: Bytes)
    requires |names.name| <= 100 && |names.prefix| <= 155
    ensures |r| == 512
  {
    var image := Image(names, kind, size);
    image[..148] + ChecksumField(Sum(image)) + image[156..]
  }

  method MemCpy(target: array<byte>, offset: nat, source: Bytes)
    requires offset + |source| <= target.Length
    modifies target
    ensures forall j :: offset <= j < offset + |source| ==> target[j] == source[j - offset]
    ensures forall j :: 0 <= j < target.Length && !(offset <= j < offset + |source|) ==> target[j] == old(target[j])
  {
    forall i | 0 <= i < |source| {
      target[offset + i] := source[i];
    }
  }

  /** Everything but the checksum, written field by field into a zeroed block. */
  method FillImage(header: array<byte>, names: Names, kind: Kind, size: nat)
    requires header.Length == 512 && forall j :: 0 <= j < 512 ==> header[j] == NUL
    requires |names.name| <= 100 && |names.prefix| <= 155
    modifies header
    ensures header[..] == Image(names, kind, size)
  {
    MemCpy(header, 0, names.name);
    MemCpy(header, 345, names.prefix);
    MemCpy(header, 100, OctalField(Mode(kind), 8));
    MemCpy(header, 108, OctalField(0, 8));
    MemCpy(header, 116, OctalField(0, 8));
    MemCpy(header, 124, OctalField(size, 12));
    MemCpy(header, 136, OctalField(0, 12));
    MemCpy(header, 148, Fill(SPACE, 8));
    header[156] := TypeFlag(kind);
    MemCpy(header, 257, MAGIC[..5]);
    MemCpy(header, 263, VERSION);
    forall j | 0 <= j < 512 ensures header[j] == ImageByte(names, kind, size, j) {}
  }

  method BuildHeader(path: Bytes, kind: Kind, size: nat) returns (r: Option<Bytes>)
    ensures match SplitName(HeaderPath(path, kind))
            case None => r == None
            case Some(names) => r == Some(HeaderBytes(names, kind, size))
  {
    var split := TarSetName(HeaderPath(path, kind));
    if split.None? {
      return None;
    }
    var header := new byte[512](_ => NUL);
    FillImage(header, split.value, kind, size);
    ghost var image := header[..];
    var checksum := 0;
    for i := 0 to 512
      invariant checksum == Sum(header[..i])
    {
      assert header[..i + 1][..i] == header[..i];
      checksum := checksum + header[i] as nat;
    }
    assert header[..512] == header[..];
    MemCpy(header, 148, ChecksumField(checksum));
    assert header[..] == image[..148] + ChecksumField(checksum) + image[156..];
    r := Some(header[..]);
  }

  // ---------------------------------------------------------------------------
  // The reader
  // ---------------------------------------------------------------------------

  datatype Parsed = Parsed(path: Bytes, kind: Kind, size: nat)

  /** A C string field ends at its first NUL. */
  function CString(f: Bytes): (r: Bytes)
    ensures |r| <= |f| && NoNul(r)
  {
    if f == [] || f[0] == NUL then [] else [f[0]] + CString(f[1..])
  }

  predicate AllNul(f: Bytes) { forall i :: 0 <= i < |f| ==> f[i] == NUL }

  /** Nothing follows the terminator, and a required field is not empty. */
  predicate StringFieldOk(f: Bytes, allowEmpty: bool) {
    && (CString(f) != [] || allowEmpty)
    && AllNul(f[|CString(f)|..])
  }

  /** The block cut at the field boundaries, and whether its checksum matches. */
  datatype Fields = Fields(name: Bytes, mode: Bytes, uid: Bytes, gid: Bytes, size: Bytes, mtime: Bytes,
                           typeFlag: byte, link: Bytes, magic: Bytes, version: Bytes, prefix: Bytes, checksumOk: bool)

  function Cut(h: Bytes): Fields
    requires |h| == 512
  {
    Fields(h[0..100], h[100..108], h[108..116], h[116..124], h[124..136], h[136..148],
           h[156], h[157..257], h[257..263], h[263..265], h[345..500],
           ParseOctal(h[148..156]) == Some(Sum(ChecksumView(h))))
  }

  predicate FormatOk(f: Fields) {
    || (f.magic == MAGIC && f.version == VERSION)
    || (f.magic == GNU_MAGIC && f.version == GNU_VERSION)
  }

  predicate NumberOk(f: Bytes, allowEmpty: bool) {
    ParseOctal(f).Some? || (allowEmpty && AllBlank(f))
  }

  predicate TextOk(f: Fields) {
    StringFieldOk(f.name, false) && StringFieldOk(f.link, true) && StringFieldOk(f.prefix, true)
  }

  predicate NumbersOk(f: Fields) {
    && NumberOk(f.mode, false) && NumberOk(f.uid, true) && NumberOk(f.gid, true)
    && NumberOk(f.size, false) && NumberOk(f.mtime, true)
  }

  /** Every check the reader makes on the block alone. */
  function ParseFields(f: Fields): Option<Parsed> {
    if !f.checksumOk || !FormatOk(f) || !TextOk(f) || !NumbersOk(f) then None
    else if !(f.typeFlag == NUL || f.typeFlag == 48 || f.typeFlag == 53) || CString(f.link) != [] then None
    else
      var size := ParseOctal(f.size).value;
      var kind := if f.typeFlag == 53 then Directory else RegularFile;
      if kind == Directory && size != 0 then None
      else Some(Parsed(JoinNames(Names(CString(f.name), CString(f.prefix))), kind, size))
  }

  function ParseHeader(h: Bytes): Option<Parsed>
    requires |h| == 512
  {
    ParseFields(Cut(h))
  }

  lemma {:induction false} CStringStops(f: Bytes, n: nat)
    requires n <= |f| && NoNul(f[..n]) && (n < |f| ==> f[n] == NUL)
    ensures CString(f) == f[..n]
  {
    if n > 0 {
      assert f[0] == f[..n][0] != NUL;
      assert f[1..][..n - 1] == f[..n][1..];
      CStringStops(f[1..], n - 1);
      assert f[..n] == [f[0]] + f[1..][..n - 1];
    }
  }

  method ValidateStringField(field: Bytes, allowEmpty: bool) returns (ok: bool, text: Bytes)
    ensures ok == StringFieldOk(field, allowEmpty)
    ensures text == CString(field)
  {
    var index := 0;
    while index < |field| && field[index] != NUL
      invariant 0 <= index <= |field| && NoNul(field[..index])
    {
      assert field[..index + 1] == field[..index] + [field[index]];
      index := index + 1;
    }
    CStringStops(field, index);
    text := field[..index];
    if index == 0 && !allowEmpty {
      return false, text;
    }
    ghost var tail := field[index..];
    for k := index to |field|
      invariant forall i :: 0 <= i < k - index ==> tail[i] == NUL
    {
      if field[k] != NUL {
        assert tail[k - index] != NUL;
        return false, text;
      }
    }
    ok := true;
  }

  method NumberFieldOk(field: Bytes, allowEmpty: bool) returns (ok: bool)
    ensures ok == NumberOk(field, allowEmpty)
  {
    var n := ParseTarOctal(field);
    if n.Some? || !allowEmpty {
      return n.Some?;
    }
    ok := OnlyBlanks(field);
  }

  method NumericMetadataOk(f: Fields) returns (ok: bool)
    ensures ok == NumbersOk(f)
  {
    ok := NumberFieldOk(f.mode, false);
    if !ok { return; }
    ok := NumberFieldOk(f.uid, true);
    if !ok { return; }
    ok := NumberFieldOk(f.gid, true);
    if !ok { return; }
    ok := NumberFieldOk(f.size, false);
    if !ok { return; }
    ok := NumberFieldOk(f.mtime, true);
  }

  method ReadFields(f: Fields) returns (r: Option<Parsed>)
    ensures r == ParseFields(f)
  {
    if !f.checksumOk || !FormatOk(f) {
      return None;
    }
    var nameOk, name := ValidateStringField(f.name, false);
    var linkOk, link := ValidateStringField(f.link, true);
    var prefixOk, prefix := ValidateStringField(f.prefix, true);
    var numbersOk := NumericMetadataOk(f);
    if !nameOk || !linkOk || !prefixOk || !numbersOk {
      return None;
    }
    if !(f.typeFlag == NUL || f.typeFlag == 48 || f.typeFlag == 53) || link != [] {
      return None;
    }
    var size := ParseTarOctal(f.size);
    var kind := if f.typeFlag == 53 then Directory else RegularFile;
    if kind == Directory && size.value != 0 {
      return None;
    }
    r := Some(Parsed(JoinNames(Names(name, prefix)), kind, size.value));
  }

  method ReadHeader(h: Bytes) returns (r: Option<Parsed>)
    requires |h| == 512
    ensures r == ParseHeader(h)
  {
    var stored := ParseTarOctal(h[148..156]);
    var computed := TarHeaderChecksum(h);
    var fields := Fields(h[0..100], h[100..108], h[108..116], h[116..124], h[124..136], h[136..148],
                         h[156], h[157..257], h[257..263], h[263..265], h[345..500], stored == Some(computed));
    r := ReadFields(fields);
  }

  // ---------------------------------------------------------------------------
  // What the writer wrote, the reader reads
  // ---------------------------------------------------------------------------

  lemma {:induction false} CStringOfPad(s: Bytes, k: nat)
    requires NoNul(s)
    ensures CString(s + Fill(NUL, k)) == s
  {
    if s != [] {
      assert (s + Fill(NUL, k))[1..] == s[1..] + Fill(NUL, k);
      CStringOfPad(s[1..], k);
    }
  }

  lemma PadReads(s: Bytes, n: nat, allowEmpty: bool)
    requires NoNul(s) && |s| <= n
    ensures CString(Pad(s, n)) == s
    ensures StringFieldOk(Pad(s, n), allowEmpty) <==> s != [] || allowEmpty
  {
    CStringOfPad(s, n - |s|);
  }

  lemma ChecksumReads(names: Names, kind: Kind, size: nat)
    requires |names.name| <= 100 && |names.prefix| <= 155
    ensures var h := HeaderBytes(names, kind, size);
      ParseOctal(h[148..156]) == Some(Sum(ChecksumView(h)))
  {
    var image := Image(names, kind, size);
    var h := HeaderBytes(names, kind, size);
    assert h[148..156] == ChecksumField(Sum(image));
    assert ChecksumView(h) == image;
    assert Pow8(3) == 512;
    assert Pow8(6) == 262144;
    DigitsValue(Sum(image), 6);
    DigitsThenBlanks(OctalDigits(Sum(image), 6), [NUL, SPACE]);
  }

  lemma NumberSlices(names: Names, kind: Kind, size: nat)
    requires |names.name| <= 100 && |names.prefix| <= 155
    ensures var h := HeaderBytes(names, kind, size);
      && h[100..108] == OctalField(Mode(kind), 8)
      && h[108..116] == OctalField(0, 8) && h[116..124] == OctalField(0, 8)
      && h[124..136] == OctalField(size, 12) && h[136..148] == OctalField(0, 12)
  {
    var h := HeaderBytes(names, kind, size);
    assert forall j :: 0 <= j < 148 ==> h[j] == ImageByte(names, kind, size, j);
  }

  lemma TextSlices(names: Names, kind: Kind, size: nat)
    requires |names.name| <= 100 && |names.prefix| <= 155
    ensures var h := HeaderBytes(names, kind, size);
      && h[0..100] == Pad(names.name, 100)
      && h[156] == TypeFlag(kind) && h[157..257] == Pad([], 100)
      && h[257..263] == MAGIC && h[263..265] == VERSION && h[345..500] == Pad(names.prefix, 155)
  {
    var h := HeaderBytes(names, kind, size);
    assert forall j :: 0 <= j < 148 || 156 <= j < 512 ==> h[j] == ImageByte(names, kind, size, j);
  }

  lemma NumbersRead(kind: Kind, size: nat)
    requires size < Pow8(11)
    ensures ParseOctal(OctalField(Mode(kind), 8)).Some? && ParseOctal(OctalField(0, 8)).Some?
    ensures ParseOctal(OctalField(size, 12)) == Some(size) && ParseOctal(OctalField(0, 12)).Some?
  {
    hide OctalField, ParseOctal, Pow8;
    FieldRoundTrip(Mode(kind), 8);
    FieldRoundTrip(0, 8);
    FieldRoundTrip(size, 12);
    FieldRoundTrip(0, 12);
  }

  function WrittenFields(names: Names, kind: Kind, size: nat): Fields
    requires |names.name| <= 100 && |names.prefix| <= 155
  {
    Fields(Pad(names.name, 100), OctalField(Mode(kind), 8), OctalField(0, 8), OctalField(0, 8),
           OctalField(size, 12), OctalField(0, 12), TypeFlag(kind), Pad([], 100), MAGIC, VERSION,
           Pad(names.prefix, 155), true)
  }

  lemma CutWritten(names: Names, kind: Kind, size: nat)
    requires |names.name| <= 100 && |names.prefix| <= 155
    ensures Cut(HeaderBytes(names, kind, size)) == WrittenFields(names, kind, size)
  {
    NumberSlices(names, kind, size);
    TextSlices(names, kind, size);
    ChecksumReads(names, kind, size);
  }

  /** A block with these text fields and readable numbers is accepted exactly when its name is not empty. */
  lemma TextDecides(f: Fields, names: Names, kind: Kind, size: nat)
    requires |names.name| <= 100 && |names.prefix| <= 155
    requires NoNul(names.name) && NoNul(names.prefix)
    requires f.checksumOk && FormatOk(f) && NumbersOk(f) && ParseOctal(f.size) == Some(size)
    requires f.name == Pad(names.name, 100) && f.prefix == Pad(names.prefix, 155) && f.link == Pad([], 100)
    requires f.typeFlag == TypeFlag(kind) && (kind == Directory ==> size == 0)
    ensures ParseFields(f) == if names.name == [] then None else Some(Parsed(JoinNames(names), kind, size))
  {
    PadReads(names.name, 100, false);
    PadReads(names.prefix, 155, true);
    PadReads([], 100, true);
  }

  /** Reading a written header gives its path, kind and size back, unless its name field came out empty. */
  lemma HeaderRoundTrip(names: Names, kind: Kind, size: nat)
    requires |names.name| <= 100 && |names.prefix| <= 155
    requires NoNul(names.name) && NoNul(names.prefix)
    requires size < Pow8(11) && (kind == Directory ==> size == 0)
    ensures ParseHeader(HeaderBytes(names, kind, size)) ==
            if names.name == [] then None else Some(Parsed(JoinNames(names), kind, size))
  {
    CutWritten(names, kind, size);
    NumbersRead(kind, size);
    TextDecides(WrittenFields(names, kind, size), names, kind, size);
  }

  /**
   * For every relative path the writer accepts, the reader returns that path, with the slash a
   * directory gained, exactly when it is not a directory of 101 to 156 slash-terminated bytes.
   */
  lemma WrittenPathReadsBackIff(path: Bytes, kind: Kind, size: nat)
    requires path != [] && path[0] != SLASH && path[|path| - 1] != SLASH && NoNul(path)
    requires SplitName(HeaderPath(path, kind)).Some?
    requires size < Pow8(11) && (kind == Directory ==> size == 0)
    ensures ParseHeader(HeaderBytes(SplitName(HeaderPath(path, kind)).value, kind, size)) ==
            if kind == Directory && EmptyNameLength(|path| + 1) then None
            else Some(Parsed(HeaderPath(path, kind), kind, size))
  {
    hide ParseHeader, HeaderBytes, LastSplit;
    var stored := HeaderPath(path, kind);
    var names := SplitName(stored).value;
    SplitKeepsPath(stored);
    EmptyNameIff(stored);
    HeaderRoundTrip(names, kind, size);
  }
}
