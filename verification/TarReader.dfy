/**
 * Which 512-byte blocks the restore takes for a header, byte position by byte position, as the ustar layout of the
 * pax utility in POSIX.1-2017 has them. Nothing here is stated through the functions that read the fields.
 */
module TarReader {
  import opened Prelude
  import opened TarOctal
  import opened TarHeader

  /** Blanks (space or zero), at least one octal digit, blanks; `n` is the number, of at most 64 bits. */
  ghost predicate Octal(f: Bytes, n: nat) {
    exists i, j :: 0 <= i < j <= |f| && Cuts(f, i, j) && n == PlaceValue8(f[i..j]) <= 0xFFFF_FFFF_FFFF_FFFF
  }

  predicate Cuts(f: Bytes, i: nat, j: nat)
    requires i <= j <= |f|
  {
    && (forall k :: 0 <= k < i ==> f[k] == 32 || f[k] == 0)
    && (forall k :: i <= k < j ==> 48 <= f[k] <= 55)
    && (forall k :: j <= k < |f| ==> f[k] == 32 || f[k] == 0)
  }

  function Pow(n: nat): nat { if n == 0 then 1 else 8 * Pow(n - 1) }

  /** The value of octal digits by their places, the first digit counting most. */
  function PlaceValue8(d: Bytes): nat
    requires forall k :: 0 <= k < |d| ==> 48 <= d[k] <= 55
  {
    if d == [] then 0 else (d[0] as nat - 48) * Pow(|d| - 1) + PlaceValue8(d[1..])
  }

  /** A text that ends at the first zero byte, with nothing but zeros behind it. */
  predicate Text(f: Bytes, t: Bytes) {
    t <= f && (forall k :: 0 <= k < |t| ==> t[k] != 0) && (forall k :: |t| <= k < |f| ==> f[k] == 0)
  }

  predicate Blank(f: Bytes) { forall k :: 0 <= k < |f| ==> f[k] == 32 || f[k] == 0 }

  /** The sum of all bytes, the eight of the checksum itself counted as spaces. */
  function Checksum(h: Bytes, n: nat): nat
    requires n <= |h|
  {
    if n == 0 then 0 else Checksum(h, n - 1) + if 148 <= n - 1 < 156 then 32 else h[n - 1] as nat
  }

  /** A number, or no number where none is needed. */
  ghost predicate OctalOrBlank(f: Bytes) { Blank(f) || exists n :: Octal(f, n) }

  ghost predicate Format(h: Bytes)
    requires |h| == 512
  {
    h[257..265] == [117, 115, 116, 97, 114, 0, 48, 48] || h[257..265] == [117, 115, 116, 97, 114, 32, 32, 0]
  }

  /** The block announces a file or directory of this size at prefix "/" name, or just name. */
  ghost predicate Announces(h: Bytes, name: Bytes, prefix: Bytes, directory: bool, size: nat)
    requires |h| == 512
  {
    && Octal(h[148..156], Checksum(h, 512)) && Format(h)
    && Text(h[0..100], name) && name != [] && Text(h[345..500], prefix) && Text(h[157..257], [])
    && (exists n :: Octal(h[100..108], n)) && OctalOrBlank(h[108..116]) && OctalOrBlank(h[116..124])
    && Octal(h[124..136], size) && OctalOrBlank(h[136..148])
    && (if directory then h[156] == 53 && size == 0 else h[156] == 48 || h[156] == 0)
  }

  // ---------------------------------------------------------------------------
  // Numbers
  // ---------------------------------------------------------------------------

  lemma {:induction false} PlaceValueSnoc(d: Bytes, c: byte)
    requires AllDigits(d + [c])
    ensures AllDigits(d) && 48 <= c <= 55 && PlaceValue8(d + [c]) == 8 * PlaceValue8(d) + (c as nat - 48)
  {
    var all := d + [c];
    assert IsDigit(all[|d|]) && forall i :: 0 <= i < |d| ==> d[i] == all[i];
    if d == [] {
      assert all == [c] && all[1..] == [];
    } else {
      assert all[1..] == d[1..] + [c];
      PlaceValueSnoc(d[1..], c);
      TimesEight(d[0] as nat - 48, Pow(|d| - 1), PlaceValue8(d[1..]));
    }
  }

  lemma TimesEight(x: nat, p: nat, y: nat)
    ensures x * (8 * p) + 8 * y == 8 * (x * p + y)
  {
  }

  lemma {:induction false} OctalValueIsPlaceValue(d: Bytes)
    requires AllDigits(d)
    ensures OctalValue(d) == PlaceValue8(d)
  {
    if d != [] {
      var front, c := d[..|d| - 1], d[|d| - 1];
      assert d == front + [c];
      OctalValueIsPlaceValue(front);
      PlaceValueSnoc(front, c);
    }
  }

  lemma RunsAreCuts(f: Bytes, b: nat, m: nat)
    requires b + m <= |f| && AllBlank(f[..b]) && AllDigits(f[b..][..m]) && AllBlank(f[b..][m..])
    ensures Cuts(f, b, b + m) && f[b..][..m] == f[b..b + m]
  {
    var front, middle, back := f[..b], f[b..][..m], f[b..][m..];
    assert forall k :: 0 <= k < b ==> front[k] == f[k];
    forall k | b <= k < b + m ensures 48 <= f[k] <= 55 { assert IsDigit(middle[k - b]); }
    forall k | b + m <= k < |f| ensures f[k] == 32 || f[k] == 0 { assert IsBlank(back[k - b - m]); }
  }

  lemma ParsedIsOctal(f: Bytes, n: nat)
    requires ParseOctal(f) == Some(n)
    ensures Octal(f, n)
  {
    hide OctalValue, PlaceValue8, Cuts, LeadingBlanks, LeadingDigits, AllBlank, AllDigits;
    var b := LeadingBlanks(f);
    var m := LeadingDigits(f[b..]);
    RunsAreCuts(f, b, m);
    OctalValueIsPlaceValue(f[b..][..m]);
  }

  lemma OctalIsParsed(f: Bytes, n: nat)
    requires Octal(f, n)
    ensures ParseOctal(f) == Some(n)
  {
    hide OctalValue, PlaceValue8, LeadingBlanks, LeadingDigits, AllBlank;
    var i, j :| 0 <= i < j <= |f| && Cuts(f, i, j) && n == PlaceValue8(f[i..j]) <= 0xFFFF_FFFF_FFFF_FFFF;
    CutsAreRuns(f, i, j);
    assert f[i..][..j - i] == f[i..j];
    OctalValueIsPlaceValue(f[i..j]);
  }

  lemma OctalIff(f: Bytes, n: nat)
    ensures ParseOctal(f) == Some(n) <==> Octal(f, n)
  {
    hide ParseOctal, Octal;
    if ParseOctal(f) == Some(n) { ParsedIsOctal(f, n); }
    if Octal(f, n) { OctalIsParsed(f, n); }
  }

  lemma CutsAreRuns(f: Bytes, i: nat, j: nat)
    requires i < j <= |f| && Cuts(f, i, j)
    ensures LeadingBlanks(f) == i && LeadingDigits(f[i..]) == j - i && AllBlank(f[i..][j - i..])
  {
    BlankRunStops(f, i);
    var g := f[i..];
    assert forall k :: 0 <= k < |g| ==> g[k] == f[i + k];
    DigitRunStops(g, j - i);
  }

  lemma NumberIff(f: Bytes)
    ensures NumberOk(f, false) <==> exists n :: Octal(f, n)
    ensures NumberOk(f, true) <==> OctalOrBlank(f)
  {
    hide ParseOctal, Octal;
    forall n: nat ensures ParseOctal(f) == Some(n) <==> Octal(f, n) { OctalIff(f, n); }
    if ParseOctal(f).Some? { assert Octal(f, ParseOctal(f).value); }
  }

  // ---------------------------------------------------------------------------
  // Texts and the checksum
  // ---------------------------------------------------------------------------

  lemma TextIff(f: Bytes, allowEmpty: bool)
    ensures StringFieldOk(f, allowEmpty) <==> Text(f, CString(f)) && (CString(f) != [] || allowEmpty)
    ensures forall t :: Text(f, t) ==> t == CString(f)
  {
    CStringIsPrefix(f);
    var c := CString(f);
    assert forall k :: |c| <= k < |f| ==> f[|c|..][k - |c|] == f[k];
    forall t | Text(f, t) ensures t == c {
      assert f[..|t|] == t;
      CStringStops(f, |t|);
    }
  }

  lemma {:induction false} CStringIsPrefix(f: Bytes)
    ensures CString(f) <= f
  {
    if f != [] && f[0] != NUL {
      CStringIsPrefix(f[1..]);
      assert f == [f[0]] + f[1..];
    }
  }

  lemma {:induction false} ChecksumIsSum(h: Bytes, n: nat)
    requires |h| == 512 && n <= 512
    ensures Sum(ChecksumView(h)[..n]) == Checksum(h, n)
  {
    var v := ChecksumView(h);
    if n > 0 {
      ChecksumIsSum(h, n - 1);
      assert v[..n][..n - 1] == v[..n - 1];
    } else {
      assert v[..0] == [];
    }
  }

  lemma FormatIff(h: Bytes)
    requires |h| == 512
    ensures FormatOk(Cut(h)) <==> Format(h)
  {
    hide Sum, ParseOctal;
    var f := Cut(h);
    assert h[257..265] == f.magic + f.version;
    assert |f.magic| == 6 && |f.version| == 2;
    FormatBytes(f.magic, f.version);
  }

  lemma FormatBytes(magic: Bytes, version: Bytes)
    requires |magic| == 6 && |version| == 2
    ensures (magic == MAGIC && version == VERSION) <==> magic + version == [117, 115, 116, 97, 114, 0, 48, 48]
    ensures (magic == GNU_MAGIC && version == GNU_VERSION) <==> magic + version == [117, 115, 116, 97, 114, 32, 32, 0]
  {
    var all := magic + version;
    assert magic == all[..6] && version == all[6..];
  }

  // ---------------------------------------------------------------------------
  // The block
  // ---------------------------------------------------------------------------

  lemma ChecksumIff(h: Bytes)
    requires |h| == 512
    ensures Cut(h).checksumOk <==> Octal(h[148..156], Checksum(h, 512))
  {
    hide ParseOctal, Octal, Sum, Checksum;
    ChecksumIsSum(h, 512);
    assert ChecksumView(h)[..512] == ChecksumView(h);
    OctalIff(h[148..156], Checksum(h, 512));
  }

  /** Without the checksum and format, and field by field. */
  lemma FieldsIff(f: Fields, p: Parsed)
    requires f.checksumOk && FormatOk(f)
    ensures ParseFields(f) == Some(p) <==>
      && (exists n :: Octal(f.mode, n)) && OctalOrBlank(f.uid) && OctalOrBlank(f.gid)
      && Octal(f.size, p.size) && OctalOrBlank(f.mtime)
      && Text(f.name, CString(f.name)) && CString(f.name) != []
      && Text(f.prefix, CString(f.prefix)) && Text(f.link, [])
      && p.path == (if CString(f.prefix) == [] then CString(f.name) else CString(f.prefix) + [47] + CString(f.name))
      && (if p.kind == Directory then f.typeFlag == 53 && p.size == 0 else f.typeFlag == 48 || f.typeFlag == 0)
  {
    hide ParseOctal, Octal, OctalOrBlank, CString, Text, StringFieldOk, NumberOk;
    NumberIff(f.mode);
    NumberIff(f.uid);
    NumberIff(f.gid);
    NumberIff(f.size);
    NumberIff(f.mtime);
    TextIff(f.name, false);
    TextIff(f.link, true);
    TextIff(f.prefix, true);
    OctalIff(f.size, p.size);
    if NumberOk(f.size, false) { SizeIsNumber(f.size); }
  }

  lemma SizeIsNumber(f: Bytes)
    requires NumberOk(f, false)
    ensures ParseOctal(f).Some?
  {
  }

  /** The same of a block, with the names its two fields hold. */
  lemma BlockIff(h: Bytes, p: Parsed)
    requires |h| == 512
    ensures var name, prefix := CString(h[0..100]), CString(h[345..500]);
      ParseHeader(h) == Some(p) <==>
        && Announces(h, name, prefix, p.kind.Directory?, p.size)
        && p.path == if prefix == [] then name else prefix + [47] + name
  {
    hide ParseFields, Octal, OctalOrBlank, CString, Text, FormatOk, Format, Checksum, Sum, ParseOctal;
    var f := Cut(h);
    ChecksumIff(h);
    FormatIff(h);
    if f.checksumOk && FormatOk(f) {
      FieldsIff(f, p);
    } else {
      NoFormat(f);
    }
  }

  /** The reader takes a block for this entry if and only if the block announces it. */
  lemma HeaderIff(h: Bytes, p: Parsed)
    requires |h| == 512
    ensures ParseHeader(h) == Some(p) <==>
      exists name, prefix :: Announces(h, name, prefix, p.kind.Directory?, p.size) &&
        p.path == if prefix == [] then name else prefix + [47] + name
  {
    hide Announces, ParseHeader, CString;
    BlockIff(h, p);
    forall name, prefix | Announces(h, name, prefix, p.kind.Directory?, p.size)
      ensures name == CString(h[0..100]) && prefix == CString(h[345..500])
    {
      AnnouncedNames(h, name, prefix, p.kind.Directory?, p.size);
    }
  }

  lemma AnnouncedNames(h: Bytes, name: Bytes, prefix: Bytes, directory: bool, size: nat)
    requires |h| == 512 && Announces(h, name, prefix, directory, size)
    ensures name == CString(h[0..100]) && prefix == CString(h[345..500])
  {
    hide Octal, OctalOrBlank, CString, Text, Format, Checksum;
    TextIff(h[0..100], false);
    TextIff(h[345..500], true);
  }

  lemma NoFormat(f: Fields)
    requires !f.checksumOk || !FormatOk(f)
    ensures ParseFields(f).None?
  {
  }
}
