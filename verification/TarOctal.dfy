/** The octal number fields and the checksum of a ustar header. */
module TarOctal {
  import opened Prelude

  const NUL: byte := 0
  const SPACE: byte := 32
  const ZERO: byte := 48
  const SEVEN: byte := 55
  const ULLONG_MAX: nat := 0xFFFF_FFFF_FFFF_FFFF

  predicate IsBlank(b: byte) { b == SPACE || b == NUL }
  predicate IsDigit(b: byte) { ZERO <= b <= SEVEN }

  predicate AllBlank(f: Bytes) {
    forall i :: 0 <= i < |f| ==> IsBlank(f[i])
  }

  predicate AllDigits(f: Bytes) {
    forall i :: 0 <= i < |f| ==> IsDigit(f[i])
  }

  function Fill(b: byte, n: nat): (f: Bytes)
    ensures |f| == n && forall i :: 0 <= i < n ==> f[i] == b
  {
    seq(n, _ => b)
  }

  function Pow8(n: nat): (p: nat)
    ensures p >= 1
  {
    if n == 0 then 1 else 8 * Pow8(n - 1)
  }

  /** The number a run of octal digits stands for. */
  function OctalValue(d: Bytes): nat
    requires AllDigits(d)
  {
    if d == [] then 0 else 8 * OctalValue(d[..|d| - 1]) + (d[|d| - 1] - ZERO) as nat
  }

  /** Exactly `w` octal digits of `v`, most significant first, leading zeros kept. */
  function OctalDigits(v: nat, w: nat): (d: Bytes)
    ensures |d| == w && AllDigits(d)
  {
    if w == 0 then [] else OctalDigits(v / 8, w - 1) + [ZERO + (v % 8) as byte]
  }

  /** A numeric field: `width - 1` digits and a NUL, saturated when the value does not fit. */
  function OctalField(v: nat, width: nat): (f: Bytes)
    requires width >= 1
    ensures |f| == width
  {
    (if v < Pow8(width - 1) then OctalDigits(v, width - 1) else Fill(SEVEN, width - 1)) + [NUL]
  }

  function LeadingBlanks(f: Bytes): (n: nat)
    ensures n <= |f| && AllBlank(f[..n]) && (n < |f| ==> !IsBlank(f[n]))
  {
    if f == [] || !IsBlank(f[0]) then 0
    else
      var n := 1 + LeadingBlanks(f[1..]);
      assert forall i :: 0 <= i < n ==> f[..n][i] == if i == 0 then f[0] else f[1..][..n - 1][i - 1];
      n
  }

  function LeadingDigits(f: Bytes): (n: nat)
    ensures n <= |f| && AllDigits(f[..n]) && (n < |f| ==> !IsDigit(f[n]))
  {
    if f == [] || !IsDigit(f[0]) then 0
    else
      var n := 1 + LeadingDigits(f[1..]);
      assert forall i :: 0 <= i < n ==> f[..n][i] == if i == 0 then f[0] else f[1..][..n - 1][i - 1];
      n
  }

  /** A field reads as blanks, then at least one digit, then only blanks, without 64-bit overflow. */
  function ParseOctal(f: Bytes): Option<nat> {
    var g := f[LeadingBlanks(f)..];
    var n := LeadingDigits(g);
    if n == 0 || !AllBlank(g[n..]) || OctalValue(g[..n]) > ULLONG_MAX then None
    else Some(OctalValue(g[..n]))
  }

  // ---------------------------------------------------------------------------
  // The reader's loop computes ParseOctal
  // ---------------------------------------------------------------------------

  lemma {:induction false} ValueMonotone(d: Bytes, i: nat)
    requires AllDigits(d) && i <= |d|
    ensures OctalValue(d[..i]) <= OctalValue(d)
  {
    if i < |d| {
      ValueMonotone(d[..|d| - 1], i);
      assert d[..|d| - 1][..i] == d[..i];
    } else {
      assert d[..i] == d;
    }
  }

  lemma DigitRunStops(g: Bytes, n: nat)
    requires n <= |g| && AllDigits(g[..n]) && (n < |g| ==> !IsDigit(g[n]))
    ensures LeadingDigits(g) == n
  {
    assert forall i :: 0 <= i < n ==> g[..n][i] == g[i];
    assert forall i :: 0 <= i < LeadingDigits(g) ==> g[..LeadingDigits(g)][i] == g[i];
  }

  lemma BlankRunStops(f: Bytes, n: nat)
    requires n <= |f| && AllBlank(f[..n]) && (n < |f| ==> !IsBlank(f[n]))
    ensures LeadingBlanks(f) == n
  {
    assert forall i :: 0 <= i < n ==> f[..n][i] == f[i];
    assert forall i :: 0 <= i < LeadingBlanks(f) ==> f[..LeadingBlanks(f)][i] == f[i];
  }

  lemma DigitRunIncludes(g: Bytes, n: nat)
    requires n <= |g| && AllDigits(g[..n])
    ensures n <= LeadingDigits(g)
  {
    assert forall i :: 0 <= i < n ==> g[..n][i] == g[i];
  }

  /** The digit loop: the run of digits and its value, or None on 64-bit overflow. */
  method ScanDigits(g: Bytes) returns (n: nat, value: Option<nat>)
    ensures value.None? ==> OctalValue(g[..LeadingDigits(g)]) > ULLONG_MAX
    ensures value.Some? ==> n == LeadingDigits(g) && value.value == OctalValue(g[..n]) <= ULLONG_MAX
  {
    n := 0;
    var v := 0;
    while n < |g| && IsDigit(g[n])
      invariant 0 <= n <= |g| && AllDigits(g[..n])
      invariant v == OctalValue(g[..n]) <= ULLONG_MAX
    {
      var digit := (g[n] - ZERO) as nat;
      assert g[..n + 1] == g[..n] + [g[n]];
      assert g[..n + 1][..n] == g[..n];
      if v > (ULLONG_MAX - digit) / 8 {
        DigitRunIncludes(g, n + 1);
        ValueMonotone(g[..LeadingDigits(g)], n + 1);
        assert g[..LeadingDigits(g)][..n + 1] == g[..n + 1];
        return n, None;
      }
      v := v * 8 + digit;
      n := n + 1;
    }
    DigitRunStops(g, n);
    value := Some(v);
  }

  method OnlyBlanks(f: Bytes) returns (ok: bool)
    ensures ok == AllBlank(f)
  {
    for i := 0 to |f|
      invariant forall k :: 0 <= k < i ==> IsBlank(f[k])
    {
      if !IsBlank(f[i]) {
        return false;
      }
    }
    ok := true;
  }

  method ParseTarOctal(field: Bytes) returns (r: Option<nat>)
    ensures r == ParseOctal(field)
  {
    var index := 0;
    while index < |field| && IsBlank(field[index])
      invariant 0 <= index <= |field| && AllBlank(field[..index])
    {
      assert field[..index + 1] == field[..index] + [field[index]];
      index := index + 1;
    }
    BlankRunStops(field, index);
    var n, value := ScanDigits(field[index..]);
    if value.None? {
      return None;
    }
    var clean := OnlyBlanks(field[index..][n..]);
    r := if n == 0 || !clean then None else value;
  }

  // ---------------------------------------------------------------------------
  // Round trip
  // ---------------------------------------------------------------------------

  lemma {:induction false} DigitsValue(v: nat, w: nat)
    ensures v < Pow8(w) ==> OctalValue(OctalDigits(v, w)) == v
  {
    if w > 0 {
      DigitsValue(v / 8, w - 1);
      assert OctalDigits(v, w)[..w - 1] == OctalDigits(v / 8, w - 1);
    }
  }

  lemma {:induction false} SevensValue(w: nat)
    ensures AllDigits(Fill(SEVEN, w)) && OctalValue(Fill(SEVEN, w)) == Pow8(w) - 1
  {
    if w > 0 {
      SevensValue(w - 1);
      assert Fill(SEVEN, w)[..w - 1] == Fill(SEVEN, w - 1);
    }
  }

  lemma Pow8Of21()
    ensures Pow8(21) == 0x8000_0000_0000_0000
  {
    assert Pow8(3) == 512;
    assert Pow8(6) == 512 * 512;
    assert Pow8(9) == 512 * 512 * 512;
    assert Pow8(12) == 512 * 512 * 512 * 512;
    assert Pow8(15) == 512 * 512 * 512 * 512 * 512;
    assert Pow8(18) == 512 * 512 * 512 * 512 * 512 * 512;
  }

  lemma {:induction false} Pow8Monotone(m: nat, n: nat)
    requires m <= n
    ensures Pow8(m) <= Pow8(n)
  {
    if m < n { Pow8Monotone(m, n - 1); }
  }

  lemma DigitsThenBlanks(d: Bytes, blanks: Bytes)
    requires d != [] && AllDigits(d) && AllBlank(blanks) && OctalValue(d) <= ULLONG_MAX
    ensures ParseOctal(d + blanks) == Some(OctalValue(d))
  {
    var f := d + blanks;
    assert IsDigit(d[0]) && f[0] == d[0];
    BlankRunStops(f, 0);
    assert f[0..] == f;
    assert f[..|d|] == d && f[|d|..] == blanks;
    DigitRunStops(f, |d|);
  }

  /** Reading a written field gives the value back, and a value too large for it gives the largest that fits. */
  lemma FieldRoundTrip(v: nat, width: nat)
    requires 2 <= width <= 22
    ensures ParseOctal(OctalField(v, width)) == Some(if v < Pow8(width - 1) then v else Pow8(width - 1) - 1)
  {
    hide ParseOctal, OctalValue;
    Pow8Of21();
    Pow8Monotone(width - 1, 21);
    DigitsValue(v, width - 1);
    SevensValue(width - 1);
    DigitsThenBlanks(if v < Pow8(width - 1) then OctalDigits(v, width - 1) else Fill(SEVEN, width - 1), [NUL]);
  }

  /** So a written size is read back as itself exactly when it is below 8^(width-1). */
  lemma FieldExactIff(v: nat, width: nat)
    requires 2 <= width <= 22
    ensures ParseOctal(OctalField(v, width)) == Some(v) <==> v < Pow8(width - 1)
  {
    FieldRoundTrip(v, width);
  }

  // ---------------------------------------------------------------------------
  // Checksum
  // ---------------------------------------------------------------------------

  function Sum(f: Bytes): (s: nat)
    ensures s <= 255 * |f|
  {
    if f == [] then 0 else Sum(f[..|f| - 1]) + f[|f| - 1] as nat
  }

  /** The checksum counts the eight checksum bytes as spaces. */
  function ChecksumView(header: Bytes): (v: Bytes)
    requires |header| == 512
    ensures |v| == 512
  {
    header[..148] + Fill(SPACE, 8) + header[156..]
  }

  method TarHeaderChecksum(header: Bytes) returns (checksum: nat)
    requires |header| == 512
    ensures checksum == Sum(ChecksumView(header))
  {
    checksum := 0;
    ghost var view := ChecksumView(header);
    for i := 0 to 512
      invariant checksum == Sum(view[..i])
    {
      assert view[..i + 1][..i] == view[..i];
      checksum := checksum + if 148 <= i < 156 then SPACE as nat else header[i] as nat;
    }
    assert view[..512] == view;
  }
}
