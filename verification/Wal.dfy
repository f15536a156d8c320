/** The range of write-ahead-log segments a backup must carry. */
module Wal {
  import opened Prelude

  const XLOGID_BYTES: nat := 0x1_0000_0000
  const UINT32: nat := 0x1_0000_0000

  /** A segment: its timeline, and its number counted through all logs. */
  datatype Position = Position(timeline: nat, ordinal: nat)

  // ---------------------------------------------------------------------------
  // Eight upper-case hexadecimal digits
  // ---------------------------------------------------------------------------

  function HexChar(v: nat): (b: byte)
    requires v < 16
  {
    if v < 10 then (48 + v) as byte else (55 + v) as byte
  }

  function HexValue(b: byte): (r: Option<nat>)
    ensures r.Some? ==> r.value < 16
  {
    if 48 <= b <= 57 then Some((b - 48) as nat)
    else if 65 <= b <= 70 then Some((b - 55) as nat)
    else None
  }

  lemma HexCharValue(v: nat)
    requires v < 16
    ensures HexValue(HexChar(v)) == Some(v)
  {
  }

  lemma HexValueChar(b: byte)
    requires HexValue(b).Some?
    ensures HexChar(HexValue(b).value) == b
  {
  }

  function Pow16(n: nat): (p: nat)
    ensures p >= 1
  {
    if n == 0 then 1 else 16 * Pow16(n - 1)
  }

  function HexDigits(v: nat, w: nat): (d: Bytes)
    ensures |d| == w
  {
    if w == 0 then [] else HexDigits(v / 16, w - 1) + [HexChar(v % 16)]
  }

  function HexNumber(d: Bytes): (r: Option<nat>)
    ensures r.Some? ==> r.value < Pow16(|d|)
  {
    if d == [] then Some(0)
    else
      match (HexNumber(d[..|d| - 1]), HexValue(d[|d| - 1]))
      case (Some(high), Some(low)) => Some(16 * high + low)
      case _ => None
  }

  lemma {:induction false} DigitsNumber(v: nat, w: nat)
    requires v < Pow16(w)
    ensures HexNumber(HexDigits(v, w)) == Some(v)
  {
    if w > 0 {
      DigitsNumber(v / 16, w - 1);
      HexCharValue(v % 16);
      assert HexDigits(v, w)[..w - 1] == HexDigits(v / 16, w - 1);
    }
  }

  lemma {:induction false} NumberDigits(d: Bytes)
    requires HexNumber(d).Some?
    ensures HexDigits(HexNumber(d).value, |d|) == d
  {
    if d != [] {
      NumberDigits(d[..|d| - 1]);
      HexValueChar(d[|d| - 1]);
      assert d == d[..|d| - 1] + [d[|d| - 1]];
    }
  }

  lemma Pow16Of8()
    ensures Pow16(8) == UINT32
  {
    assert Pow16(4) == 65536;
    assert Pow16(6) == 65536 * 256;
  }

  // ---------------------------------------------------------------------------
  // Segment names
  // ---------------------------------------------------------------------------

  /** One bit set, which is what `(n & (n - 1)) == 0` asks of a positive number. */
  predicate PowerOfTwo(n: nat) {
    n == 1 || (n > 1 && n % 2 == 0 && PowerOfTwo(n / 2))
  }

  predicate LegalSegmentSize(size: nat) {
    && 1024 * 1024 <= size <= 1024 * 1024 * 1024
    && PowerOfTwo(size)
    && XLOGID_BYTES % size == 0
  }

  function SegmentsPerLog(size: nat): (n: nat)
    requires LegalSegmentSize(size)
    ensures 4 <= n <= 4096
  {
    SegmentsBound(size);
    XLOGID_BYTES / size
  }

  lemma TimesMonotone(a: nat, b: nat, c: nat)
    requires a <= b
    ensures a * c <= b * c
  {
    assert b * c - a * c == (b - a) * c >= 0;
  }

  lemma SegmentsBound(size: nat)
    requires LegalSegmentSize(size)
    ensures 4 <= XLOGID_BYTES / size <= 4096
  {
    var n := XLOGID_BYTES / size;
    assert n * size == XLOGID_BYTES;
    if n < 4 { TimesMonotone(n, 3, size); }
    if n > 4096 { TimesMonotone(4097, n, size); }
  }

  function Pow2(n: nat): (p: nat)
    ensures p >= 1
  {
    if n == 0 then 1 else 2 * Pow2(n - 1)
  }

  lemma {:induction false} PowerIsPower(k: nat)
    ensures PowerOfTwo(Pow2(k))
  {
    if k > 0 {
      PowerIsPower(k - 1);
      assert Pow2(k) / 2 == Pow2(k - 1);
    }
  }

  lemma {:induction false} LogOf(n: nat) returns (k: nat)
    requires PowerOfTwo(n)
    ensures n == Pow2(k)
  {
    if n == 1 {
      k := 0;
    } else {
      k := LogOf(n / 2);
      k := k + 1;
    }
  }

  lemma {:induction false} Pow2Plus(a: nat, b: nat)
    ensures Pow2(a + b) == Pow2(a) * Pow2(b)
  {
    if a > 0 {
      Pow2Plus(a - 1, b);
      assert 2 * (Pow2(a - 1) * Pow2(b)) == 2 * Pow2(a - 1) * Pow2(b);
    }
  }

  lemma SmallPowers()
    ensures Pow2(10) == 1024 && Pow2(20) == 1_048_576 && Pow2(30) == 1_073_741_824 && Pow2(32) == 4_294_967_296
  {
    assert Pow2(5) == 32;
    Pow2Plus(5, 5);
    Pow2Plus(10, 10);
    Pow2Plus(20, 10);
    assert Pow2(2) == 4;
    Pow2Plus(30, 2);
  }

  lemma {:induction false} Pow2Monotone(a: nat, b: nat)
    requires a < b
    ensures Pow2(a) < Pow2(b)
  {
    if a + 1 < b { Pow2Monotone(a, b - 1); }
  }

  /** The segment sizes PostgreSQL knows: powers of two from 1 MiB to 1 GiB, 16 MiB among them. */
  lemma LegalSizes(size: nat)
    ensures LegalSegmentSize(size) <==> exists k :: 20 <= k <= 30 && size == Pow2(k)
    ensures LegalSegmentSize(16_777_216)
  {
    SmallPowers();
    forall k | 20 <= k <= 30 ensures LegalSegmentSize(Pow2(k)) { PowerIsLegal(k); }
    assert Pow2(4) == 16;
    Pow2Plus(20, 4);
    if LegalSegmentSize(size) {
      var k := LogOf(size);
      if k < 20 { Pow2Monotone(k, 20); }
      if k > 30 { Pow2Monotone(30, k); }
    }
  }

  lemma PowerIsLegal(k: nat)
    requires 20 <= k <= 30
    ensures LegalSegmentSize(Pow2(k))
  {
    hide PowerOfTwo;
    SmallPowers();
    PowerIsPower(k);
    if k > 20 { Pow2Monotone(20, k); }
    if k < 30 { Pow2Monotone(k, 30); }
    Pow2Plus(32 - k, k);
    NoRemainder(Pow2(32 - k), Pow2(k));
  }

  lemma NoRemainder(a: nat, b: nat)
    requires b > 0
    ensures (a * b) % b == 0
  {
    assert (a * b) / b == a by { DivOf(a, 0, b); }
    DivOf(a, 0, b);
  }

  /** Digits as in "0123456789ABCDEF"; anything else, lower case too, is no digit. */
  lemma HexDigitsAre(b: byte, v: nat)
    ensures HexValue(b) == Some(v) <==> v < 16 && b == Ascii("0123456789ABCDEF")[v]
  {
  }

  /** Three eight-digit numbers: timeline, log, segment within the log. */
  function ParseName(name: Bytes, perLog: nat): Option<Position> {
    if |name| != 24 then None
    else
      match (HexNumber(name[..8]), HexNumber(name[8..16]), HexNumber(name[16..]))
      case (Some(timeline), Some(log), Some(segment)) =>
        if segment >= perLog then None else Some(Position(timeline, log * perLog + segment))
      case _ => None
  }

  /** The C format with its casts to 32 bits. */
  function FormatName(p: Position, perLog: nat): (name: Bytes)
    requires perLog > 0
    ensures |name| == 24
  {
    HexDigits(p.timeline, 8) + HexDigits((p.ordinal / perLog) % UINT32, 8) + HexDigits((p.ordinal % perLog) % UINT32, 8)
  }

  /** Positions a 24-character name can express. */
  predicate Expressible(p: Position, perLog: nat) {
    perLog > 0 && p.timeline < UINT32 && p.ordinal / perLog < UINT32
  }

  lemma DivOf(log: nat, segment: nat, perLog: nat)
    requires segment < perLog
    ensures (log * perLog + segment) / perLog == log && (log * perLog + segment) % perLog == segment
  {
    var n := log * perLog + segment;
    assert n == perLog * (n / perLog) + n % perLog;
    var q := n / perLog;
    if q < log { TimesMonotone(q, log - 1, perLog); }
    if q > log { TimesMonotone(log + 1, q, perLog); }
  }

  lemma Recompose(n: nat, perLog: nat)
    requires perLog > 0
    ensures (n / perLog) * perLog + n % perLog == n && n % perLog < perLog
  {
  }

  lemma NameParses(timeline: nat, log: nat, segment: nat, perLog: nat)
    requires timeline < UINT32 && log < UINT32 && segment < UINT32 && segment < perLog
    ensures ParseName(HexDigits(timeline, 8) + HexDigits(log, 8) + HexDigits(segment, 8), perLog) ==
            Some(Position(timeline, log * perLog + segment))
  {
    hide HexDigits, HexNumber, Pow16;
    Pow16Of8();
    var a, b, c := HexDigits(timeline, 8), HexDigits(log, 8), HexDigits(segment, 8);
    ThreeParts(a, b, c);
    DigitsNumber(timeline, 8);
    DigitsNumber(log, 8);
    DigitsNumber(segment, 8);
  }

  lemma ThreeParts(a: Bytes, b: Bytes, c: Bytes)
    requires |a| == |b| == |c| == 8
    ensures var name := a + b + c; |name| == 24 && name[..8] == a && name[8..16] == b && name[16..] == c
  {
  }

  /** Formatting then parsing is the identity, and the casts lose nothing. */
  lemma ParseOfFormat(p: Position, perLog: nat)
    requires Expressible(p, perLog) && perLog <= 4096
    ensures ParseName(FormatName(p, perLog), perLog) == Some(p)
    ensures (p.ordinal / perLog) % UINT32 == p.ordinal / perLog && (p.ordinal % perLog) % UINT32 == p.ordinal % perLog
  {
    hide HexDigits, ParseName;
    Recompose(p.ordinal, perLog);
    NameParses(p.timeline, p.ordinal / perLog, p.ordinal % perLog, perLog);
  }

  /** Parsing then formatting is the identity. */
  lemma FormatOfParse(name: Bytes, perLog: nat)
    requires ParseName(name, perLog).Some? && perLog <= 4096
    ensures Expressible(ParseName(name, perLog).value, perLog)
    ensures FormatName(ParseName(name, perLog).value, perLog) == name
  {
    hide HexDigits, HexNumber;
    Pow16Of8();
    var log, segment := HexNumber(name[8..16]).value, HexNumber(name[16..]).value;
    DivOf(log, segment, perLog);
    NumberDigits(name[..8]);
    NumberDigits(name[8..16]);
    NumberDigits(name[16..]);
    assert name == name[..8] + name[8..16] + name[16..];
  }

  // ---------------------------------------------------------------------------
  // The loops
  // ---------------------------------------------------------------------------

  /** One eight-digit part, shifted in digit by digit. */
  method ParsePart(digits: Bytes) returns (r: Option<nat>)
    ensures r == HexNumber(digits)
  {
    var value := 0;
    for i := 0 to |digits|
      invariant HexNumber(digits[..i]) == Some(value)
    {
      assert digits[..i + 1][..i] == digits[..i];
      var v := HexValue(digits[i]);
      if v.None? {
        NoNumber(digits, i + 1);
        return None;
      }
      value := 16 * value + v.value;
    }
    assert digits[..|digits|] == digits;
    r := Some(value);
  }

  lemma {:induction false} NoNumber(d: Bytes, i: nat)
    requires i <= |d| && HexNumber(d[..i]).None?
    ensures HexNumber(d).None?
  {
    if i < |d| {
      assert d[..|d| - 1][..i] == d[..i];
      NoNumber(d[..|d| - 1], i);
    } else {
      assert d[..i] == d;
    }
  }

  method ParseWalFile(name: Bytes, perLog: nat) returns (r: Option<Position>)
    ensures r == ParseName(name, perLog)
  {
    hide HexNumber;
    if |name| != 24 {
      return None;
    }
    var timeline := ParsePart(name[..8]);
    var log := ParsePart(name[8..16]);
    var segment := ParsePart(name[16..]);
    if timeline.None? || log.None? || segment.None? || segment.value >= perLog {
      return None;
    }
    r := Some(Position(timeline.value, log.value * perLog + segment.value));
  }

  /** When the visitor runs at all. */
  predicate RangeOk(start: Bytes, stop: Bytes, size: nat) {
    && LegalSegmentSize(size)
    && ParseName(start, SegmentsPerLog(size)).Some? && ParseName(stop, SegmentsPerLog(size)).Some?
    && var a, b := ParseName(start, SegmentsPerLog(size)).value, ParseName(stop, SegmentsPerLog(size)).value;
       a.timeline == b.timeline && a.ordinal <= b.ordinal
  }

  /** `names` are the segments from `start` on, one after the other, on its timeline. */
  ghost predicate Consecutive(names: seq<Bytes>, first: Position, perLog: nat) {
    forall i :: 0 <= i < |names| ==> ParseName(names[i], perLog) == Some(Position(first.timeline, first.ordinal + i))
  }

  /** The whole range: no gap, no repetition, both ends included. */
  ghost predicate IsRange(names: seq<Bytes>, start: Bytes, stop: Bytes, perLog: nat) {
    && ParseName(start, perLog).Some? && ParseName(stop, perLog).Some?
    && var a, b := ParseName(start, perLog).value, ParseName(stop, perLog).value;
       && names != [] && |names| == b.ordinal - a.ordinal + 1
       && Consecutive(names, a, perLog)
       && names[0] == start && names[|names| - 1] == stop
  }

  lemma SegmentExpressible(p: Position, last: Position, perLog: nat)
    requires Expressible(last, perLog) && p.timeline == last.timeline && p.ordinal <= last.ordinal
    ensures Expressible(p, perLog)
  {
    var a, b := p.ordinal / perLog, last.ordinal / perLog;
    Recompose(p.ordinal, perLog);
    Recompose(last.ordinal, perLog);
    if a > b { TimesMonotone(b + 1, a, perLog); }
  }

  /** The segments of the range, by number. */
  function WalNames(start: Bytes, stop: Bytes, size: nat): (names: seq<Bytes>)
    requires RangeOk(start, stop, size)
  {
    var perLog := SegmentsPerLog(size);
    var a, b := ParseName(start, perLog).value, ParseName(stop, perLog).value;
    seq(b.ordinal - a.ordinal + 1, i requires 0 <= i => FormatName(Position(a.timeline, a.ordinal + i), perLog))
  }

  /** For every legal size and accepted names the range is complete, gapless, and ends where it should. */
  lemma WalNamesAreTheRange(start: Bytes, stop: Bytes, size: nat)
    requires RangeOk(start, stop, size)
    ensures IsRange(WalNames(start, stop, size), start, stop, SegmentsPerLog(size))
  {
    hide ParseName, FormatName, PowerOfTwo;
    var perLog := SegmentsPerLog(size);
    var a, b := ParseName(start, perLog).value, ParseName(stop, perLog).value;
    var names := WalNames(start, stop, size);
    FormatOfParse(start, perLog);
    FormatOfParse(stop, perLog);
    forall i | 0 <= i < |names| ensures ParseName(names[i], perLog) == Some(Position(a.timeline, a.ordinal + i)) {
      var p := Position(a.timeline, a.ordinal + i);
      SegmentExpressible(p, b, perLog);
      ParseOfFormat(p, perLog);
    }
  }

  /** The visitor loop, with a visitor that never fails. */
  method VisitWalRange(start: Bytes, stop: Bytes, size: nat) returns (r: Option<seq<Bytes>>)
    ensures r.Some? <==> RangeOk(start, stop, size)
    ensures r.Some? ==> r.value == WalNames(start, stop, size)
  {
    hide ParseName, FormatName, PowerOfTwo;
    if !LegalSegmentSize(size) {
      return None;
    }
    var perLog := SegmentsPerLog(size);
    var first := ParseWalFile(start, perLog);
    var last := ParseWalFile(stop, perLog);
    if first.None? || last.None? || first.value.timeline != last.value.timeline ||
       first.value.ordinal > last.value.ordinal {
      return None;
    }
    var names: seq<Bytes> := [];
    var ordinal := first.value.ordinal;
    while true
      invariant first.value.ordinal <= ordinal <= last.value.ordinal
      invariant names == WalNames(start, stop, size)[..ordinal - first.value.ordinal]
      decreases last.value.ordinal - ordinal
    {
      names := names + [FormatName(Position(first.value.timeline, ordinal), perLog)];
      if ordinal == last.value.ordinal {
        break;
      }
      ordinal := ordinal + 1;
    }
    r := Some(names);
  }

  /** A range never repeats a name. */
  lemma RangeIsDistinct(names: seq<Bytes>, start: Bytes, stop: Bytes, perLog: nat, i: nat, j: nat)
    requires IsRange(names, start, stop, perLog) && i < j < |names|
    ensures names[i] != names[j]
  {
    hide ParseName;
    assert ParseName(names[i], perLog) != ParseName(names[j], perLog);
  }
}
