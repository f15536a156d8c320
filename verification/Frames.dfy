/**
 * PostgreSQL protocol 3.0 messages: one type byte, a four-byte big-endian length that counts
 * itself, and a body. Backend output and frontend input share this framing.
 */
module Frames {
  import opened Prelude

  const HEADER_BYTES := 5

  function Number(b: Bytes): (n: nat)
    requires |b| == 4
    ensures n < 0x1_0000_0000
  {
    b[0] as nat * 0x1000000 + b[1] as nat * 0x10000 + b[2] as nat * 0x100 + b[3] as nat
  }

  function Digits(n: nat): (b: Bytes)
    requires n < 0x1_0000_0000
    ensures |b| == 4 && Number(b) == n
  {
    var q1 := n / 0x100;
    var q2 := q1 / 0x100;
    var q3 := q2 / 0x100;
    [q3 as byte, (q2 % 0x100) as byte, (q1 % 0x100) as byte, (n % 0x100) as byte]
  }

  /** The length word of a message whose header is present. */
  function Length(s: Bytes): (n: nat)
    requires |s| >= HEADER_BYTES
    ensures n < 0x1_0000_0000
  {
    Number(s[1..5])
  }

  datatype Message = Message(tag: byte, body: Bytes)

  /** A body the length word can describe. */
  predicate Sized(m: Message) { |m.body| + 4 < 0x1_0000_0000 }

  function Encode(m: Message): (s: Bytes)
    requires Sized(m)
    ensures |s| == 5 + |m.body| && s[0] == m.tag && Length(s) == |m.body| + 4 && s[5..] == m.body
  {
    var s := [m.tag] + Digits(|m.body| + 4) + m.body;
    assert s[1..5] == Digits(|m.body| + 4);
    s
  }

  function EncodeMessages(ms: seq<Message>): Bytes
    requires forall i :: 0 <= i < |ms| ==> Sized(ms[i])
  {
    if ms == [] then [] else Encode(ms[0]) + EncodeMessages(ms[1..])
  }

  // ---------------------------------------------------------------------------
  // The front of a byte stream
  // ---------------------------------------------------------------------------

  datatype Front = Partial | Malformed | Whole(size: nat)

  /** What the first bytes of a stream amount to. */
  function FrontOf(s: Bytes): (f: Front)
    ensures f.Whole? ==> 5 <= f.size <= |s|
  {
    if |s| < HEADER_BYTES then Partial
    else if Length(s) < 4 then Malformed
    else if 1 + Length(s) > |s| then Partial
    else Whole(1 + Length(s))
  }

  /** More bytes never change a front that was already decided. */
  lemma FrontIsStable(s: Bytes, more: Bytes)
    requires !FrontOf(s).Partial?
    ensures FrontOf(s + more) == FrontOf(s)
  {
    assert (s + more)[1..5] == s[1..5];
  }

  lemma FrontOfEncoded(m: Message, rest: Bytes)
    requires Sized(m)
    ensures FrontOf(Encode(m) + rest) == Whole(5 + |m.body|)
    ensures var s := Encode(m) + rest; s[..5 + |m.body|] == Encode(m) && s[5 + |m.body|..] == rest
  {
    FrontIsStable(Encode(m), rest);
  }
}
