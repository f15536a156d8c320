/**
 * The frontend framing and the two request validators against PostgreSQL messages, with type bytes and sizes spelled
 * out.
 */
module WireRules {
  import opened Prelude
  import opened Frames
  import opened Wire

  /** A four-byte big-endian number. */
  lemma BigEndian(a: byte, b: byte, c: byte, d: byte)
    ensures Number([a, b, c, d]) == 16_777_216 * a as nat + 65_536 * b as nat + 256 * c as nat + d as nat
  {
  }

  /** A message: its type byte, the length of body and length field, the body. */
  lemma MessageBytes(m: Message)
    requires Sized(m)
    ensures var s := Encode(m);
      |s| == 5 + |m.body| && s[0] == m.tag && Number(s[1..5]) == 4 + |m.body| && s[5..] == m.body
  {
    hide Number, Digits;
  }

  /** A typed message of at most 128 MiB is taken whole, whatever follows it. */
  lemma TypedIsWhole(m: Message, rest: Bytes)
    requires m.tag != 0 && 5 + |m.body| <= 134_217_728
    ensures FrontendFront(Encode(m) + rest) == Whole(5 + |m.body|)
  {
    hide Number, Digits;
    var s := Encode(m) + rest;
    assert s[1..5] == Encode(m)[1..5];
    assert Length(s) == Length(Encode(m)) == 4 + |m.body|;
  }

  /** So is an untyped packet, which begins with its own length: 8 bytes or more, below 16 MiB. */
  lemma UntypedIsWhole(n: nat, body: Bytes, rest: Bytes)
    requires 8 <= n < 16_777_216 && |body| == n - 4
    ensures FrontendFront(Digits(n) + body + rest) == Whole(n)
  {
    hide Number, Digits;
    var s := Digits(n) + body + rest;
    assert s[..4] == Digits(n);
    FirstDigit(n);
  }

  lemma FirstDigit(n: nat)
    requires n < 16_777_216
    ensures Digits(n)[0] == 0
  {
  }

  /** An SSLRequest, as a client sends it first. */
  lemma SslRequestIsWhole(rest: Bytes)
    ensures FrontendFront([0, 0, 0, 8, 4, 210, 22, 47] + rest) == Whole(8)
  {
    assert Digits(8) == [0, 0, 0, 8];
    var s := [0, 0, 0, 8, 4, 210, 22, 47];
    assert s == Digits(8) + [4, 210, 22, 47];
    UntypedIsWhole(8, [4, 210, 22, 47], rest);
  }

  /** What can never become a message: a length too small for its own kind, or above 128 MiB. */
  lemma MalformedIff(s: Bytes)
    ensures FrontendFront(s).Malformed? <==>
      || (|s| >= 4 && s[0] == 0 && (Number(s[..4]) < 8 || Number(s[..4]) > 134_217_728))
      || (|s| >= 5 && s[0] != 0 && (Number(s[1..5]) < 4 || 1 + Number(s[1..5]) > 134_217_728))
  {
    hide Number;
  }

  /** And what is still incomplete. */
  lemma PartialIff(s: Bytes)
    requires !FrontendFront(s).Malformed?
    ensures FrontendFront(s).Partial? <==>
      || |s| < 4
      || (s[0] == 0 && |s| < Number(s[..4]))
      || (s[0] != 0 && (|s| < 5 || |s| < 1 + Number(s[1..5])))
  {
    hide Number;
  }

  // Query 'Q' 81, Sync 'S' 83, Parse 'P' 80, Bind 'B' 66, Describe 'D' 68, Execute 'E' 69, Close 'C' 67, Flush 'H' 72,
  // Terminate 'X' 88, PasswordMessage 'p' 112, CopyDone 'c' 99, CopyFail 'f' 102.

  /** One exchange: a Query with a terminated text alone, or extended messages and one Sync at the end. */
  lemma ExchangeIff(ms: seq<Message>)
    ensures OneExchange(ms) <==>
      || (exists text: Bytes :: ms == [Message(81, text + [0])])
      || (&& ms != [] && ms[|ms| - 1] == Message(83, [])
          && forall i :: 0 <= i < |ms| - 1 ==> ms[i].tag in {80, 66, 68, 69, 67, 72})
  {
    if text: Bytes :| ms == [Message(81, text + [0])] {
      assert (text + [0])[|text|] == 0;
    }
    if |ms| == 1 && ms[0].tag == 81 && ms[0].body != [] && ms[0].body[|ms[0].body| - 1] == 0 {
      var body := ms[0].body;
      assert body == body[..|body| - 1] + [0];
      assert ms == [Message(81, body[..|body| - 1] + [0])];
    }
  }

  /** A request the desktop broker can count: no Terminate or password, complete, and ending in a completing message. */
  lemma CountableIff(ms: seq<Message>)
    ensures Countable(ms) <==>
      && ms != [] && ms[|ms| - 1].tag in {81, 83, 99, 102}
      && (forall i :: 0 <= i < |ms| ==> ms[i].tag != 88 && ms[i].tag != 112)
      && exists i :: 0 <= i < |ms| && (ms[i].tag == 81 || ms[i].tag == 83)
  {
    SomeBoundary(ms);
  }

  lemma {:induction false} SomeBoundary(ms: seq<Message>)
    ensures Boundaries(ms) > 0 <==> exists i :: 0 <= i < |ms| && (ms[i].tag == 81 || ms[i].tag == 83)
  {
    if ms != [] {
      SomeBoundary(ms[1..]);
      assert forall i :: 1 <= i < |ms| ==> ms[i] == ms[1..][i - 1];
    }
  }

  /** The count is the number of Query and Sync messages. */
  lemma {:induction false} BoundaryCount(ms: seq<Message>)
    ensures Boundaries(ms) == |set i | 0 <= i < |ms| && (ms[i].tag == 81 || ms[i].tag == 83)|
  {
    var here := set i | 0 <= i < |ms| && (ms[i].tag == 81 || ms[i].tag == 83);
    if ms == [] {
      assert here == {};
    } else {
      var front, m := ms[..|ms| - 1], ms[|ms| - 1];
      assert ms == front + [m];
      BoundariesSnoc(front, m);
      BoundaryCount(front);
      var before := set i | 0 <= i < |front| && (front[i].tag == 81 || front[i].tag == 83);
      assert here == before + if m.tag == 81 || m.tag == 83 then {|front|} else {};
    }
  }
}
