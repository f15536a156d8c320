/** Types shared by every module of the model. */
module Prelude {

  /** A C or Rust octet. */
  newtype byte = x: int | 0 <= x < 256

  type Bytes = seq<byte>

  datatype Option<+T> = None | Some(value: T)

  function Min(a: nat, b: nat): (m: nat)
    ensures m <= a && m <= b && (m == a || m == b)
  {
    if a < b then a else b
  }

  /** The bytes of a text of plain characters. */
  function Ascii(text: string): (b: Bytes)
    ensures |b| == |text| && forall i :: 0 <= i < |text| ==> b[i] as int == text[i] as int % 256
  {
    seq(|text|, i requires 0 <= i < |text| => (text[i] as int % 256) as byte)
  }

  /** Concatenation of a list of byte strings, in order. */
  function Concat(parts: seq<Bytes>): Bytes {
    if parts == [] then [] else parts[0] + Concat(parts[1..])
  }

  lemma {:induction false} ConcatAppend(parts: seq<Bytes>, more: seq<Bytes>)
    ensures Concat(parts + more) == Concat(parts) + Concat(more)
  {
    if parts == [] {
      assert parts + more == more;
    } else {
      assert (parts + more)[1..] == parts[1..] + more;
      ConcatAppend(parts[1..], more);
    }
  }

  lemma ConcatSnoc(parts: seq<Bytes>, last: Bytes)
    ensures Concat(parts + [last]) == Concat(parts) + last
  {
    ConcatAppend(parts, [last]);
    assert Concat([last]) == last + Concat([]) == last;
  }
}
