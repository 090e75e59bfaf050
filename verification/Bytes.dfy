/** Byte strings. */
module Bytes {
  newtype byte = b: int | 0 <= b < 256
  type bytes = seq<byte>

  function Min(a: int, b: int): int { if a < b then a else b }

  function Concat(bs: seq<bytes>): bytes {
    if bs == [] then [] else bs[0] + Concat(bs[1..])
  }

  lemma Associative<T>(a: seq<T>, b: seq<T>, c: seq<T>)
    ensures a + b + c == a + (b + c)
  {
  }

  lemma {:induction false} ConcatSplits(a: seq<bytes>, b: seq<bytes>)
    ensures Concat(a + b) == Concat(a) + Concat(b)
  {
    if a == [] {
      assert a + b == b;
    } else {
      ConcatSplits(a[1..], b);
      assert (a + b)[1..] == a[1..] + b;
      Associative(a[0], Concat(a[1..]), Concat(b));
    }
  }
}
