/** Bytes, the type of an unsigned short, and concatenation. */
module Bytes {
  type byte = x: int | 0 <= x < 256
  type u16 = x: int | 0 <= x < 65536

  /** The value of an `unsigned short` parameter that is given n. */
  function Truncate(n: nat): u16 { n % 65536 }

  function Concat<T>(ps: seq<seq<T>>): seq<T> {
    if |ps| == 0 then [] else ps[0] + Concat(ps[1..])
  }

  function TotalLength<T>(ps: seq<seq<T>>): nat {
    if |ps| == 0 then 0 else |ps[0]| + TotalLength(ps[1..])
  }

  /** What is left of each piece when its length has become an `unsigned short`. */
  function Carry(ps: seq<seq<byte>>): seq<seq<byte>> {
    if |ps| == 0 then [] else [ps[0][..Truncate(|ps[0]|)]] + Carry(ps[1..])
  }

  /** Pieces that an `unsigned short` length can carry and that do not look like the end: not empty, and at
      most 65535 bytes. */
  predicate Carried(p: seq<byte>) { 0 < |p| < 65536 }

  predicate AllCarried(ps: seq<seq<byte>>) { forall i :: 0 <= i < |ps| ==> Carried(ps[i]) }

  lemma {:induction false} CarrySnoc(ps: seq<seq<byte>>, p: seq<byte>)
    ensures Carry(ps + [p]) == Carry(ps) + [p[..Truncate(|p|)]]
  {
    if |ps| == 0 {
      assert ps + [p] == [p];
    } else {
      CarrySnoc(ps[1..], p);
      assert (ps + [p])[1..] == ps[1..] + [p];
    }
  }

  lemma {:induction false} ConcatLength<T>(ps: seq<seq<T>>)
    ensures |Concat(ps)| == TotalLength(ps)
  {
    if |ps| != 0 { ConcatLength(ps[1..]); }
  }

  lemma {:induction false} ConcatSnoc<T>(ps: seq<seq<T>>, p: seq<T>)
    ensures Concat(ps + [p]) == Concat(ps) + p
  {
    if |ps| == 0 {
      assert ps + [p] == [p];
    } else {
      ConcatSnoc(ps[1..], p);
      assert (ps + [p])[1..] == ps[1..] + [p];
    }
  }

  /** The value is kept if it fits, and otherwise is what is left of it when 65536 is taken away again and again. */
  lemma {:induction false} TruncateMeans(n: nat, k: nat)
    ensures n < 65536 ==> Truncate(n + 65536 * k) == n
    decreases k
  {
    if k > 0 { TruncateMeans(n, k - 1); }
  }

  /** A piece is carried whole exactly if it fits. */
  lemma CarriesWhole(p: seq<byte>)
    ensures p[..Truncate(|p|)] == p <==> |p| < 65536
  {
  }
}
