/** A sequence of pieces, some possibly empty, and the one flat sequence it stands for. */
module Scatter {
  import opened Common

  function Flat<T>(bs: seq<seq<T>>): (s: seq<T>)
  {
    if bs == [] then [] else bs[0] + Flat(bs[1..])
  }

  /** The flat position at which piece `i` starts. */
  function Offset<T>(bs: seq<seq<T>>, i: nat): (n: nat)
    requires i <= |bs|
  {
    if i == 0 then 0 else Offset(bs, i - 1) + |bs[i - 1]|
  }

  lemma {:induction false} OffsetMonotone<T>(bs: seq<seq<T>>, i: nat, j: nat)
    requires i <= j <= |bs|
    ensures Offset(bs, i) <= Offset(bs, j)
  {
    if i < j { OffsetMonotone(bs, i, j - 1); }
  }

  lemma {:induction false} OffsetTail<T>(bs: seq<seq<T>>, i: nat)
    requires 0 < i <= |bs|
    ensures Offset(bs, i) == |bs[0]| + Offset(bs[1..], i - 1)
  {
    if i > 1 { OffsetTail(bs, i - 1); }
  }

  /** The end offset is the flat length. */
  lemma {:induction false} OffsetEnd<T>(bs: seq<seq<T>>)
    ensures Offset(bs, |bs|) == |Flat(bs)|
  {
    if bs != [] {
      OffsetEnd(bs[1..]);
      OffsetTail(bs, |bs|);
    }
  }

  /** Piece `i` sits in the flat sequence at its offset. */
  lemma {:induction false} PieceInFlat<T>(bs: seq<seq<T>>, i: nat)
    requires i < |bs|
    ensures Offset(bs, i) + |bs[i]| <= |Flat(bs)|
    ensures forall k :: 0 <= k < |bs[i]| ==> Flat(bs)[Offset(bs, i) + k] == bs[i][k]
  {
    if i > 0 {
      PieceInFlat(bs[1..], i - 1);
      OffsetTail(bs, i);
    }
  }

  /** Overwriting part of one piece overwrites that part of the flat sequence. */
  lemma {:induction false} SpliceInFlat<T>(bs: seq<seq<T>>, i: nat, at: nat, src: seq<T>)
    requires i < |bs| && at + |src| <= |bs[i]|
    ensures Offset(bs, i) + at + |src| <= |Flat(bs)|
    ensures Flat(bs[i := Splice(bs[i], at, src)]) == Splice(Flat(bs), Offset(bs, i) + at, src)
  {
    PieceInFlat(bs, i);
    var bs' := bs[i := Splice(bs[i], at, src)];
    if i == 0 {
      assert bs'[1..] == bs[1..];
      SpliceLeft(bs[0], Flat(bs[1..]), at, src);
    } else {
      assert bs'[1..] == bs[1..][i - 1 := Splice(bs[i], at, src)];
      SpliceInFlat(bs[1..], i - 1, at, src);
      OffsetTail(bs, i);
      SpliceRight(bs[0], Flat(bs[1..]), Offset(bs[1..], i - 1) + at, src);
    }
  }

  lemma SpliceRight<T>(a: seq<T>, b: seq<T>, at: nat, src: seq<T>)
    requires at + |src| <= |b|
    ensures a + Splice(b, at, src) == Splice(a + b, |a| + at, src)
  {
  }

  lemma SpliceLeft<T>(a: seq<T>, b: seq<T>, at: nat, src: seq<T>)
    requires at + |src| <= |a|
    ensures Splice(a, at, src) + b == Splice(a + b, at, src)
  {
  }
}
