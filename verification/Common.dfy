/** Vocabulary shared by the whole model. */
module Common {

  newtype byte = x: int | 0 <= x < 256

  const INT32_MAX: int := 0x7fff_ffff

  datatype Option<+T> = None | Some(value: T)

  function Min(a: int, b: int): (r: int)
  {
    if a < b then a else b
  }

  function Max(a: int, b: int): (r: int)
  {
    if a < b then b else a
  }

  /** `d` with `src` written over it from index `at` on. */
  function Splice<T>(d: seq<T>, at: nat, src: seq<T>): (r: seq<T>)
    requires at + |src| <= |d|
    ensures |r| == |d|
  {
    d[..at] + src + d[at + |src|..]
  }

  lemma SpliceAdjacent<T>(d: seq<T>, at: nat, a: seq<T>, b: seq<T>)
    requires at + |a| + |b| <= |d|
    ensures Splice(Splice(d, at, a), at + |a|, b) == Splice(d, at, a + b)
  {
  }

  lemma SpliceFront<T>(d: seq<T>, src: seq<T>)
    requires |src| <= |d|
    ensures Splice(d, 0, src)[..|src|] == src
  {
  }

  lemma Regroup<T>(a: seq<T>, b: seq<T>, c: seq<T>)
    ensures (a + b) + c == a + (b + c)
  {
  }
}
