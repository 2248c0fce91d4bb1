/** The tokenizer: `split` against the maximal delimiter-free runs. */
module Tokenizer {
  import opened Common
  import opened Scatter

  datatype Span = Span(lo: nat, hi: nat)

  /** A run of non-delimiters that cannot be extended on either side. */
  ghost predicate MaximalRun(src: string, delim: string, r: Span)
  {
    && r.lo < r.hi <= |src|
    && (forall i :: r.lo <= i < r.hi ==> src[i] !in delim)
    && (r.lo == 0 || src[r.lo - 1] in delim)
    && (r.hi == |src| || src[r.hi] in delim)
  }

  /** The first index from `i` on whose character is (or is not) a delimiter, or the end. */
  function Seek(src: string, delim: string, i: nat, wanted: bool): (k: nat)
    requires i <= |src|
    ensures i <= k <= |src|
    ensures k < |src| ==> (src[k] in delim) == wanted
    decreases |src| - i
  {
    if i == |src| || (src[i] in delim) == wanted then i else Seek(src, delim, i + 1, wanted)
  }

  /** Nothing wanted is passed over. */
  lemma {:induction false} SeekPasses(src: string, delim: string, i: nat, wanted: bool)
    requires i <= |src|
    ensures forall j :: i <= j < Seek(src, delim, i, wanted) ==> (src[j] in delim) != wanted
    decreases |src| - i
  {
    if i < |src| && (src[i] in delim) != wanted { SeekPasses(src, delim, i + 1, wanted); }
  }

  function Runs(src: string, delim: string, i: nat): (rs: seq<Span>)
    requires i <= |src|
    decreases |src| - i
  {
    var lo := Seek(src, delim, i, false);
    if lo == |src| then []
    else
      var hi := Seek(src, delim, lo, true);
      [Span(lo, hi)] + Runs(src, delim, hi)
  }

  ghost predicate Boundary(src: string, delim: string, i: nat)
  {
    i <= |src| && (i == 0 || i == |src| || src[i] in delim)
  }

  /** From a boundary on, the runs are exactly the maximal ones, from left to right. */
  lemma {:induction false} RunsFromAreMaximal(src: string, delim: string, i: nat)
    requires Boundary(src, delim, i)
    ensures forall r :: r in Runs(src, delim, i) <==> i <= r.lo && MaximalRun(src, delim, r)
    ensures forall k, l :: 0 <= k < l < |Runs(src, delim, i)| ==> Runs(src, delim, i)[k].hi < Runs(src, delim, i)[l].lo
    decreases |src| - i
  {
    var lo := Seek(src, delim, i, false);
    SeekPasses(src, delim, i, false);
    if lo < |src| {
      var hi := Seek(src, delim, lo, true);
      SeekPasses(src, delim, lo, true);
      RunsFromAreMaximal(src, delim, hi);
      var first, rest := Span(lo, hi), Runs(src, delim, hi);
      assert MaximalRun(src, delim, first);
      forall r: Span | i <= r.lo && MaximalRun(src, delim, r)
        ensures r == first || r in rest
      {
        assert src[r.lo] !in delim;
        assert lo <= r.lo;
        if r.lo == lo {
          assert r.hi == hi;
        } else {
          assert hi <= r.lo - 1;
        }
      }
      forall r | r in rest ensures hi < r.lo {
        assert MaximalRun(src, delim, r);
      }
    } else {
      forall r: Span | i <= r.lo ensures !MaximalRun(src, delim, r) {
        if r.lo < r.hi <= |src| { assert src[r.lo] in delim; }
      }
    }
  }

  /** The runs are exactly the maximal delimiter-free runs of the input, in order. */
  lemma RunsAreMaximal(src: string, delim: string)
    ensures forall r :: r in Runs(src, delim, 0) <==> MaximalRun(src, delim, r)
    ensures forall k, l :: 0 <= k < l < |Runs(src, delim, 0)| ==> Runs(src, delim, 0)[k].hi < Runs(src, delim, 0)[l].lo
  {
    RunsFromAreMaximal(src, delim, 0);
  }

  /** The specification: the texts of the runs from `i` on. */
  function TokensFrom(src: string, delim: string, i: nat): (ts: seq<string>)
    requires i <= |src|
    decreases |src| - i
  {
    var lo := Seek(src, delim, i, false);
    if lo == |src| then []
    else
      var hi := Seek(src, delim, lo, true);
      [src[lo..hi]] + TokensFrom(src, delim, hi)
  }

  function Tokens(src: string, delim: string): (ts: seq<string>)
  {
    TokensFrom(src, delim, 0)
  }

  lemma {:induction false} TokensAreRunTexts(src: string, delim: string, i: nat)
    requires i <= |src|
    ensures |TokensFrom(src, delim, i)| == |Runs(src, delim, i)|
    ensures forall k :: 0 <= k < |Runs(src, delim, i)| ==>
      var r := Runs(src, delim, i)[k];
      r.lo <= r.hi <= |src| && TokensFrom(src, delim, i)[k] == src[r.lo..r.hi]
    decreases |src| - i
  {
    var lo := Seek(src, delim, i, false);
    if lo < |src| { TokensAreRunTexts(src, delim, Seek(src, delim, lo, true)); }
  }

  /** `find_first_of` / `find_first_not_of`, None standing for npos. */
  method Find(src: string, delim: string, from: Option<nat>, wanted: bool) returns (r: Option<nat>)
    ensures from == None || from.value > |src| ==> r == None
    ensures from.Some? && from.value <= |src| ==>
      var k := Seek(src, delim, from.value, wanted);
      r == if k == |src| then None else Some(k)
  {
    if from == None {
      return None;
    }
    var i := from.value;
    while i < |src|
      invariant from.value <= |src| ==>
        i <= |src| && Seek(src, delim, i, wanted) == Seek(src, delim, from.value, wanted)
    {
      if (src[i] in delim) == wanted {
        return Some(i);
      }
      i := i + 1;
    }
    return None;
  }

  /** `src.substr(lo, pos - lo)`, to the end when `pos` is npos. */
  function Substr(src: string, lo: nat, pos: Option<nat>): (t: string)
    requires lo <= |src| && (pos.Some? ==> lo <= pos.value <= |src|)
  {
    match pos case None => src[lo..] case Some(p) => src[lo..p]
  }

  /** `lastPos` and `pos` delimit the first token from `at` on. */
  ghost predicate Cut(src: string, delim: string, at: nat, lastPos: Option<nat>, pos: Option<nat>)
  {
    && at <= |src|
    && var lo := Seek(src, delim, at, false);
       if lo == |src| then lastPos == None && pos == None
       else
         var hi := Seek(src, delim, lo, true);
         lastPos == Some(lo) && pos == if hi == |src| then None else Some(hi)
  }

  /** Taking the token that the two positions delimit leaves those after it. */
  lemma TakeToken(src: string, delim: string, at: nat, lastPos: Option<nat>, pos: Option<nat>, tokens: seq<string>)
    requires Cut(src, delim, at, lastPos, pos) && lastPos.Some?
    ensures
      var hi := Seek(src, delim, lastPos.value, true);
      tokens + TokensFrom(src, delim, at) == (tokens + [Substr(src, lastPos.value, pos)]) + TokensFrom(src, delim, hi)
  {
    var lo := lastPos.value;
    var hi := Seek(src, delim, lo, true);
    assert src[lo..] == src[lo..|src|];
    assert TokensFrom(src, delim, at) == [src[lo..hi]] + TokensFrom(src, delim, hi);
  }

  method Split(src: string, delim: string) returns (tokens: seq<string>)
    ensures tokens == Tokens(src, delim)
  {
    tokens := [];
    var lastPos := Find(src, delim, Some(0), false);
    var pos := Find(src, delim, lastPos, true);
    ghost var at, all := 0, Tokens(src, delim);
    while pos != None || lastPos != None
      invariant Cut(src, delim, at, lastPos, pos)
      invariant tokens + TokensFrom(src, delim, at) == all
      decreases |src| - at
    {
      TakeToken(src, delim, at, lastPos, pos, tokens);
      tokens := tokens + [Substr(src, lastPos.value, pos)];
      at := Seek(src, delim, lastPos.value, true);
      lastPos := Find(src, delim, pos, false);
      pos := Find(src, delim, lastPos, true);
    }
  }

  function WithoutDelimiters(src: string, delim: string): (r: string)
  {
    if src == "" then ""
    else (if src[0] in delim then "" else [src[0]]) + WithoutDelimiters(src[1..], delim)
  }

  /** Filtering drops a stretch of delimiters. */
  lemma {:induction false} FilterDrops(src: string, delim: string, i: nat, k: nat)
    requires i <= k <= |src| && forall j :: i <= j < k ==> src[j] in delim
    ensures WithoutDelimiters(src[i..], delim) == WithoutDelimiters(src[k..], delim)
    decreases k - i
  {
    if i < k {
      FilterDrops(src, delim, i + 1, k);
      assert src[i..][1..] == src[i + 1..];
    }
  }

  /** Filtering keeps a stretch of other characters. */
  lemma {:induction false} FilterKeeps(src: string, delim: string, i: nat, k: nat)
    requires i <= k <= |src| && forall j :: i <= j < k ==> src[j] !in delim
    ensures WithoutDelimiters(src[i..], delim) == src[i..k] + WithoutDelimiters(src[k..], delim)
    decreases k - i
  {
    if i < k {
      FilterKeeps(src, delim, i + 1, k);
      assert src[i..][1..] == src[i + 1..];
      assert src[i..k] == [src[i]] + src[i + 1..k];
    }
  }

  lemma {:induction false} TokensFromKeepText(src: string, delim: string, i: nat)
    requires i <= |src|
    ensures Flat(TokensFrom(src, delim, i)) == WithoutDelimiters(src[i..], delim)
    decreases |src| - i
  {
    var lo := Seek(src, delim, i, false);
    SeekPasses(src, delim, i, false);
    FilterDrops(src, delim, i, lo);
    if lo < |src| {
      var hi := Seek(src, delim, lo, true);
      SeekPasses(src, delim, lo, true);
      FilterKeeps(src, delim, lo, hi);
      TokensFromKeepText(src, delim, hi);
      assert TokensFrom(src, delim, i)[1..] == TokensFrom(src, delim, hi);
    }
  }

  /** The tokens are the texts of exactly the maximal delimiter-free runs, in order; so none is
      empty or holds a delimiter, and together they are the input without its delimiters. */
  lemma TokensAreMaximalRuns(src: string, delim: string)
    ensures |Tokens(src, delim)| == |Runs(src, delim, 0)|
    ensures forall k :: 0 <= k < |Tokens(src, delim)| ==>
      var r := Runs(src, delim, 0)[k];
      MaximalRun(src, delim, r) && Tokens(src, delim)[k] == src[r.lo..r.hi]
    ensures Flat(Tokens(src, delim)) == WithoutDelimiters(src, delim)
  {
    TokensFromKeepText(src, delim, 0);
    assert src[0..] == src;
    RunsAreMaximal(src, delim);
    TokensAreRunTexts(src, delim, 0);
  }

  /** Tokens joined by one delimiter. */
  function Join(ts: seq<string>, d: char): (s: string)
  {
    if ts == [] then "" else if |ts| == 1 then ts[0] else ts[0] + [d] + Join(ts[1..], d)
  }

  ghost predicate Clean(ts: seq<string>, d: char)
  {
    forall k :: 0 <= k < |ts| ==> ts[k] != "" && d !in ts[k]
  }

  lemma {:induction false} SeekIs(src: string, delim: string, i: nat, k: nat, wanted: bool)
    requires i <= k <= |src|
    requires forall j :: i <= j < k ==> (src[j] in delim) != wanted
    requires k == |src| || (src[k] in delim) == wanted
    ensures Seek(src, delim, i, wanted) == k
    decreases k - i
  {
    if i < k { SeekIs(src, delim, i + 1, k, wanted); }
  }

  lemma Pieces(src: string, i: nat, a: string, rest: string)
    requires i <= |src| && src[i..] == a + rest
    ensures i + |a| <= |src| && src[i..i + |a|] == a && src[i + |a|..] == rest
  {
    assert src[i..][..|a|] == a && src[i..][|a|..] == rest;
  }

  /** A run of the text of one token from a given index gives that token. */
  lemma OneToken(src: string, i: nat, hi: nat, d: char)
    requires i < hi <= |src| && d !in src[i..hi] && (hi == |src| || src[hi] == d)
    ensures TokensFrom(src, [d], i) == [src[i..hi]] + TokensFrom(src, [d], hi)
  {
    forall j | i <= j < hi ensures src[j] != d { assert src[j] == src[i..hi][j - i]; }
    SeekIs(src, [d], i, i, false);
    SeekIs(src, [d], i, hi, true);
  }

  /** Where the first of several joined tokens ends. */
  lemma JoinedAt(src: string, i: nat, ts: seq<string>, d: char)
    requires i <= |src| && Clean(ts, d) && 1 < |ts| && src[i..] == Join(ts, d)
    ensures
      var hi := i + |ts[0]|;
      i < hi < |src| && src[i..hi] == ts[0] && src[hi] == d && src[hi + 1..] == Join(ts[1..], d)
  {
    var hi, rest := i + |ts[0]|, Join(ts[1..], d);
    assert Join(ts, d) == ts[0] + ([d] + rest);
    Pieces(src, i, ts[0], [d] + rest);
    Pieces(src, hi, [d], rest);
    assert src[hi] == src[hi..hi + 1][0];
  }

  lemma TokenThenRest(src: string, i: nat, hi: nat, ts: seq<string>, d: char)
    requires i < hi < |src| && ts != [] && d !in ts[0] && src[i..hi] == ts[0] && src[hi] == d
    requires TokensFrom(src, [d], hi + 1) == ts[1..]
    ensures TokensFrom(src, [d], i) == ts
  {
    SkipOne(src, [d], hi);
    OneToken(src, i, hi, d);
  }

  lemma LastToken(src: string, i: nat, d: char)
    requires i < |src| && d !in src[i..]
    ensures TokensFrom(src, [d], i) == [src[i..]]
  {
    assert src[i..|src|] == src[i..];
    OneToken(src, i, |src|, d);
  }

  /** Splitting what joining produced, wherever it starts, gives the tokens back. */
  lemma {:induction false} SplitAfterJoinFrom(src: string, i: nat, ts: seq<string>, d: char)
    requires i <= |src| && Clean(ts, d) && src[i..] == Join(ts, d)
    ensures TokensFrom(src, [d], i) == ts
    decreases |ts|
  {
    if ts == [] {
      assert i == |src|;
    } else if |ts| == 1 {
      LastToken(src, i, d);
    } else {
      var hi := i + |ts[0]|;
      JoinedAt(src, i, ts, d);
      SplitAfterJoinFrom(src, hi + 1, ts[1..], d);
      TokenThenRest(src, i, hi, ts, d);
    }
  }

  /** Starting on a delimiter or just after it finds the same tokens. */
  lemma SkipOne(src: string, delim: string, i: nat)
    requires i < |src| && src[i] in delim
    ensures TokensFrom(src, delim, i) == TokensFrom(src, delim, i + 1)
  {
  }

  /** Split undoes join for every list of non-empty tokens free of the delimiter. */
  lemma SplitAfterJoin(ts: seq<string>, d: char)
    requires Clean(ts, d)
    ensures Tokens(Join(ts, d), [d]) == ts
  {
    assert Join(ts, d)[0..] == Join(ts, d);
    SplitAfterJoinFrom(Join(ts, d), 0, ts, d);
  }
}
