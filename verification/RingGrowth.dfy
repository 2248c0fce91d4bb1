/** Capacity arithmetic of the ring buffer: the growth ladder of `refix_new_size`. */
module RingGrowth {

  const SMALL: nat := 64
  const RAW: nat := 1024
  const MAX: nat := 1048576

  /** One turn of the growth loop: double below 1 KB, add 1 KB below 1 MB, then stand still. */
  function Rung(tmp: nat): (r: nat)
  {
    if tmp < RAW then 2 * tmp else if tmp < MAX then tmp + RAW else tmp
  }

  /** The value of the loop variable after `k` turns of an unbounded loop. */
  function RungAfter(tmp: nat, k: nat): (r: nat)
    decreases k
  {
    if k == 0 then tmp else RungAfter(Rung(tmp), k - 1)
  }

  /** Where the loop stops when it starts at a positive capacity. */
  function Climb(tmp: nat, target: nat): (r: nat)
    requires 0 < tmp && target <= MAX
    ensures target <= r && tmp <= r
    decreases Max0(target - tmp)
  {
    if target <= tmp then tmp else Climb(Rung(tmp), target)
  }

  function Max0(d: int): (r: nat)
  {
    if d < 0 then 0 else d
  }

  /** The request after the small-size shortcut and the loop. */
  function Refixed(from: nat, target: nat): (r: nat)
    requires target <= SMALL || (0 < from && target <= MAX)
  {
    if target <= SMALL then SMALL else Climb(from, target)
  }

  method RefixNewSize(from: nat, target: nat) returns (r: nat)
    requires target <= SMALL || (0 < from && target <= MAX)
    ensures r == Refixed(from, target)
    ensures target <= r
    ensures OnLadder(from) && from < target ==> LeastRung(r, target)
  {
    if target <= SMALL {
      return SMALL;
    }
    if OnLadder(from) && from < target { RefixedIsLeastRung(from, target); }
    var tmp := from;
    while tmp < target
      invariant 0 < tmp
      invariant Climb(tmp, target) == Climb(from, target)
      decreases target - tmp
    {
      if tmp < RAW {
        tmp := tmp * 2;
      } else if tmp < MAX {
        tmp := tmp + RAW;
      }
    }
    r := tmp;
  }

  /** The loop reaches the request after finitely many turns. */
  ghost predicate Halts(from: nat, target: nat)
  {
    target <= SMALL || exists k: nat :: target <= RungAfter(from, k)
  }

  lemma {:induction false} StuckAtZero(k: nat)
    ensures RungAfter(0, k) == 0
  {
    if k > 0 { StuckAtZero(k - 1); }
  }

  lemma {:induction false} ClimbIsReached(tmp: nat, target: nat) returns (k: nat)
    requires 0 < tmp && target <= MAX
    ensures RungAfter(tmp, k) == Climb(tmp, target)
    decreases Max0(target - tmp)
  {
    if target <= tmp {
      k := 0;
    } else {
      var rest := ClimbIsReached(Rung(tmp), target);
      k := rest + 1;
    }
  }

  /** For every request the caller validates, the growth loop terminates exactly from a positive
      capacity; from capacity 0 it spins for every request above 64, which is what a constructor
      given more than 64 runs into. */
  lemma GrowthTerminatesIff(from: nat, target: nat)
    requires target <= MAX
    ensures Halts(from, target) <==> target <= SMALL || 0 < from
  {
    if SMALL < target {
      if from == 0 {
        forall k: nat ensures RungAfter(from, k) < target { StuckAtZero(k); }
      } else {
        var k := ClimbIsReached(from, target);
      }
    }
  }

  predicate OnLadder(c: nat)
  {
    c == 64 || c == 128 || c == 256 || c == 512 || (c % RAW == 0 && RAW <= c <= MAX)
  }

  /** `c` is the smallest capacity on the ladder that holds `target`. */
  ghost predicate LeastRung(c: nat, target: nat)
  {
    OnLadder(c) && target <= c && forall d: nat :: OnLadder(d) && target <= d ==> c <= d
  }

  /** A growth from a capacity on the ladder takes the smallest one that holds the request. */
  lemma RefixedIsLeastRung(from: nat, target: nat)
    requires OnLadder(from) && from < target <= MAX
    ensures LeastRung(Refixed(from, target), target)
  {
    ClimbIsLeastRung(from, target);
  }

  /** From a rung, the loop stops on the least rung that holds the request. */
  lemma {:induction false} ClimbIsLeastRung(tmp: nat, target: nat)
    requires OnLadder(tmp) && target <= MAX
    ensures OnLadder(Climb(tmp, target))
    ensures forall c: nat :: OnLadder(c) && target <= c && tmp <= c ==> Climb(tmp, target) <= c
    decreases Max0(target - tmp)
  {
    if tmp < target {
      assert OnLadder(Rung(tmp));
      ClimbIsLeastRung(Rung(tmp), target);
      forall c: nat | OnLadder(c) && target <= c && tmp <= c
        ensures Rung(tmp) <= c
      {
        NextRung(tmp, c);
      }
    }
  }

  lemma ClimbStaysOnLadder(tmp: nat, target: nat)
    requires OnLadder(tmp) && target <= MAX
    ensures OnLadder(Climb(tmp, target))
  {
    ClimbIsLeastRung(tmp, target);
  }

  lemma NextRung(tmp: nat, c: nat)
    requires OnLadder(tmp) && OnLadder(c) && tmp < c
    ensures Rung(tmp) <= c
  {
    if RAW <= tmp {
      var i, j := tmp / RAW, c / RAW;
      assert tmp == i * RAW && c == j * RAW;
    }
  }
}
