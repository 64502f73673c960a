/** Sequences of instants that keep a minimum distance, and how many fit an interval. */
module Spacing {

  predicate Spaced(ts: seq<int>, gap: nat) {
    forall i, j :: 0 <= i < j < |ts| ==> ts[j] - ts[i] >= gap
  }

  function CountIn(ts: seq<int>, t0: int, t1: int): nat {
    if ts == [] then 0
    else CountIn(ts[..|ts| - 1], t0, t1) + if t0 <= ts[|ts| - 1] <= t1 then 1 else 0
  }

  lemma {:induction false} CountAllBelow(ts: seq<int>, t0: int, t1: int, cut: int)
    requires forall i :: 0 <= i < |ts| ==> ts[i] <= cut
    ensures cut < t0 ==> CountIn(ts, t0, t1) == 0
    ensures cut <= t1 ==> CountIn(ts, t0, t1) == CountIn(ts, t0, cut)
  {
    if ts == [] {
    } else {
      CountAllBelow(ts[..|ts| - 1], t0, t1, cut);
    }
  }

  /** The instants in an interval fit into it: all but one of them are preceded by a gap. */
  lemma {:induction false} RateBound(ts: seq<int>, gap: nat, t0: int, t1: int)
    requires Spaced(ts, gap) && t0 <= t1
    ensures (CountIn(ts, t0, t1) - 1) * gap <= t1 - t0
    decreases |ts|
  {
    if ts == [] {
    } else {
      var rest, last := ts[..|ts| - 1], ts[|ts| - 1];
      if t0 <= last <= t1 {
        CountAllBelow(rest, t0, t1, last - gap);
        if last - gap >= t0 {
          RateBound(rest, gap, t0, last - gap);
          assert CountIn(rest, t0, t1) * gap == (CountIn(rest, t0, t1) - 1) * gap + gap;
        }
      } else {
        RateBound(rest, gap, t0, t1);
      }
    }
  }
}
