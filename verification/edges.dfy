/** Level transitions captured from a GDO pin and the run-length expansion
    that turns them back into bits: every pulse contributes a run of the
    inverted level whose length is the pulse duration divided by a bit time,
    rounded. */
module Edges {

  /** One captured transition: the pin level after it and its time stamp in
      seconds since the start of the capture. */
  datatype Edge = Edge(level: int, time: real)

  /** The length of `[x] * n` in Python: negative counts give an empty list. */
  function RunLength(n: int): nat {
    if n > 0 then n else 0
  }

  /** `[x] * n`. */
  function Repeat(x: int, n: int): (r: seq<int>)
    ensures |r| == RunLength(n)
    ensures forall k | 0 <= k < |r| :: r[k] == x
  {
    seq(RunLength(n), _ => x)
  }

  /** The number of bits a list of run counts produces. */
  function Total(counts: seq<int>): nat {
    if |counts| == 0 then 0 else Total(counts[..|counts| - 1]) + RunLength(counts[|counts| - 1])
  }

  /** The level after each transition but the first: `edges[i][0]` for
      `i` in `range(1, len(edges))`. */
  function Levels(edges: seq<Edge>): (r: seq<int>)
    ensures |r| == (if |edges| == 0 then 0 else |edges| - 1)
  {
    if |edges| == 0 then [] else seq(|edges| - 1, k requires 0 <= k < |edges| - 1 => edges[k + 1].level)
  }

  /** The duration of each pulse: `edges[i][1] - edges[i-1][1]`. */
  function Pulses(edges: seq<Edge>): (r: seq<real>)
    ensures |r| == |Levels(edges)|
  {
    if |edges| == 0 then []
    else seq(|edges| - 1, k requires 0 <= k < |edges| - 1 => edges[k + 1].time - edges[k].time)
  }

  /** `bits += [1 - levels[k]] * counts[k]` for every pulse, in order. */
  function Expand(levels: seq<int>, counts: seq<int>): (r: seq<int>)
    requires |levels| == |counts|
    ensures |r| == Total(counts)
  {
    if |counts| == 0 then []
    else
      var n := |counts| - 1;
      Expand(levels[..n], counts[..n]) + Repeat(1 - levels[n], counts[n])
  }

  lemma {:induction false} TotalMono(counts: seq<int>, a: nat, b: nat)
    requires a <= b <= |counts|
    ensures Total(counts[..a]) <= Total(counts[..b])
    decreases b - a
  {
    if a < b {
      TotalMono(counts, a, b - 1);
      assert counts[..b][..b - 1] == counts[..b - 1];
    }
  }

  /** The expansion is the runs laid end to end: bit `j` belongs to the run
      of pulse `k` exactly when it lies between the totals of the first `k`
      and `k + 1` counts, and every bit of that run is `1 - levels[k]`. */
  lemma {:induction false} ExpandRun(levels: seq<int>, counts: seq<int>, k: nat, j: nat)
    requires |levels| == |counts| && k < |counts|
    requires Total(counts[..k]) <= j < Total(counts[..k + 1])
    ensures j < |Expand(levels, counts)| && Expand(levels, counts)[j] == 1 - levels[k]
    decreases |counts|
  {
    var n := |counts| - 1;
    TotalMono(counts, k + 1, |counts|);
    var pre := Expand(levels[..n], counts[..n]);
    assert counts[..n + 1] == counts;
    if k == n {
      assert Expand(levels, counts)[j] == Repeat(1 - levels[n], counts[n])[j - |pre|];
    } else {
      TotalMono(counts, k + 1, n);
      assert counts[..n][..k] == counts[..k];
      assert counts[..n][..k + 1] == counts[..k + 1];
      ExpandRun(levels[..n], counts[..n], k, j);
      assert Expand(levels, counts)[j] == pre[j];
    }
  }
}
