/** `Interpreted_Packet`: a raw capture of level transitions turned into
    bits without knowing the data rate. The pulses are filed by the level
    they end in; for each level the bit time is estimated as the mean of the
    pulses no longer than one and a half times the mean of the five shortest;
    each pulse then becomes a run of the inverted level, its length the pulse
    divided by that level's bit time, rounded half to even. */
module Interpreter {
  import opened Results
  import opened PySeq
  import opened Rounding
  import opened Edges

  // ---- sums ----

  /** Python's `sum` on a list of durations. */
  function Sum(s: seq<real>): real {
    if |s| == 0 then 0.0 else s[0] + Sum(s[1..])
  }

  /** Every element between `lo` and `hi` puts the sum between `n * lo` and
      `n * hi` for `n` elements. */
  lemma {:induction false} SumBounds(s: seq<real>, lo: real, hi: real)
    requires forall k | 0 <= k < |s| :: lo <= s[k] <= hi
    ensures |s| as real * lo <= Sum(s) <= |s| as real * hi
  {
    if |s| > 0 {
      SumBounds(s[1..], lo, hi);
      var n := (|s| - 1) as real;
      assert |s| as real * lo == n * lo + lo;
      assert |s| as real * hi == n * hi + hi;
    }
  }

  /** The mean of a non-empty list lies between its bounds. */
  lemma MeanBounds(s: seq<real>, lo: real, hi: real)
    requires |s| > 0
    requires forall k | 0 <= k < |s| :: lo <= s[k] <= hi
    ensures lo <= Sum(s) / |s| as real <= hi
  {
    SumBounds(s, lo, hi);
    var n := |s| as real;
    DivBounds(Sum(s), n, lo, hi);
  }

  lemma DivBounds(x: real, n: real, lo: real, hi: real)
    requires n > 0.0 && n * lo <= x <= n * hi
    ensures lo <= x / n <= hi
  {
    var q := x / n;
    assert x == n * q;
  }

  // ---- sorting ----

  predicate Sorted(s: seq<real>) {
    forall i, j | 0 <= i < j < |s| :: s[i] <= s[j]
  }

  /** Inserts `x` before the first element not smaller than it. */
  function Insert(x: real, s: seq<real>): (r: seq<real>)
    requires Sorted(s)
    ensures Sorted(r)
    ensures multiset(r) == multiset(s) + multiset{x}
    ensures |r| == |s| + 1
  {
    if |s| == 0 then [x]
    else if x <= s[0] then [x] + s
    else
      var rest := Insert(x, s[1..]);
      InsertAbove(x, s, rest);
      assert s == [s[0]] + s[1..];
      [s[0]] + rest
  }

  /** What is inserted after the head of a sorted list stays sorted behind
      it. */
  lemma InsertAbove(x: real, s: seq<real>, rest: seq<real>)
    requires Sorted(s) && |s| > 0 && s[0] < x
    requires Sorted(rest) && multiset(rest) == multiset(s[1..]) + multiset{x}
    ensures Sorted([s[0]] + rest)
  {
    forall k | 0 <= k < |rest|
      ensures s[0] <= rest[k]
    {
      assert rest[k] in multiset(rest);
      if rest[k] != x {
        assert rest[k] in s[1..];
      }
    }
  }

  /** Python's `sorted` on durations: ascending, and the same durations
      with the same multiplicities. */
  function Sort(s: seq<real>): (r: seq<real>)
    ensures Sorted(r)
    ensures multiset(r) == multiset(s)
    ensures |r| == |s|
  {
    if |s| == 0 then []
    else
      assert s == [s[0]] + s[1..];
      Insert(s[0], Sort(s[1..]))
  }

  /** A sorted arrangement of a list is unique, so the insertion sort above
      gives exactly what any other sorting algorithm gives. */
  lemma {:induction false} SortedUnique(a: seq<real>, b: seq<real>)
    requires Sorted(a) && Sorted(b) && multiset(a) == multiset(b)
    ensures a == b
    decreases |a|
  {
    assert |a| == |multiset(a)| == |multiset(b)| == |b|;
    if |a| > 0 {
      assert a[0] in multiset(b);
      assert b[0] in multiset(a);
      SortedFirstIn(b, a[0]);
      SortedFirstIn(a, b[0]);
      assert a == [a[0]] + a[1..];
      assert b == [b[0]] + b[1..];
      MultisetTail(a, b);
      SortedUnique(a[1..], b[1..]);
    }
  }

  /** Lists with the same elements and the same head have tails with the
      same elements. */
  lemma MultisetTail(a: seq<real>, b: seq<real>)
    requires |a| > 0 && |b| > 0 && a[0] == b[0] && multiset(a) == multiset(b)
    ensures multiset(a[1..]) == multiset(b[1..])
  {
    assert a == [a[0]] + a[1..];
    assert b == [b[0]] + b[1..];
    assert multiset(a[1..]) == multiset(a) - multiset{a[0]};
    assert multiset(b[1..]) == multiset(b) - multiset{b[0]};
  }

  /** The first element of a sorted list is at most any element of it. */
  lemma SortedFirstIn(s: seq<real>, x: real)
    requires Sorted(s) && x in s
    ensures s[0] <= x
  {
  }

  /** `[x for x in s if x <= bound]`. */
  function Below(s: seq<real>, bound: real): (r: seq<real>)
    ensures |r| <= |s|
    ensures forall k | 0 <= k < |r| :: r[k] <= bound
  {
    if |s| == 0 then []
    else (if s[0] <= bound then [s[0]] else []) + Below(s[1..], bound)
  }

  /** The filter keeps exactly the elements within the bound. */
  lemma {:induction false} BelowMembers(s: seq<real>, bound: real)
    ensures forall x :: x in Below(s, bound) <==> x in s && x <= bound
  {
    if |s| > 0 {
      BelowMembers(s[1..], bound);
      assert s == [s[0]] + s[1..];
    }
  }

  // ---- bit time estimate ----

  /** `sum(sorted_durations[0:5]) / 5`: the mean of the five shortest pulses
      when there are five; a smaller list is still divided by five. */
  function FiveShortest(durations: seq<real>): real {
    FirstFive(Sort(durations))
  }

  function FirstFive(sorted: seq<real>): real {
    Sum(Slice(sorted, 0, 5)) / 5.0
  }

  /** The bit time of one level: the mean of the pulses no longer than one
      and a half times `FiveShortest`; no such pulse raises
      ZeroDivisionError. */
  function LevelMean(durations: seq<real>): (r: Result<real>)
    ensures r.Err? ==> r.error == ZeroDivisionError
  {
    SortedMean(Sort(durations))
  }

  /** `LevelMean` once the durations are sorted. */
  function SortedMean(sorted: seq<real>): Result<real> {
    var cand := Below(sorted, FirstFive(sorted) * 1.5);
    if |cand| == 0 then Err(ZeroDivisionError)
    else Ok(Sum(cand) / |cand| as real)
  }

  /** Sorting keeps every duration, so it keeps their lower bounds. */
  lemma SortAtLeast(durations: seq<real>, lo: real)
    requires forall k | 0 <= k < |durations| :: lo <= durations[k]
    ensures forall k | 0 <= k < |Sort(durations)| :: lo <= Sort(durations)[k]
  {
    var s := Sort(durations);
    forall k | 0 <= k < |s|
      ensures lo <= s[k]
    {
      assert s[k] in multiset(durations);
    }
  }

  /** The first element of a sorted list is its minimum. */
  lemma SortedFirst(s: seq<real>)
    requires Sorted(s) && |s| > 0
    ensures forall k | 0 <= k < |s| :: s[0] <= s[k]
  {
  }

  /** The candidates of a sorted list whose first element is within the
      bound: there are some, and their mean lies between the first element
      and the bound. */
  lemma CandidateMean(s: seq<real>, bound: real)
    requires Sorted(s) && |s| > 0 && s[0] <= bound
    ensures |Below(s, bound)| > 0
    ensures s[0] <= Sum(Below(s, bound)) / |Below(s, bound)| as real <= bound
  {
    var cand := Below(s, bound);
    BelowMembers(s, bound);
    assert s[0] in cand;
    forall k | 0 <= k < |cand|
      ensures s[0] <= cand[k]
    {
      assert cand[k] in s;
      SortedFirstIn(s, cand[k]);
    }
    MeanBounds(cand, s[0], bound);
  }

  /** For a sorted non-negative list of at least five, the first element is
      at most the mean of the first five, which is non-negative. */
  lemma FiveMeanBounds(s: seq<real>)
    requires Sorted(s) && |s| >= 5
    requires forall k | 0 <= k < |s| :: 0.0 <= s[k]
    ensures 0.0 <= s[0] <= Sum(Slice(s, 0, 5)) / 5.0
  {
    var five := Slice(s, 0, 5);
    assert five == s[..5];
    SumBounds(five, s[0], s[4]);
  }

  /** The sorted form of `LevelMeanBounds`. */
  lemma SortedMeanBounds(s: seq<real>)
    requires Sorted(s) && |s| >= 5
    requires forall k | 0 <= k < |s| :: 0.0 <= s[k]
    ensures SortedMean(s).Ok?
    ensures s[0] <= SortedMean(s).value <= FirstFive(s) * 1.5
  {
    FiveMeanBounds(s);
    CandidateMean(s, FirstFive(s) * 1.5);
  }

  /** With at least five non-negative pulses the estimate exists and lies
      between the shortest pulse and one and a half times the mean of the
      five shortest. */
  lemma LevelMeanBounds(durations: seq<real>)
    requires |durations| >= 5
    requires forall k | 0 <= k < |durations| :: durations[k] >= 0.0
    ensures LevelMean(durations).Ok?
    ensures exists k | 0 <= k < |durations| ::
      durations[k] <= LevelMean(durations).value
      && forall j | 0 <= j < |durations| :: durations[k] <= durations[j]
    ensures LevelMean(durations).value <= FiveShortest(durations) * 1.5
  {
    var s := Sort(durations);
    SortAtLeast(durations, 0.0);
    SortedMeanBounds(s);
    SortedMinimum(durations);
  }

  /** The head of the sorted list is a shortest duration. */
  lemma SortedMinimum(durations: seq<real>)
    requires |durations| > 0
    ensures exists m | 0 <= m < |durations| ::
      (durations[m] == Sort(durations)[0] && forall j | 0 <= j < |durations| :: durations[m] <= durations[j])
  {
    var s := Sort(durations);
    assert s[0] in multiset(durations);
    var m :| 0 <= m < |durations| && durations[m] == s[0];
    forall j | 0 <= j < |durations|
      ensures durations[m] <= durations[j]
    {
      assert durations[j] in multiset(s);
      SortedFirstIn(s, durations[j]);
    }
  }

  /** A pulse of one bit time `t`, or of at least two. */
  predicate Clean(x: real, t: real) {
    x == t || x >= 2.0 * t
  }

  /** Occurrences of `x` can only be before the first position from which
      on `x` is absent. */
  lemma {:induction false} CountBefore(s: seq<real>, x: real, i: nat)
    requires i <= |s|
    requires forall j | i <= j < |s| :: s[j] != x
    ensures multiset(s)[x] <= i
  {
    assert s == s[..i] + s[i..];
    assert x !in s[i..];
    assert multiset(s[i..])[x] == 0;
    CountAtMost(s[..i], x);
  }

  lemma {:induction false} CountAtMost(s: seq<real>, x: real)
    ensures multiset(s)[x] <= |s|
  {
    if |s| > 0 {
      assert s == [s[0]] + s[1..];
      CountAtMost(s[1..], x);
    }
  }

  /** A sorted list of clean pulses with at least five of one bit time
      starts with five of them. */
  lemma SortedCleanStart(s: seq<real>, t: real)
    requires t > 0.0 && Sorted(s)
    requires forall k | 0 <= k < |s| :: Clean(s[k], t)
    requires multiset(s)[t] >= 5
    ensures |s| >= 5 && forall i | 0 <= i < 5 :: s[i] == t
  {
    CountAtMost(s, t);
    forall i | 0 <= i < 5
      ensures s[i] == t
    {
      if s[i] != t {
        forall j | i <= j < |s|
          ensures s[j] != t
        {
          assert s[i] <= s[j];
        }
        CountBefore(s, t, i);
      }
    }
  }

  /** The sorted form of `LevelMeanClean`. */
  lemma SortedMeanClean(s: seq<real>, t: real)
    requires t > 0.0 && Sorted(s) && |s| >= 5
    requires forall k | 0 <= k < |s| :: Clean(s[k], t)
    requires forall i | 0 <= i < 5 :: s[i] == t
    ensures SortedMean(s) == Ok(t)
  {
    var five := Slice(s, 0, 5);
    assert five == s[..5];
    SumBounds(five, t, t);
    assert FirstFive(s) == t;
    var cand := Below(s, t * 1.5);
    BelowMembers(s, t * 1.5);
    assert s[0] in cand;
    forall k | 0 <= k < |cand|
      ensures cand[k] == t
    {
      assert cand[k] in s;
    }
    MeanBounds(cand, t, t);
  }

  /** Pulses of exact multiples of `t`, at least five of them a single bit
      time: the estimate is `t` itself. */
  lemma LevelMeanClean(durations: seq<real>, t: real)
    requires t > 0.0
    requires forall x | x in durations :: Clean(x, t)
    requires multiset(durations)[t] >= 5
    ensures LevelMean(durations) == Ok(t)
  {
    var s := Sort(durations);
    forall k | 0 <= k < |s|
      ensures Clean(s[k], t)
    {
      assert s[k] in multiset(durations);
    }
    SortedCleanStart(s, t);
    SortedMeanClean(s, t);
  }

  // ---- filing the pulses by level ----

  /** Every level indexes the two-element list of bins (Python's negative
      indices included). */
  predicate Fileable(levels: seq<int>) {
    forall k | 0 <= k < |levels| :: Index(levels[k], 2).Ok?
  }

  /** `sorted_puls_length[b]` before sorting: the pulses whose level indexes
      bin `b`, in capture order. */
  function Bin(levels: seq<int>, pulses: seq<real>, b: nat): seq<real>
    requires |levels| == |pulses|
  {
    if |levels| == 0 then []
    else
      var n := |levels| - 1;
      Bin(levels[..n], pulses[..n], b) + (if Index(levels[n], 2) == Ok(b) then [pulses[n]] else [])
  }

  /** Filing splits the pulses between the two bins: every pulse lands in
      exactly one of them. */
  lemma {:induction false} BinsPartition(levels: seq<int>, pulses: seq<real>)
    requires |levels| == |pulses| && Fileable(levels)
    ensures multiset(Bin(levels, pulses, 0)) + multiset(Bin(levels, pulses, 1)) == multiset(pulses)
  {
    if |levels| > 0 {
      var n := |levels| - 1;
      FileablePrefix(levels, n);
      BinsPartition(levels[..n], pulses[..n]);
      BinsStep(levels, pulses);
      assert multiset(pulses) == multiset(pulses[..n]) + multiset{pulses[n]} by {
        assert pulses == pulses[..n] + [pulses[n]];
      }
    }
  }

  /** Filing the last pulse adds it to exactly one bin. */
  lemma BinsStep(levels: seq<int>, pulses: seq<real>)
    requires |levels| == |pulses| > 0 && Index(levels[|levels| - 1], 2).Ok?
    ensures var n := |levels| - 1;
      multiset(Bin(levels, pulses, 0)) + multiset(Bin(levels, pulses, 1))
      == multiset(Bin(levels[..n], pulses[..n], 0)) + multiset(Bin(levels[..n], pulses[..n], 1)) + multiset{pulses[n]}
  {
    var n := |levels| - 1;
    PartitionStep(Bin(levels, pulses, 0), Bin(levels, pulses, 1),
      Bin(levels[..n], pulses[..n], 0), Bin(levels[..n], pulses[..n], 1),
      multiset(Bin(levels[..n], pulses[..n], 0)) + multiset(Bin(levels[..n], pulses[..n], 1)),
      pulses[n], Index(levels[n], 2) == Ok(0));
  }

  lemma FileablePrefix(levels: seq<int>, n: nat)
    requires n <= |levels| && Fileable(levels)
    ensures Fileable(levels[..n])
  {
    forall k | 0 <= k < n
      ensures Index(levels[..n][k], 2).Ok?
    {
      assert levels[..n][k] == levels[k];
    }
  }

  /** One more pulse lands in exactly one bin. */
  lemma PartitionStep(c0: seq<real>, c1: seq<real>, b0: seq<real>, b1: seq<real>, m: multiset<real>, x: real, in0: bool)
    requires multiset(b0) + multiset(b1) == m
    requires c0 == b0 + (if in0 then [x] else [])
    requires c1 == b1 + (if in0 then [] else [x])
    ensures multiset(c0) + multiset(c1) == m + multiset{x}
  {
  }

  /** A property every pulse of a bin has holds of every element of it. */
  lemma {:induction false} BinClean(levels: seq<int>, pulses: seq<real>, b: nat, t: real)
    requires |levels| == |pulses|
    requires forall k | 0 <= k < |levels| && Index(levels[k], 2) == Ok(b) :: Clean(pulses[k], t)
    ensures forall x | x in Bin(levels, pulses, b) :: Clean(x, t)
  {
    if |levels| > 0 {
      var n := |levels| - 1;
      BinClean(levels[..n], pulses[..n], b, t);
    }
  }

  /** `estimate_bit_length`: more than twenty transitions are required
      (AssertionError); a level outside the two bins raises IndexError; then
      the bit time of level 0 and of level 1. */
  function EstimateBitLength(edges: seq<Edge>): (r: Result<seq<real>>)
    ensures r.Ok? ==> |r.value| == 2
    ensures r.Err? ==> r.error in {AssertionError, IndexError, ZeroDivisionError}
  {
    var levels := Levels(edges);
    var pulses := Pulses(edges);
    if |edges| <= 20 then Err(AssertionError)
    else if !Fileable(levels) then Err(IndexError)
    else
      var m0 := LevelMean(Bin(levels, pulses, 0));
      var m1 := LevelMean(Bin(levels, pulses, 1));
      if m0.Err? then Err(m0.error)
      else if m1.Err? then Err(m1.error)
      else Ok([m0.value, m1.value])
  }

  /** The estimate fails exactly on short captures, on levels that index
      neither bin, and on a level whose bit time has no candidate pulse. */
  lemma EstimateErrors(edges: seq<Edge>)
    ensures EstimateBitLength(edges).Err? <==>
      |edges| <= 20 || !Fileable(Levels(edges))
      || LevelMean(Bin(Levels(edges), Pulses(edges), 0)).Err?
      || LevelMean(Bin(Levels(edges), Pulses(edges), 1)).Err?
    ensures |edges| <= 20 <==> EstimateBitLength(edges) == Err(AssertionError)
  {
  }

  // ---- bits ----

  /** The run length of every pulse: `round(pulse / tmean[level])`. The
      first pulse whose level does not index `tmean` raises IndexError, one
      whose bit time is zero ZeroDivisionError. */
  function Counts(levels: seq<int>, pulses: seq<real>, tmean: seq<real>): (r: Result<seq<int>>)
    requires |levels| == |pulses|
    ensures r.Ok? ==> |r.value| == |levels|
    ensures r.Err? ==> r.error == IndexError || r.error == ZeroDivisionError
  {
    if |levels| == 0 then Ok([])
    else
      var i := Index(levels[0], |tmean|);
      if i.Err? then Err(IndexError)
      else if tmean[i.value] == 0.0 then Err(ZeroDivisionError)
      else
        match Counts(levels[1..], pulses[1..], tmean)
        case Err(e) => Err(e)
        case Ok(rest) => Ok([RoundHalfEven(pulses[0] / tmean[i.value])] + rest)
  }

  /** The bit time a level selects, or 0 when it selects none. */
  function Period(level: int, tmean: seq<real>): real {
    var i := Index(level, |tmean|);
    if i.Ok? then tmean[i.value] else 0.0
  }

  /** A pulse within half a bit time of `n` bit times `t`. */
  predicate Near(pulse: real, n: int, t: real) {
    t > 0.0 && n as real * t - t / 2.0 < pulse < n as real * t + t / 2.0
  }

  lemma NearRounds(pulse: real, n: int, t: real)
    requires Near(pulse, n, t)
    ensures RoundHalfEven(pulse / t) == n
  {
    var q := pulse / t;
    assert pulse == q * t;
    var d := q - n as real;
    assert d * t == pulse - n as real * t;
    RoundNear(q, n);
  }

  /** Tolerance to jitter: pulses each within half a bit time of a whole
      number of bit times decode to exactly those numbers. */
  lemma {:induction false} CountsNear(levels: seq<int>, pulses: seq<real>, tmean: seq<real>, ns: seq<int>)
    requires |levels| == |pulses| == |ns|
    requires forall k | 0 <= k < |levels| :: Near(pulses[k], ns[k], Period(levels[k], tmean))
    ensures Counts(levels, pulses, tmean) == Ok(ns)
  {
    if |levels| > 0 {
      assert Near(pulses[0], ns[0], Period(levels[0], tmean));
      NearRounds(pulses[0], ns[0], Period(levels[0], tmean));
      CountsNear(levels[1..], pulses[1..], tmean, ns[1..]);
      assert ns == [ns[0]] + ns[1..];
    }
  }

  /** Counts succeed exactly when every level selects a non-zero bit time. */
  lemma {:induction false} CountsOk(levels: seq<int>, pulses: seq<real>, tmean: seq<real>)
    requires |levels| == |pulses|
    ensures Counts(levels, pulses, tmean).Ok? <==>
      forall k | 0 <= k < |levels| :: Index(levels[k], |tmean|).Ok? && Period(levels[k], tmean) != 0.0
  {
    if |levels| > 0 {
      CountsOk(levels[1..], pulses[1..], tmean);
      assert forall k | 1 <= k < |levels| :: levels[1..][k - 1] == levels[k];
    }
  }

  /** `calc_bits`: every pulse contributes `[1 - level] * count`. */
  function CalcBits(edges: seq<Edge>, tmean: seq<real>): (r: Result<seq<int>>)
    ensures r.Err? ==> r.error == IndexError || r.error == ZeroDivisionError
  {
    var levels := Levels(edges);
    match Counts(levels, Pulses(edges), tmean)
    case Err(e) => Err(e)
    case Ok(counts) => Ok(Expand(levels, counts))
  }

  /** The decoded bits are the runs laid end to end: with counts `ns`, the
      bits of pulse `k` sit between the totals of the counts before it and
      up to it, each one minus the level the pulse ends in. */
  lemma CalcBitsRuns(edges: seq<Edge>, tmean: seq<real>, k: nat, j: nat)
    requires CalcBits(edges, tmean).Ok? && k < |Levels(edges)|
    requires var counts := Counts(Levels(edges), Pulses(edges), tmean).value;
      Total(counts[..k]) <= j < Total(counts[..k + 1])
    ensures j < |CalcBits(edges, tmean).value| && CalcBits(edges, tmean).value[j] == 1 - edges[k + 1].level
  {
    ExpandRun(Levels(edges), Counts(Levels(edges), Pulses(edges), tmean).value, k, j);
  }

  /** The two steps of `Interpreted_Packet`'s constructor. */
  datatype Interpreted = Interpreted(tmean: seq<real>, bits: seq<int>)

  /** Every level indexes a non-zero bit time. */
  predicate Selectable(levels: seq<int>, tmean: seq<real>) {
    forall k | 0 <= k < |levels| :: Index(levels[k], |tmean|).Ok? && Period(levels[k], tmean) != 0.0
  }

  /** `Interpreted_Packet`: it fails exactly when the bit times cannot be
      estimated or some level selects no non-zero bit time; otherwise it
      keeps the two estimated bit times and the bits `calc_bits` rebuilds. */
  function Interpret(edges: seq<Edge>): (r: Result<Interpreted>)
    ensures r.Err? ==> r.error in {AssertionError, IndexError, ZeroDivisionError}
    ensures r.Ok? <==> EstimateBitLength(edges).Ok? && Selectable(Levels(edges), EstimateBitLength(edges).value)
    ensures r.Ok? ==> |r.value.tmean| == 2 && EstimateBitLength(edges) == Ok(r.value.tmean)
    ensures r.Ok? ==> CalcBits(edges, r.value.tmean) == Ok(r.value.bits)
  {
    var estimate := EstimateBitLength(edges);
    if estimate.Err? then Err(estimate.error)
    else
      CountsOk(Levels(edges), Pulses(edges), estimate.value);
      var bits := CalcBits(edges, estimate.value);
      if bits.Err? then Err(bits.error) else Ok(Interpreted(estimate.value, bits.value))
  }

  lemma MulAtLeastTwice(n: int, t: real)
    requires n >= 2 && t > 0.0
    ensures n as real * t >= 2.0 * t
  {
    var m := (n - 2) as real;
    assert n as real * t == m * t + 2.0 * t;
  }

  /** A clean capture: levels 0 and 1 only, bit times `t0` and `t1`, every
      pulse a whole positive number `ns[k]` of its level's bit time, and at
      least five single-bit pulses per level. */
  predicate CleanCapture(edges: seq<Edge>, t0: real, t1: real, ns: seq<int>) {
    WholeBitTimes(edges, t0, t1, ns)
    && multiset(Bin(Levels(edges), Pulses(edges), 0))[t0] >= 5
    && multiset(Bin(Levels(edges), Pulses(edges), 1))[t1] >= 5
  }

  /** Levels 0 and 1 only, and every pulse `ns[k] >= 1` bit times of its
      level. */
  predicate WholeBitTimes(edges: seq<Edge>, t0: real, t1: real, ns: seq<int>) {
    var levels := Levels(edges);
    var pulses := Pulses(edges);
    t0 > 0.0 && t1 > 0.0 && |ns| == |levels|
    && forall k | 0 <= k < |levels| ::
         (levels[k] == 0 || levels[k] == 1) && ns[k] >= 1
         && pulses[k] == ns[k] as real * (if levels[k] == 0 then t0 else t1)
  }

  /** The interpreter recovers a clean capture: it estimates exactly the bit
      times and decodes exactly the runs the pulses encode. */
  lemma InterpretClean(edges: seq<Edge>, t0: real, t1: real, ns: seq<int>)
    requires |edges| > 20 && CleanCapture(edges, t0, t1, ns)
    ensures Interpret(edges) == Ok(Interpreted([t0, t1], Expand(Levels(edges), ns)))
  {
    EstimateClean(edges, t0, t1, ns);
    CountsClean(edges, t0, t1, ns);
  }

  lemma EstimateClean(edges: seq<Edge>, t0: real, t1: real, ns: seq<int>)
    requires |edges| > 20 && CleanCapture(edges, t0, t1, ns)
    ensures EstimateBitLength(edges) == Ok([t0, t1])
  {
    var levels := Levels(edges);
    var pulses := Pulses(edges);
    CleanPulses(edges, t0, t1, ns);
    BinClean(levels, pulses, 0, t0);
    BinClean(levels, pulses, 1, t1);
    LevelMeanClean(Bin(levels, pulses, 0), t0);
    LevelMeanClean(Bin(levels, pulses, 1), t1);
  }

  lemma CountsClean(edges: seq<Edge>, t0: real, t1: real, ns: seq<int>)
    requires WholeBitTimes(edges, t0, t1, ns)
    ensures Counts(Levels(edges), Pulses(edges), [t0, t1]) == Ok(ns)
  {
    CleanPulses(edges, t0, t1, ns);
    CountsNear(Levels(edges), Pulses(edges), [t0, t1], ns);
  }

  lemma CleanPulses(edges: seq<Edge>, t0: real, t1: real, ns: seq<int>)
    requires WholeBitTimes(edges, t0, t1, ns)
    ensures Fileable(Levels(edges))
    ensures var levels := Levels(edges);
      var pulses := Pulses(edges);
      (forall k | 0 <= k < |levels| && Index(levels[k], 2) == Ok(0) :: Clean(pulses[k], t0))
      && (forall k | 0 <= k < |levels| && Index(levels[k], 2) == Ok(1) :: Clean(pulses[k], t1))
      && (forall k | 0 <= k < |levels| :: Near(pulses[k], ns[k], Period(levels[k], [t0, t1])))
  {
    var levels := Levels(edges);
    var pulses := Pulses(edges);
    forall k | 0 <= k < |levels|
      ensures Index(levels[k], 2) == Ok(levels[k])
      ensures Clean(pulses[k], if levels[k] == 0 then t0 else t1)
      ensures Near(pulses[k], ns[k], Period(levels[k], [t0, t1]))
    {
      CleanPulse(levels[k], ns[k], pulses[k], t0, t1);
    }
  }

  lemma CleanPulse(level: int, n: int, pulse: real, t0: real, t1: real)
    requires t0 > 0.0 && t1 > 0.0 && (level == 0 || level == 1) && n >= 1
    requires pulse == n as real * (if level == 0 then t0 else t1)
    ensures Index(level, 2) == Ok(level)
    ensures Clean(pulse, if level == 0 then t0 else t1)
    ensures Near(pulse, n, Period(level, [t0, t1]))
  {
    var t := if level == 0 then t0 else t1;
    if n >= 2 {
      MulAtLeastTwice(n, t);
    } else {
      assert n == 1 && pulse == t;
    }
    assert Period(level, [t0, t1]) == t;
  }
}
