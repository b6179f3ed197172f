/** Day 5: seeds, soil, fertilizer ... location. A value passes through a
    chain of stages; each stage is a list of rules "destination source
    length" that shift one source range onto a destination range. Part 1
    maps single seeds, part 2 maps whole seed intervals and looks for the
    least location, cutting the intervals into chunks for parallel work. */
module Day5 {
  import opened Common

  /** Number.MAX_SAFE_INTEGER, the start value of the minimum scans. */
  const MaxSafe: int := 9007199254740991

  // ---------------------------------------------------------------------
  // Rules, stages and the island

  /** A rule. NaNRange is a rule one of whose fields parsed as NaN: every
      comparison with NaN is false, so such a rule covers no value. */
  datatype Range = Range(destination: int, source: int, length: int) | NaNRange

  predicate Covers(r: Range, v: int)
  {
    r.Range? && r.source <= v < r.source + r.length
  }

  /** Range.getDest: the image of v when the rule covers it, and undefined
      (None) otherwise; the image sits at the same offset in the
      destination range as v does in the source range. */
  function GetDest(r: Range, v: int): (d: Option<int>)
    ensures d.Some? <==> Covers(r, v)
    ensures d.Some? ==> r.destination <= d.value < r.destination + r.length
    ensures d.Some? ==> d.value - r.destination == v - r.source
  {
    if r.NaNRange? then None
    else
      var x := v - r.source + r.destination;
      if r.destination <= x < r.destination + r.length then Some(x) else None
  }

  /** A stage: DestSourceMap, its rules in the order of the almanac. */
  datatype DestSourceMap = DestSourceMap(ranges: seq<Range>)

  /** The first rule at index i or later that covers v. */
  function FirstCover(rs: seq<Range>, v: int, i: nat): (k: Option<nat>)
    requires i <= |rs|
    ensures k.Some? ==> i <= k.value < |rs| && Covers(rs[k.value], v)
    ensures k.Some? ==> forall j :: i <= j < k.value ==> !Covers(rs[j], v)
    ensures k.None? ==> forall j :: i <= j < |rs| ==> !Covers(rs[j], v)
    decreases |rs| - i
  {
    if i == |rs| then None
    else if Covers(rs[i], v) then Some(i)
    else FirstCover(rs, v, i + 1)
  }

  /** What a stage does to v: the rule FirstCover finds moves v by the
      offset between its destination and its source, and a value no rule
      covers maps to itself. */
  function StageDest(m: DestSourceMap, v: int): (d: int)
    ensures |m.ranges| == 0 ==> d == v
  {
    match FirstCover(m.ranges, v, 0)
    case Some(k) => GetDest(m.ranges[k], v).value
    case None => v
  }

  /** The first covering rule wins, whatever later rules say. */
  lemma FirstRuleWins(m: DestSourceMap, v: int, k: nat)
    requires k < |m.ranges| && Covers(m.ranges[k], v)
    requires forall j :: 0 <= j < k ==> !Covers(m.ranges[j], v)
    ensures StageDest(m, v) == v - m.ranges[k].source + m.ranges[k].destination
  {
  }

  /** A value no rule covers passes a stage unchanged. */
  lemma UncoveredIsIdentity(m: DestSourceMap, v: int)
    requires forall j :: 0 <= j < |m.ranges| ==> !Covers(m.ranges[j], v)
    ensures StageDest(m, v) == v
  {
  }

  /** DestSourceMap.getDestBySource: try the rules in order and return the
      first result. */
  method GetDestBySource(m: DestSourceMap, v: int) returns (dest: int)
    ensures dest == StageDest(m, v)
  {
    for i := 0 to |m.ranges|
      invariant forall j :: 0 <= j < i ==> !Covers(m.ranges[j], v)
    {
      var d := GetDest(m.ranges[i], v);
      if d.Some? {
        FirstRuleWins(m, v, i);
        return d.value;
      }
    }
    UncoveredIsIdentity(m, v);
    return v;
  }

  /** The island: the seed numbers and the stages, in almanac order. */
  datatype Island = Island(seeds: seq<nat>, maps: seq<DestSourceMap>)

  /** The array that the reduce in Island.getDestBySource builds: every
      intermediate value, the newest first and v itself last. */
  function Trace(maps: seq<DestSourceMap>, v: int): (t: seq<int>)
    ensures |t| == |maps| + 1 && t[|maps|] == v
  {
    if |maps| == 0 then [v]
    else
      var t := Trace(maps[..|maps| - 1], v);
      [StageDest(maps[|maps| - 1], t[0])] + t
  }

  /** Reference definition: run v through the stages, first stage first. */
  function ApplyAll(maps: seq<DestSourceMap>, v: int): int
    decreases |maps|
  {
    if |maps| == 0 then v else ApplyAll(maps[1..], StageDest(maps[0], v))
  }

  lemma {:induction false} ApplyAllSnoc(maps: seq<DestSourceMap>, m: DestSourceMap, v: int)
    ensures ApplyAll(maps + [m], v) == StageDest(m, ApplyAll(maps, v))
    decreases |maps|
  {
    if |maps| > 0 {
      assert (maps + [m])[1..] == maps[1..] + [m];
      ApplyAllSnoc(maps[1..], m, StageDest(maps[0], v));
    }
  }

  /** Running through a + b is running through a, then through b. */
  lemma {:induction false} ApplyAllConcat(a: seq<DestSourceMap>, b: seq<DestSourceMap>, v: int)
    ensures ApplyAll(a + b, v) == ApplyAll(b, ApplyAll(a, v))
    decreases |a|
  {
    if |a| == 0 {
      assert a + b == b;
    } else {
      var w := StageDest(a[0], v);
      assert (a + b)[0] == a[0] && (a + b)[1..] == a[1..] + b;
      assert ApplyAll(a + b, v) == ApplyAll(a[1..] + b, w);
      ApplyAllConcat(a[1..], b, w);
    }
  }

  /** Entry k of the reduce's array is v after all stages but the last k. */
  lemma {:induction false} TraceIsHistory(maps: seq<DestSourceMap>, v: int)
    ensures forall k :: 0 <= k <= |maps| ==> Trace(maps, v)[k] == ApplyAll(maps[..|maps| - k], v)
    decreases |maps|
  {
    if |maps| == 0 {
      assert maps[..0] == [];
    } else {
      var init := maps[..|maps| - 1];
      TraceIsHistory(init, v);
      ApplyAllSnoc(init, maps[|maps| - 1], v);
      assert maps == init + [maps[|maps| - 1]];
      forall k | 0 <= k <= |maps|
        ensures Trace(maps, v)[k] == ApplyAll(maps[..|maps| - k], v)
      {
        if k == 0 {
          assert init[..|init|] == init && maps[..|maps|] == maps;
        } else {
          assert Trace(maps, v)[k] == Trace(init, v)[k - 1];
          assert maps[..|maps| - k] == init[..|init| - (k - 1)];
        }
      }
    }
  }

  /** Island.getDestBySource: the head of the reduce's array, which is v
      run through every stage in order. */
  function IslandDest(island: Island, v: int): (d: int)
    ensures d == ApplyAll(island.maps, v)
  {
    TraceIsHistory(island.maps, v);
    assert island.maps[..|island.maps|] == island.maps;
    Trace(island.maps, v)[0]
  }

  /** Without stages every value is its own location. */
  lemma NoStagesIsIdentity(seeds: seq<nat>, v: int)
    ensures IslandDest(Island(seeds, []), v) == v
  {
  }

  // ---------------------------------------------------------------------
  // Intervals

  /** Interval: a seed range; min is the least location over it once a
      worker has reported one. */
  datatype Interval = Interval(start: nat, count: nat, min: Option<int>)

  /** Interval.id: "start-count", a numeral, a '-' and a numeral. */
  function Id(iv: Interval): (s: string)
    ensures exists n :: 0 < n < |s| - 1 && s[n] == '-' && AllDigits(s[..n]) && AllDigits(s[n + 1..])
  {
    var a, b := NatToString(iv.start), NatToString(iv.count);
    assert (a + "-" + b)[..|a|] == a && (a + "-" + b)[|a| + 1..] == b;
    a + "-" + b
  }

  /** Reading an id back: the leading digits give the start, and what
      follows the '-' gives the count. */
  lemma IdReadsBack(iv: Interval)
    ensures var s := Id(iv); var n := DigitRun(s);
      n < |s| && s[n] == '-' &&
      ParseInt(s[..n]) == Some(iv.start) && ParseInt(s[n + 1..]) == Some(iv.count)
  {
    var a, b := NatToString(iv.start), NatToString(iv.count);
    DashFollowsDigits(a, b);
    ParseIntRoundTrip(iv.start);
    ParseIntRoundTrip(iv.count);
    assert (a + "-" + b)[..|a|] == a && (a + "-" + b)[|a| + 1..] == b;
  }

  /** The length of the leading run of digits. */
  function DigitRun(s: string): (n: nat)
    ensures n <= |s|
  {
    if |s| == 0 || !IsDigit(s[0]) then 0 else 1 + DigitRun(s[1..])
  }

  lemma {:induction false} DashFollowsDigits(a: string, b: string)
    requires AllDigits(a)
    ensures DigitRun(a + "-" + b) == |a|
  {
    if |a| > 0 {
      assert (a + "-" + b)[1..] == a[1..] + "-" + b;
      DashFollowsDigits(a[1..], b);
    }
  }

  /** Two digit strings joined by '-' can be taken apart again. */
  lemma DashJoinInjective(a: string, b: string, c: string, d: string)
    requires AllDigits(a) && AllDigits(b) && AllDigits(c) && AllDigits(d)
    requires a + "-" + b == c + "-" + d
    ensures a == c && b == d
  {
    var s := a + "-" + b;
    DashFollowsDigits(a, b);
    DashFollowsDigits(c, d);
    assert a == s[..|a|] && c == s[..|c|];
    assert b == s[|a| + 1..] && d == s[|c| + 1..];
  }

  /** The id names the interval's start and count. */
  lemma IdInjective(x: Interval, y: Interval)
    requires Id(x) == Id(y)
    ensures x.start == y.start && x.count == y.count
  {
    DashJoinInjective(NatToString(x.start), NatToString(x.count), NatToString(y.start), NatToString(y.count));
    NatToStringInjective(x.start, y.start);
    NatToStringInjective(x.count, y.count);
  }

  /** The intervals that Island.getSeedsAsIntervals builds: one per pair of
      seeds, the first number the start and the second the count. */
  function SeedIntervals(seeds: seq<nat>): (r: seq<Interval>)
    requires |seeds| % 2 == 0
  {
    seq(|seeds| / 2, k requires 0 <= k < |seeds| / 2 => Interval(seeds[2 * k], seeds[2 * k + 1], None))
  }

  /** The numbers the intervals were made from, in order. */
  function Numbers(ivs: seq<Interval>): (s: seq<nat>)
    ensures |s| == 2 * |ivs|
  {
    if |ivs| == 0 then [] else Numbers(ivs[..|ivs| - 1]) + [ivs[|ivs| - 1].start, ivs[|ivs| - 1].count]
  }

  /** Pairing the seeds loses nothing: the pairs spell the seed list. */
  lemma {:induction false} SeedIntervalsRoundTrip(seeds: seq<nat>)
    requires |seeds| % 2 == 0
    ensures Numbers(SeedIntervals(seeds)) == seeds
    decreases |seeds|
  {
    if |seeds| > 0 {
      var init := seeds[..|seeds| - 2];
      SeedIntervalsRoundTrip(init);
      var ivs := SeedIntervals(seeds);
      assert ivs[..|ivs| - 1] == SeedIntervals(init);
      assert seeds == init + [seeds[|seeds| - 2], seeds[|seeds| - 1]];
    }
  }

  /** Island.getSeedsAsIntervals: walk the seeds two at a time. An odd seed
      list would give the last interval an undefined count. */
  method GetSeedsAsIntervals(island: Island) returns (intervals: seq<Interval>)
    requires |island.seeds| % 2 == 0
    ensures |intervals| == |island.seeds| / 2
    ensures forall k :: 0 <= k < |intervals| ==>
      intervals[k] == Interval(island.seeds[2 * k], island.seeds[2 * k + 1], None)
    ensures intervals == SeedIntervals(island.seeds)
  {
    var seeds := island.seeds;
    intervals := [];
    var i := 0;
    while i < |seeds|
      invariant i % 2 == 0 && i <= |seeds|
      invariant |intervals| == i / 2
      invariant forall k :: 0 <= k < |intervals| ==> intervals[k] == Interval(seeds[2 * k], seeds[2 * k + 1], None)
    {
      intervals := intervals + [Interval(seeds[i], seeds[i + 1], None)];
      i := i + 2;
    }
  }

  /** Interval.split: cut off pieces of max values until what is left fits.
      The source recurses for ever when max <= 0 and the count exceeds it,
      hence the precondition. */
  function Split(iv: Interval, max: int): (r: seq<Interval>)
    requires max > 0 || iv.count <= max
    ensures |r| > 0
    ensures iv.count <= max ==> r == [iv]
    decreases iv.count
  {
    if iv.count <= max then [iv]
    else [Interval(iv.start, max, None)] + Split(Interval(iv.start + max, iv.count - max, None), max)
  }

  function TotalCount(ivs: seq<Interval>): nat
  {
    if |ivs| == 0 then 0 else TotalCount(ivs[..|ivs| - 1]) + ivs[|ivs| - 1].count
  }

  lemma {:induction false} TotalCountConcat(a: seq<Interval>, b: seq<Interval>)
    ensures TotalCount(a + b) == TotalCount(a) + TotalCount(b)
    decreases |b|
  {
    if |b| == 0 {
      assert a + b == a;
    } else {
      TotalCountConcat(a, b[..|b| - 1]);
      assert (a + b)[..|a + b| - 1] == a + b[..|b| - 1];
      assert (a + b)[|a + b| - 1] == b[|b| - 1];
    }
  }

  /** The pieces of Split follow one another without gap or overlap: they
      start where the interval starts, end where it ends, and every piece
      but the last holds exactly max values. */
  lemma {:induction false} SplitContiguous(iv: Interval, max: int)
    requires max > 0 || iv.count <= max
    ensures var r := Split(iv, max);
      && r[0].start == iv.start
      && r[|r| - 1].start + r[|r| - 1].count == iv.start + iv.count
      && forall k :: 0 <= k < |r| - 1 ==> r[k].count == max && r[k + 1].start == r[k].start + r[k].count
    decreases iv.count
  {
    if iv.count > max {
      var head := Interval(iv.start, max, None);
      var tail := Interval(iv.start + max, iv.count - max, None);
      var rest := Split(tail, max);
      SplitContiguous(tail, max);
      var r := Split(iv, max);
      assert r == [head] + rest;
      assert forall k :: 1 <= k < |r| ==> r[k] == rest[k - 1];
    }
  }

  /** No piece holds more than max values, and for a non-empty interval no
      piece is empty. */
  lemma {:induction false} SplitBounded(iv: Interval, max: int)
    requires max > 0 || iv.count <= max
    ensures forall k :: 0 <= k < |Split(iv, max)| ==> Split(iv, max)[k].count <= max
    ensures iv.count > 0 ==> forall k :: 0 <= k < |Split(iv, max)| ==> Split(iv, max)[k].count > 0
    decreases iv.count
  {
    if iv.count > max {
      var head := Interval(iv.start, max, None);
      var tail := Interval(iv.start + max, iv.count - max, None);
      var rest := Split(tail, max);
      SplitBounded(tail, max);
      var r := Split(iv, max);
      assert r == [head] + rest;
      assert forall k :: 1 <= k < |r| ==> r[k] == rest[k - 1];
    }
  }

  /** The counts of the pieces add up to the interval's count. */
  lemma {:induction false} SplitTotal(iv: Interval, max: int)
    requires max > 0 || iv.count <= max
    ensures TotalCount(Split(iv, max)) == iv.count
    decreases iv.count
  {
    if iv.count > max {
      var head := Interval(iv.start, max, None);
      var tail := Interval(iv.start + max, iv.count - max, None);
      var rest := Split(tail, max);
      SplitTotal(tail, max);
      assert Split(iv, max) == [head] + rest;
      TotalCountConcat([head], rest);
      TotalCountSingleton(head);
    } else {
      TotalCountSingleton(iv);
    }
  }

  lemma TotalCountSingleton(iv: Interval)
    ensures TotalCount([iv]) == iv.count
  {
    assert [iv][..0] == [];
  }

  /** Every count fits in max, so Split can be applied to each. */
  predicate Splittable(ivs: seq<Interval>, max: int)
  {
    max > 0 || forall k :: 0 <= k < |ivs| ==> ivs[k].count <= max
  }

  /** ConcurrentIntervalProcessor.distributeIntervals: the pieces of every
      interval, interval after interval. */
  function Distribute(ivs: seq<Interval>, max: int): (r: seq<Interval>)
    requires Splittable(ivs, max)
    ensures |r| >= |ivs|
    ensures (forall k :: 0 <= k < |ivs| ==> ivs[k].count <= max) ==> r == ivs
  {
    if |ivs| == 0 then []
    else
      var front := ivs[..|ivs| - 1];
      assert Splittable(front, max) by {
        assert forall k :: 0 <= k < |front| ==> front[k] == ivs[k];
      }
      assert ivs == front + [ivs[|ivs| - 1]];
      Distribute(front, max) + Split(ivs[|ivs| - 1], max)
  }

  /** The chunks hold as many values as the intervals, and none more than
      max. */
  lemma {:induction false} DistributePartition(ivs: seq<Interval>, max: int)
    requires Splittable(ivs, max)
    ensures TotalCount(Distribute(ivs, max)) == TotalCount(ivs)
    ensures forall k :: 0 <= k < |Distribute(ivs, max)| ==> Distribute(ivs, max)[k].count <= max
    decreases |ivs|
  {
    if |ivs| > 0 {
      var front, iv := ivs[..|ivs| - 1], ivs[|ivs| - 1];
      assert Splittable(front, max) && (max > 0 || iv.count <= max) by {
        if max <= 0 {
          forall k | 0 <= k < |front| ensures front[k].count <= max {
            assert front[k] == ivs[k];
          }
        }
      }
      var init := Distribute(front, max);
      var last := Split(iv, max);
      var r := init + last;
      assert Distribute(ivs, max) == r;
      DistributePartition(front, max);
      SplitBounded(iv, max);
      SplitTotal(iv, max);
      TotalCountConcat(init, last);
      forall k | 0 <= k < |r| ensures r[k].count <= max {
        if k >= |init| {
          assert r[k] == last[k - |init|];
        }
      }
    }
  }

  /** Math.ceil(length / procs): the chunk size for procs workers. */
  function ChunkSize(length: nat, procs: nat): (max: nat)
    requires procs > 0
    ensures max * procs >= length
    ensures length > 0 ==> (max - 1) * procs < length
    ensures max == 0 <==> length == 0
  {
    (length + procs - 1) / procs
  }

  /** With the chunk size of ChunkSize every interval can be split. */
  lemma ChunkSizeSplittable(ivs: seq<Interval>, procs: nat)
    requires procs > 0
    ensures Splittable(ivs, ChunkSize(TotalCount(ivs), procs))
  {
    if ChunkSize(TotalCount(ivs), procs) == 0 {
      forall k | 0 <= k < |ivs| ensures ivs[k].count == 0 {
        CountWithinTotal(ivs, k);
      }
    }
  }

  lemma {:induction false} CountWithinTotal(ivs: seq<Interval>, k: nat)
    requires k < |ivs|
    ensures ivs[k].count <= TotalCount(ivs)
    decreases |ivs|
  {
    if k < |ivs| - 1 {
      CountWithinTotal(ivs[..|ivs| - 1], k);
    }
  }

  // ---------------------------------------------------------------------
  // Minimum scans

  /** The location of every value: Island.getDestBySource as a function
      value, so that the scans below can be stated for any location map. */
  function Location(island: Island): int -> int
  {
    v => IslandDest(island, v)
  }

  /** What Main.part2D computes: the least location of the seeds start ..
      start + count - 1, starting from MAX_SAFE_INTEGER. */
  function RangeMin(loc: int -> int, start: int, count: nat): (m: int)
    ensures m <= MaxSafe
  {
    if count == 0 then MaxSafe
    else Min(RangeMin(loc, start, count - 1), loc(start + count - 1))
  }

  /** RangeMin is the minimum: no seed of the range maps lower, and unless
      it is MAX_SAFE_INTEGER some seed of the range maps to it. */
  lemma {:induction false} RangeMinIsMinimum(loc: int -> int, start: int, count: nat)
    ensures forall x :: start <= x < start + count ==> RangeMin(loc, start, count) <= loc(x)
    ensures RangeMin(loc, start, count) == MaxSafe ||
      exists x :: start <= x < start + count && RangeMin(loc, start, count) == loc(x)
  {
    if count > 0 {
      RangeMinIsMinimum(loc, start, count - 1);
      var m := RangeMin(loc, start, count - 1);
      if m > loc(start + count - 1) {
        assert RangeMin(loc, start, count) == loc(start + count - 1);
      }
    }
  }

  /** Scanning a + b seeds is scanning a and then the b that follow. */
  lemma {:induction false} RangeMinSplit(loc: int -> int, start: int, a: nat, b: nat)
    ensures RangeMin(loc, start, a + b) == Min(RangeMin(loc, start, a), RangeMin(loc, start + a, b))
    decreases b
  {
    if b > 0 {
      RangeMinSplit(loc, start, a, b - 1);
    }
  }

  /** The least of the RangeMin of several intervals, MAX_SAFE_INTEGER for
      none. */
  function MinOver(loc: int -> int, ivs: seq<Interval>): (m: int)
    ensures m <= MaxSafe
  {
    if |ivs| == 0 then MaxSafe
    else
      var last := ivs[|ivs| - 1];
      Min(MinOver(loc, ivs[..|ivs| - 1]), RangeMin(loc, last.start, last.count))
  }

  lemma {:induction false} MinOverConcat(loc: int -> int, a: seq<Interval>, b: seq<Interval>)
    ensures MinOver(loc, a + b) == Min(MinOver(loc, a), MinOver(loc, b))
    decreases |b|
  {
    if |b| == 0 {
      assert a + b == a;
    } else {
      MinOverConcat(loc, a, b[..|b| - 1]);
      assert (a + b)[..|a + b| - 1] == a + b[..|b| - 1];
      assert (a + b)[|a + b| - 1] == b[|b| - 1];
    }
  }

  lemma MinOverSingleton(loc: int -> int, iv: Interval)
    ensures MinOver(loc, [iv]) == RangeMin(loc, iv.start, iv.count)
  {
    assert [iv][..0] == [];
  }

  /** The pieces of an interval have the interval's minimum. */
  lemma {:induction false} SplitKeepsMin(loc: int -> int, iv: Interval, max: int)
    requires max > 0 || iv.count <= max
    ensures MinOver(loc, Split(iv, max)) == RangeMin(loc, iv.start, iv.count)
    decreases iv.count
  {
    if iv.count <= max {
      MinOverSingleton(loc, iv);
    } else {
      var head := Interval(iv.start, max, None);
      var tail := Interval(iv.start + max, iv.count - max, None);
      var rest := Split(tail, max);
      assert Split(iv, max) == [head] + rest;
      SplitKeepsMin(loc, tail, max);
      MinOverConcat(loc, [head], rest);
      MinOverSingleton(loc, head);
      RangeMinSplit(loc, iv.start, head.count, tail.count);
      assert head.count + tail.count == iv.count;
      calc {
        MinOver(loc, Split(iv, max));
        MinOver(loc, [head] + rest);
        Min(MinOver(loc, [head]), MinOver(loc, rest));
        Min(RangeMin(loc, iv.start, head.count), RangeMin(loc, tail.start, tail.count));
        RangeMin(loc, iv.start, iv.count);
      }
    }
  }

  /** Cutting intervals into chunks does not change the least location:
      the chunked search of part 2 finds what the whole-range search does. */
  lemma {:induction false} DistributeKeepsMin(loc: int -> int, ivs: seq<Interval>, max: int)
    requires Splittable(ivs, max)
    ensures MinOver(loc, Distribute(ivs, max)) == MinOver(loc, ivs)
    decreases |ivs|
  {
    if |ivs| > 0 {
      var last := ivs[|ivs| - 1];
      DistributeKeepsMin(loc, ivs[..|ivs| - 1], max);
      SplitKeepsMin(loc, last, max);
      MinOverConcat(loc, Distribute(ivs[..|ivs| - 1], max), Split(last, max));
    }
  }

  /** Main.part2D: scan the seeds start .. start + count - 1. */
  method Part2D(island: Island, start: int, count: nat) returns (min: int)
    ensures min == RangeMin(Location(island), start, count)
  {
    min := MaxSafe;
    var x := start;
    var j := 0;
    while j < count
      invariant 0 <= j <= count && x == start + j
      invariant min == RangeMin(Location(island), start, j)
    {
      var ans := IslandDest(island, x);
      min := Min(min, ans);
      j := j + 1;
      x := x + 1;
    }
  }

  /** The intervals part 2 scans: the seed pairs; a trailing seed without a
      count is scanned for zero values and contributes nothing. */
  function PairedSeeds(seeds: seq<nat>): (r: seq<Interval>)
    ensures |r| == |seeds| / 2
  {
    SeedIntervals(seeds[..|seeds| - |seeds| % 2])
  }

  /** An even list of seed numbers is paired up in full. */
  lemma PairedSeedsEven(seeds: seq<nat>)
    requires |seeds| % 2 == 0
    ensures PairedSeeds(seeds) == SeedIntervals(seeds)
  {
    assert seeds[..|seeds| - |seeds| % 2] == seeds;
  }

  /** Scanning the pair that starts at seed i extends the scan of the pairs
      before it by one interval; a last seed without a count adds nothing. */
  lemma PairedSeedsStep(loc: int -> int, seeds: seq<nat>, p: nat)
    requires 2 * p < |seeds|
    ensures var pairs := PairedSeeds(seeds);
      var count := if 2 * p + 1 < |seeds| then seeds[2 * p + 1] else 0;
      MinOver(loc, pairs[..Min(p + 1, |pairs|)]) ==
        Min(MinOver(loc, pairs[..Min(p, |pairs|)]), RangeMin(loc, seeds[2 * p], count))
  {
    var pairs := PairedSeeds(seeds);
    if 2 * p + 1 < |seeds| {
      var even := seeds[..|seeds| - |seeds| % 2];
      assert p < |pairs|;
      assert even[2 * p] == seeds[2 * p] && even[2 * p + 1] == seeds[2 * p + 1];
      assert pairs[p] == Interval(seeds[2 * p], seeds[2 * p + 1], None);
      assert pairs[..p + 1][..p] == pairs[..p];
    } else {
      assert |pairs| == p;
    }
  }

  /** The outer loop of Main.part2A keeps its invariant: having scanned the
      pairs before pair p, scanning pair p gives the minimum over the first
      p + 1 pairs. */
  lemma PairedSeedsAdvance(loc: int -> int, seeds: seq<nat>, p: nat, before: int, min: int)
    requires 2 * p < |seeds|
    requires before == MinOver(loc, PairedSeeds(seeds)[..Min(p, |PairedSeeds(seeds)|)])
    requires min == Min(before, RangeMin(loc, seeds[2 * p], if 2 * p + 1 < |seeds| then seeds[2 * p + 1] else 0))
    ensures min == MinOver(loc, PairedSeeds(seeds)[..Min(p + 1, |PairedSeeds(seeds)|)])
  {
    PairedSeedsStep(loc, seeds, p);
  }

  /** One more seed of the range folds its location into the running minimum. */
  lemma RangeMinStep(loc: int -> int, start: int, j: nat, before: int, min: int, ans: int)
    requires min == Min(before, RangeMin(loc, start, j))
    requires ans == loc(start + j)
    ensures Min(min, ans) == Min(before, RangeMin(loc, start, j + 1))
  {
  }

  /** Main.part2A without the file: scan every seed interval in turn; the
      result is the least location over all seed intervals. */
  method Part2A(island: Island) returns (min: int)
    ensures min == MinOver(Location(island), PairedSeeds(island.seeds))
  {
    var seeds := island.seeds;
    ghost var pairs := PairedSeeds(seeds);
    min := MaxSafe;
    var i := 0;
    ghost var p := 0;
    while i < |seeds|
      invariant i == 2 * p && 0 <= i <= |seeds| + 1
      invariant min == MinOver(Location(island), pairs[..Min(p, |pairs|)])
    {
      var start := seeds[i];
      var count := if i + 1 < |seeds| then seeds[i + 1] else 0;
      ghost var before := min;
      var x := start;
      var j := 0;
      while j < count
        invariant 0 <= j <= count && x == start + j
        invariant min == Min(before, RangeMin(Location(island), start, j))
      {
        var ans := IslandDest(island, x);
        RangeMinStep(Location(island), start, j, before, min, ans);
        min := Min(min, ans);
        j := j + 1;
        x := x + 1;
      }
      PairedSeedsAdvance(Location(island), seeds, p, before, min);
      i, p := i + 2, p + 1;
    }
    assert Min(p, |pairs|) == |pairs| && pairs[..|pairs|] == pairs;
  }

  /** Math.min(...values): the least value, for a non-empty list. */
  function MinOf(s: seq<int>): (m: int)
    requires |s| > 0
    ensures forall k :: 0 <= k < |s| ==> m <= s[k]
    ensures exists k :: 0 <= k < |s| && m == s[k]
  {
    if |s| == 1 then s[0]
    else
      var m := MinOf(s[..|s| - 1]);
      assert forall k :: 0 <= k < |s| - 1 ==> s[..|s| - 1][k] == s[k];
      Min(m, s[|s| - 1])
  }

  /** Main.part1 without the file: the least location of the seeds
      themselves; Math.min of nothing is Infinity, here None. */
  function Part1(island: Island): (r: Option<int>)
    ensures r.Some? <==> |island.seeds| > 0
    ensures r.Some? ==> forall k :: 0 <= k < |island.seeds| ==> r.value <= IslandDest(island, island.seeds[k])
    ensures r.Some? ==> exists k :: 0 <= k < |island.seeds| && r.value == IslandDest(island, island.seeds[k])
  {
    var seeds := island.seeds;
    if |seeds| == 0 then None
    else
      var ans := seq(|seeds|, k requires 0 <= k < |seeds| => IslandDest(island, seeds[k]));
      assert forall k :: 0 <= k < |seeds| ==> ans[k] == IslandDest(island, seeds[k]);
      Some(MinOf(ans))
  }
}
