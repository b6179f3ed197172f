/** Day 5: the primary side of ConcurrentIntervalProcessor. It keeps a map
    from interval id ("start-count") to interval, fills it with the seed
    intervals or with their chunks, records the minimum each worker reports
    and, after every report, either reports the global minimum or lists the
    intervals still missing. Forking workers and passing messages are not
    modelled: a report is handed to ProcessResult directly. */
module Day5Processor {
  import opened Common
  import opened Day5

  /** WorkerResult: the id of the interval a worker scanned and the least
      location it found. */
  datatype WorkerResult = WorkerResult(interval: string, min: int)

  /** What checkResults does: with every interval answered it reports each
      id with its minimum and the least of them (Math.min of nothing is
      Infinity, here None) and calls done; otherwise it lists the ids still
      missing. */
  datatype Report =
    | Complete(answers: seq<(string, int)>, answer: Option<int>)
    | Missing(ids: seq<string>)

  // ---------------------------------------------------------------------
  // The Map of intervals, in insertion order

  /** The Map's key Id(iv) names the start and the count and nothing else,
      so the model compares those two directly. */
  function Key(iv: Interval): (nat, nat)
  {
    (iv.start, iv.count)
  }

  /** Equal ids and equal keys are the same thing. */
  lemma IdIffKey(x: Interval, y: Interval)
    ensures Id(x) == Id(y) <==> Key(x) == Key(y)
  {
    if Id(x) == Id(y) {
      IdInjective(x, y);
    }
  }

  /** A Map holds each key once. */
  predicate DistinctKeys(ivs: seq<Interval>)
  {
    forall j, k :: 0 <= j < k < |ivs| ==> Key(ivs[j]) != Key(ivs[k])
  }

  /** Map.prototype.get(id): where the entry with that id is, if any. */
  function IndexOf(ivs: seq<Interval>, id: string): (k: Option<nat>)
    ensures k.Some? ==> k.value < |ivs| && Id(ivs[k.value]) == id
    ensures k.None? ==> forall j :: 0 <= j < |ivs| ==> Id(ivs[j]) != id
  {
    if |ivs| == 0 then None
    else if Id(ivs[|ivs| - 1]) == id then Some(|ivs| - 1)
    else IndexOf(ivs[..|ivs| - 1], id)
  }

  /** Where the entry with the key of iv is, if any. */
  function IndexOfKey(ivs: seq<Interval>, key: (nat, nat)): (k: Option<nat>)
    ensures k.Some? ==> k.value < |ivs| && Key(ivs[k.value]) == key
    ensures k.None? ==> forall j :: 0 <= j < |ivs| ==> Key(ivs[j]) != key
  {
    if |ivs| == 0 then None
    else if Key(ivs[|ivs| - 1]) == key then Some(|ivs| - 1)
    else IndexOfKey(ivs[..|ivs| - 1], key)
  }

  /** The keys of the Map. */
  function Keys(ivs: seq<Interval>): set<(nat, nat)>
  {
    if |ivs| == 0 then {} else Keys(ivs[..|ivs| - 1]) + {Key(ivs[|ivs| - 1])}
  }

  /** A key belongs to the Map exactly when some entry has it. */
  lemma {:induction false} KeysMembers(ivs: seq<Interval>, key: (nat, nat))
    ensures key in Keys(ivs) <==> exists k :: 0 <= k < |ivs| && Key(ivs[k]) == key
  {
    if |ivs| > 0 {
      var init := ivs[..|ivs| - 1];
      KeysMembers(init, key);
      if k :| 0 <= k < |init| && Key(init[k]) == key {
        assert ivs[k] == init[k];
      }
      if k :| 0 <= k < |ivs| && Key(ivs[k]) == key {
        if k < |init| {
          assert init[k] == ivs[k];
        }
      }
    }
  }

  /** Two lists with the same keys, position by position, have the same
      keys. */
  lemma {:induction false} KeysPointwise(a: seq<Interval>, b: seq<Interval>)
    requires |a| == |b| && forall k :: 0 <= k < |a| ==> Key(a[k]) == Key(b[k])
    ensures Keys(a) == Keys(b)
  {
    if |a| > 0 {
      KeysPointwise(a[..|a| - 1], b[..|b| - 1]);
    }
  }

  /** Map.prototype.set(Id(iv), iv): an entry with the same id is replaced
      where it stands, otherwise iv is added at the end. */
  function Put(ivs: seq<Interval>, iv: Interval): (r: seq<Interval>)
    requires DistinctKeys(ivs)
    ensures DistinctKeys(r)
    ensures Keys(r) == Keys(ivs) + {Key(iv)}
    ensures |r| == if Key(iv) in Keys(ivs) then |ivs| else |ivs| + 1
    ensures forall k :: 0 <= k < |ivs| ==> r[k] == if Key(ivs[k]) == Key(iv) then iv else ivs[k]
    ensures |r| > |ivs| ==> r[|ivs|] == iv
  {
    match IndexOfKey(ivs, Key(iv))
    case Some(k) => ReplaceKeepsKeys(ivs, k, iv); ivs[k := iv]
    case None => AppendNewKey(ivs, iv); ivs + [iv]
  }

  /** Replacing the entry with the key of iv keeps the keys and their order. */
  lemma ReplaceKeepsKeys(ivs: seq<Interval>, k: nat, iv: Interval)
    requires DistinctKeys(ivs) && k < |ivs| && Key(ivs[k]) == Key(iv)
    ensures DistinctKeys(ivs[k := iv])
    ensures Keys(ivs[k := iv]) == Keys(ivs) + {Key(iv)}
    ensures Key(iv) in Keys(ivs)
  {
    var r := ivs[k := iv];
    assert forall j :: 0 <= j < |r| ==> Key(r[j]) == Key(ivs[j]);
    KeysPointwise(r, ivs);
    KeysMembers(ivs, Key(iv));
  }

  /** Appending an interval with a new key adds the key at the end. */
  lemma AppendNewKey(ivs: seq<Interval>, iv: Interval)
    requires DistinctKeys(ivs) && forall j :: 0 <= j < |ivs| ==> Key(ivs[j]) != Key(iv)
    ensures DistinctKeys(ivs + [iv])
    ensures Keys(ivs + [iv]) == Keys(ivs) + {Key(iv)}
    ensures Key(iv) !in Keys(ivs)
  {
    var r := ivs + [iv];
    assert r[..|r| - 1] == ivs;
    KeysMembers(ivs, Key(iv));
  }

  /** Every entry of Put(ivs, iv) is iv or an entry of ivs. */
  lemma PutFrom(ivs: seq<Interval>, iv: Interval, j: nat)
    requires DistinctKeys(ivs) && j < |Put(ivs, iv)|
    ensures Put(ivs, iv)[j] == iv || Put(ivs, iv)[j] in ivs
  {
  }

  /** Setting every interval of xs, one after the other: the keys are the
      old keys and those of xs. */
  function PutAll(ivs: seq<Interval>, xs: seq<Interval>): (r: seq<Interval>)
    requires DistinctKeys(ivs)
    ensures DistinctKeys(r)
    ensures Keys(r) == Keys(ivs) + Keys(xs)
  {
    if |xs| == 0 then ivs else Put(PutAll(ivs, xs[..|xs| - 1]), xs[|xs| - 1])
  }

  /** Every entry of PutAll(ivs, xs) is an entry of ivs or of xs. */
  lemma {:induction false} PutAllFrom(ivs: seq<Interval>, xs: seq<Interval>, j: nat)
    requires DistinctKeys(ivs) && j < |PutAll(ivs, xs)|
    ensures PutAll(ivs, xs)[j] in ivs || PutAll(ivs, xs)[j] in xs
  {
    if |xs| > 0 {
      var init := xs[..|xs| - 1];
      var before := PutAll(ivs, init);
      PutFrom(before, xs[|xs| - 1], j);
      if PutAll(ivs, xs)[j] != xs[|xs| - 1] {
        var i :| 0 <= i < |before| && before[i] == PutAll(ivs, xs)[j];
        PutAllFrom(ivs, init, i);
        assert init[..] <= xs;
      }
    }
  }

  // ---------------------------------------------------------------------
  // Recording a worker's minimum and checking for completion

  /** Whether processResult looks the interval up at all: the id must be a
      non-empty string and the minimum must be truthy, so a minimum of 0 is
      ignored like a missing one. */
  predicate Accepted(message: WorkerResult)
  {
    message.interval != "" && message.min != 0
  }

  /** In a Map the only entry with id Id(ivs[k]) is entry k. */
  lemma OnlyEntryWithId(ivs: seq<Interval>, k: nat, id: string)
    requires DistinctKeys(ivs) && k < |ivs| && Id(ivs[k]) == id
    ensures forall j :: 0 <= j < |ivs| ==> (Id(ivs[j]) == id <==> j == k)
  {
    forall j | 0 <= j < |ivs| && Id(ivs[j]) == id ensures j == k {
      IdIffKey(ivs[j], ivs[k]);
    }
  }

  /** The minimum of entry k set to Some(min). */
  function SetMin(ivs: seq<Interval>, id: string, min: int): (r: seq<Interval>)
    requires DistinctKeys(ivs)
    ensures |r| == |ivs|
    ensures forall k :: 0 <= k < |ivs| ==> Key(r[k]) == Key(ivs[k])
    ensures forall k :: 0 <= k < |ivs| ==> r[k].min == if Id(ivs[k]) == id then Some(min) else ivs[k].min
  {
    match IndexOf(ivs, id)
    case Some(k) =>
      OnlyEntryWithId(ivs, k, id);
      ivs[k := ivs[k].(min := Some(min))]
    case None => ivs
  }

  /** The update of processResult, as written: the interval whose id the
      message names gets the message's minimum; an unknown id, an empty id
      or a minimum of 0 changes nothing. A second report for the same id
      overwrites the first. */
  function Record(ivs: seq<Interval>, message: WorkerResult): (r: seq<Interval>)
    requires DistinctKeys(ivs)
    ensures |r| == |ivs|
    ensures forall k :: 0 <= k < |ivs| ==> Key(r[k]) == Key(ivs[k])
    ensures forall k :: 0 <= k < |ivs| ==>
      r[k].min == if Accepted(message) && Id(ivs[k]) == message.interval then Some(message.min) else ivs[k].min
  {
    if Accepted(message) then SetMin(ivs, message.interval, message.min) else ivs
  }

  /** The entries keep their keys, so the keys stay distinct. */
  lemma SameKeysDistinct(ivs: seq<Interval>, r: seq<Interval>)
    requires DistinctKeys(ivs) && |r| == |ivs|
    requires forall k :: 0 <= k < |ivs| ==> Key(r[k]) == Key(ivs[k])
    ensures DistinctKeys(r)
  {
  }

  /** Recording keeps the keys of the Map. */
  lemma RecordKeepsKeys(ivs: seq<Interval>, message: WorkerResult)
    requires DistinctKeys(ivs)
    ensures DistinctKeys(Record(ivs, message))
  {
    SameKeysDistinct(ivs, Record(ivs, message));
  }

  /** Delivering the same report twice records what delivering it once does. */
  lemma RecordIdempotent(ivs: seq<Interval>, message: WorkerResult)
    requires DistinctKeys(ivs)
    ensures DistinctKeys(Record(ivs, message))
    ensures Record(Record(ivs, message), message) == Record(ivs, message)
  {
    RecordKeepsKeys(ivs, message);
    var once := Record(ivs, message);
    var twice := Record(once, message);
    assert forall k :: 0 <= k < |ivs| ==> twice[k] == once[k];
  }

  /** Reports about different intervals may arrive in either order. */
  lemma RecordCommutes(ivs: seq<Interval>, m1: WorkerResult, m2: WorkerResult)
    requires DistinctKeys(ivs) && m1.interval != m2.interval
    ensures DistinctKeys(Record(ivs, m1)) && DistinctKeys(Record(ivs, m2))
    ensures Record(Record(ivs, m1), m2) == Record(Record(ivs, m2), m1)
  {
    RecordKeepsKeys(ivs, m1);
    RecordKeepsKeys(ivs, m2);
    var a := Record(Record(ivs, m1), m2);
    var b := Record(Record(ivs, m2), m1);
    forall k | 0 <= k < |ivs|
      ensures a[k] == b[k]
    {
      assert Key(a[k]) == Key(ivs[k]) == Key(b[k]);
      assert a[k].min == b[k].min;
    }
  }

  /** The ids of the intervals that have no minimum yet, in order. */
  function MissingIds(ivs: seq<Interval>): (ids: seq<string>)
    ensures forall id :: id in ids <==> exists k :: 0 <= k < |ivs| && ivs[k].min.None? && Id(ivs[k]) == id
  {
    if |ivs| == 0 then []
    else
      var last := ivs[|ivs| - 1];
      var ids := MissingIds(ivs[..|ivs| - 1]) + if last.min.None? then [Id(last)] else [];
      NamesOfPending(ivs, MissingIds(ivs[..|ivs| - 1]), Id, ids);
      ids
  }

  /** The names f gives to the intervals without a minimum, one more
      interval at a time. */
  lemma NamesOfPending(ivs: seq<Interval>, prev: seq<string>, f: Interval -> string, ids: seq<string>)
    requires |ivs| > 0
    requires forall id :: id in prev <==>
      exists k :: 0 <= k < |ivs| - 1 && ivs[k].min.None? && f(ivs[k]) == id
    requires ids == prev + if ivs[|ivs| - 1].min.None? then [f(ivs[|ivs| - 1])] else []
    ensures forall id :: id in ids <==> exists k :: 0 <= k < |ivs| && ivs[k].min.None? && f(ivs[k]) == id
  {
    var last := ivs[|ivs| - 1];
    forall id | exists k :: 0 <= k < |ivs| && ivs[k].min.None? && f(ivs[k]) == id
      ensures id in ids
    {
      var k :| 0 <= k < |ivs| && ivs[k].min.None? && f(ivs[k]) == id;
      if k < |ivs| - 1 {
        assert id in prev;
      } else {
        assert id in [f(last)];
      }
    }
  }

  /** The minima of intervals that all have one. */
  function Minima(ivs: seq<Interval>): (mins: seq<int>)
    requires forall k :: 0 <= k < |ivs| ==> ivs[k].min.Some?
    ensures |mins| == |ivs|
  {
    seq(|ivs|, k requires 0 <= k < |ivs| => ivs[k].min.value)
  }

  /** ConcurrentIntervalProcessor.checkResults, without the console: complete
      exactly when every interval has a minimum, and then the answer is the
      least of those minima; otherwise the ids still missing, in order. */
  function CheckResults(ivs: seq<Interval>): (r: Report)
    ensures r.Complete? <==> forall k :: 0 <= k < |ivs| ==> ivs[k].min.Some?
    ensures r.Complete? ==>
      (|r.answers| == |ivs| && forall k :: 0 <= k < |ivs| ==> r.answers[k] == (Id(ivs[k]), ivs[k].min.value))
    ensures r.Complete? ==> (r.answer.None? <==> |ivs| == 0)
    ensures r.Complete? && r.answer.Some? ==>
      (forall k :: 0 <= k < |ivs| ==> r.answer.value <= ivs[k].min.value) &&
      (exists k :: 0 <= k < |ivs| && r.answer.value == ivs[k].min.value)
    ensures r.Missing? ==>
      (|r.ids| > 0 && forall id :: id in r.ids <==> exists k :: 0 <= k < |ivs| && ivs[k].min.None? && Id(ivs[k]) == id)
  {
    if forall k :: 0 <= k < |ivs| ==> ivs[k].min.Some? then
      var mins := Minima(ivs);
      var answers := seq(|ivs|, k requires 0 <= k < |ivs| => (Id(ivs[k]), mins[k]));
      if |ivs| == 0 then Complete(answers, None) else Complete(answers, Some(MinOf(mins)))
    else
      var ids := MissingIds(ivs);
      assert |ids| > 0 by {
        var k :| 0 <= k < |ivs| && ivs[k].min.None?;
        assert Id(ivs[k]) in ids;
      }
      Missing(ids)
  }

  /** A Map of three intervals, two of them answered, lists the third as
      missing and reports no answer. */
  lemma TwoOfThreeAnswered(a: Interval, b: Interval, c: Interval)
    requires a.min.Some? && b.min.Some? && c.min.None?
    ensures CheckResults([a, b, c]) == Missing([Id(c)])
  {
    var ivs := [a, b, c];
    assert ivs[..2][..1][..0] == [];
    assert MissingIds(ivs[..2][..1]) == [];
    assert MissingIds(ivs[..2]) == [];
    assert MissingIds(ivs) == [Id(c)];
  }

  // ---------------------------------------------------------------------
  // The processor

  class ConcurrentIntervalProcessor {
    const island: Island
    /** intervals: the Map from interval id to interval, as its entries in
        insertion order. */
    var intervals: seq<Interval>

    ghost predicate Valid()
      reads this
    {
      DistinctKeys(intervals)
    }

    constructor(island: Island)
      ensures Valid() && this.island == island && intervals == []
    {
      this.island := island;
      intervals := [];
    }

    /** Sets every interval of xs into the Map, in order. */
    method SetAll(xs: seq<Interval>)
      requires Valid()
      modifies this
      ensures Valid() && intervals == PutAll(old(intervals), xs)
    {
      ghost var start := intervals;
      for k := 0 to |xs|
        invariant DistinctKeys(start) && intervals == PutAll(start, xs[..k])
      {
        assert xs[..k + 1][..k] == xs[..k];
        intervals := Put(intervals, xs[k]);
      }
      assert xs[..|xs|] == xs;
    }

    /** setIntervalsFromIslandSeeds: one entry per seed interval. */
    method SetIntervalsFromIslandSeeds()
      requires Valid() && |island.seeds| % 2 == 0
      modifies this
      ensures Valid() && intervals == PutAll(old(intervals), SeedIntervals(island.seeds))
    {
      var ivs := GetSeedsAsIntervals(island);
      SetAll(ivs);
    }

    /** resetIntervalsForMaxCount: one entry per chunk of at most max seeds. */
    method ResetIntervalsForMaxCount(max: int)
      requires Valid() && |island.seeds| % 2 == 0
      requires Splittable(SeedIntervals(island.seeds), max)
      modifies this
      ensures Valid() && intervals == PutAll(old(intervals), Distribute(SeedIntervals(island.seeds), max))
    {
      var ivs := GetSeedsAsIntervals(island);
      ivs := Distribute(ivs, max);
      SetAll(ivs);
    }

    /** runForNumberOfProcs without starting the cluster: the chunk size is
        the number of seeds divided by procs, rounded up. */
    method RunForNumberOfProcs(procs: nat) returns (max: nat)
      requires Valid() && |island.seeds| % 2 == 0 && procs > 0
      modifies this
      ensures max == ChunkSize(TotalCount(SeedIntervals(island.seeds)), procs)
      ensures Splittable(SeedIntervals(island.seeds), max)
      ensures max * procs >= TotalCount(SeedIntervals(island.seeds))
      ensures Valid() && intervals == PutAll(old(intervals), Distribute(SeedIntervals(island.seeds), max))
    {
      var ivs := GetSeedsAsIntervals(island);
      var length := TotalCount(ivs);
      max := ChunkSize(length, procs);
      ChunkSizeSplittable(ivs, procs);
      ResetIntervalsForMaxCount(max);
    }

    /** processResult: record the report, then check for completion. */
    method ProcessResult(message: WorkerResult) returns (report: Report)
      requires Valid()
      modifies this
      ensures Valid() && intervals == Record(old(intervals), message)
      ensures report == CheckResults(intervals)
    {
      RecordKeepsKeys(intervals, message);
      if message.interval != "" && message.min != 0 {
        var k := IndexOf(intervals, message.interval);
        if k.Some? {
          OnlyEntryWithId(intervals, k.value, message.interval);
          intervals := intervals[k.value := intervals[k.value].(min := Some(message.min))];
        }
      }
      report := CheckResults(intervals);
    }
  }

  // ---------------------------------------------------------------------
  // The chunked search finds the least location

  /** The least location over ivs is no more than that of any of them, and
      is MAX_SAFE_INTEGER or the minimum of one of them. */
  lemma {:induction false} MinOverBounds(loc: int -> int, ivs: seq<Interval>)
    ensures forall k :: 0 <= k < |ivs| ==> MinOver(loc, ivs) <= RangeMin(loc, ivs[k].start, ivs[k].count)
    ensures MinOver(loc, ivs) == MaxSafe ||
      exists k :: 0 <= k < |ivs| && MinOver(loc, ivs) == RangeMin(loc, ivs[k].start, ivs[k].count)
  {
    if |ivs| > 0 {
      var init := ivs[..|ivs| - 1];
      MinOverBounds(loc, init);
      assert forall k :: 0 <= k < |init| ==> init[k] == ivs[k];
    }
  }

  /** Every interval of a has one with the same start and count in b. */
  predicate RangesWithin(a: seq<Interval>, b: seq<Interval>)
  {
    forall j :: 0 <= j < |a| ==> exists k :: 0 <= k < |b| && Key(a[j]) == Key(b[k])
  }

  /** If every interval of b has the seed range of one of a, the least
      location over a is no more than that over b. */
  lemma MinOverWithin(loc: int -> int, a: seq<Interval>, b: seq<Interval>)
    requires RangesWithin(b, a)
    ensures MinOver(loc, a) <= MinOver(loc, b)
  {
    MinOverBounds(loc, b);
    if MinOver(loc, b) != MaxSafe {
      var k :| 0 <= k < |b| && MinOver(loc, b) == RangeMin(loc, b[k].start, b[k].count);
      var j :| 0 <= j < |a| && Key(b[k]) == Key(a[j]);
      MinOverBounds(loc, a);
      assert MinOver(loc, a) <= RangeMin(loc, a[j].start, a[j].count);
    }
  }

  /** Filling an empty Map with xs tracks only seed ranges of xs. */
  lemma PutAllWithin(xs: seq<Interval>)
    ensures RangesWithin(PutAll([], xs), xs)
  {
    var r := PutAll([], xs);
    forall j | 0 <= j < |r|
      ensures exists k :: 0 <= k < |xs| && Key(r[j]) == Key(xs[k])
    {
      PutAllFrom([], xs, j);
      var k :| 0 <= k < |xs| && xs[k] == r[j];
    }
  }

  /** Filling an empty Map with xs tracks every seed range of xs. */
  lemma PutAllCovers(xs: seq<Interval>)
    ensures RangesWithin(xs, PutAll([], xs))
  {
    var r := PutAll([], xs);
    forall k | 0 <= k < |xs|
      ensures exists j :: 0 <= j < |r| && Key(xs[k]) == Key(r[j])
    {
      KeysMembers(xs, Key(xs[k]));
      KeysMembers(r, Key(xs[k]));
    }
  }

  /** What the workers send back, one report per tracked interval: its id
      and the result of Main.part2D over it. */
  function Results(loc: int -> int, ivs: seq<Interval>): (ms: seq<WorkerResult>)
    ensures |ms| == |ivs|
  {
    seq(|ivs|, k requires 0 <= k < |ivs| => WorkerResult(Id(ivs[k]), RangeMin(loc, ivs[k].start, ivs[k].count)))
  }

  /** The update processResult evidently intends: every report about a
      tracked interval is recorded, whatever its minimum, 0 included. */
  function RecordFixed(ivs: seq<Interval>, message: WorkerResult): (r: seq<Interval>)
    requires DistinctKeys(ivs)
    ensures |r| == |ivs| && DistinctKeys(r)
    ensures forall k :: 0 <= k < |ivs| ==> Key(r[k]) == Key(ivs[k])
    ensures forall k :: 0 <= k < |ivs| ==>
      r[k].min == if Id(ivs[k]) == message.interval then Some(message.min) else ivs[k].min
  {
    var r := SetMin(ivs, message.interval, message.min);
    SameKeysDistinct(ivs, r);
    r
  }

  /** The two agree on every report with a non-zero minimum. */
  lemma RecordAgreesWhenNonZero(ivs: seq<Interval>, message: WorkerResult)
    requires DistinctKeys(ivs) && message.interval != "" && message.min != 0
    ensures Record(ivs, message) == RecordFixed(ivs, message)
  {
    var a := Record(ivs, message);
    var b := RecordFixed(ivs, message);
    assert forall k :: 0 <= k < |ivs| ==> a[k] == b[k];
  }

  /** Delivering the reports ms one after the other with the corrected update. */
  function DeliverAll(ivs: seq<Interval>, ms: seq<WorkerResult>): (r: seq<Interval>)
    requires DistinctKeys(ivs)
    ensures |r| == |ivs| && DistinctKeys(r)
    ensures forall k :: 0 <= k < |ivs| ==> Key(r[k]) == Key(ivs[k])
  {
    if |ms| == 0 then ivs else RecordFixed(DeliverAll(ivs, ms[..|ms| - 1]), ms[|ms| - 1])
  }

  /** The minimum of the last report about id among ms. */
  function LastFor(ms: seq<WorkerResult>, id: string): Option<int>
  {
    if |ms| == 0 then None
    else if ms[|ms| - 1].interval == id then Some(ms[|ms| - 1].min)
    else LastFor(ms[..|ms| - 1], id)
  }

  /** The last report about an interval decides its minimum; an interval
      nobody reported about keeps what it had. Reports about different
      intervals may therefore arrive in any order. */
  lemma {:induction false} DeliverAllLastWins(ivs: seq<Interval>, ms: seq<WorkerResult>, k: nat)
    requires DistinctKeys(ivs) && k < |ivs|
    ensures DeliverAll(ivs, ms)[k].min ==
      if LastFor(ms, Id(ivs[k])).Some? then LastFor(ms, Id(ivs[k])) else ivs[k].min
  {
    if |ms| > 0 {
      DeliverAllLastWins(ivs, ms[..|ms| - 1], k);
    }
  }

  /** A report that no later report about the same id follows is the last. */
  lemma {:induction false} LastForIsLast(ms: seq<WorkerResult>, i: nat)
    requires i < |ms|
    requires forall j :: i < j < |ms| ==> ms[j].interval != ms[i].interval
    ensures LastFor(ms, ms[i].interval) == Some(ms[i].min)
  {
    if i < |ms| - 1 {
      var init := ms[..|ms| - 1];
      assert init[i] == ms[i];
      LastForIsLast(init, i);
    }
  }

  /** The tracked intervals, each with the minimum its worker found. */
  function Answered(loc: int -> int, ivs: seq<Interval>): (r: seq<Interval>)
    ensures |r| == |ivs|
    ensures forall k :: 0 <= k < |ivs| ==> Key(r[k]) == Key(ivs[k])
    ensures forall k :: 0 <= k < |ivs| ==> r[k].min == Some(RangeMin(loc, ivs[k].start, ivs[k].count))
  {
    seq(|ivs|, k requires 0 <= k < |ivs| =>
      ivs[k].(min := Some(RangeMin(loc, ivs[k].start, ivs[k].count))))
  }

  /** Once every worker has reported, every interval holds its own minimum. */
  lemma DeliverResults(loc: int -> int, ivs: seq<Interval>)
    requires DistinctKeys(ivs)
    ensures DeliverAll(ivs, Results(loc, ivs)) == Answered(loc, ivs)
  {
    var ms := Results(loc, ivs);
    var r := DeliverAll(ivs, ms);
    forall k | 0 <= k < |ivs| ensures r[k] == Answered(loc, ivs)[k] {
      forall j | k < j < |ms| ensures ms[j].interval != ms[k].interval {
        IdIffKey(ivs[j], ivs[k]);
      }
      LastForIsLast(ms, k);
      DeliverAllLastWins(ivs, ms, k);
    }
  }

  /** With every interval answered, checkResults completes with the least
      location over all of them. */
  lemma CheckAnswered(loc: int -> int, ivs: seq<Interval>)
    requires |ivs| > 0
    ensures CheckResults(Answered(loc, ivs)).Complete?
    ensures CheckResults(Answered(loc, ivs)).answer == Some(MinOver(loc, ivs))
  {
    var a := Answered(loc, ivs);
    assert forall k :: 0 <= k < |a| ==> a[k].min.Some?;
    var r := CheckResults(a);
    assert r.Complete? && r.answer.Some?;
    var m := r.answer.value;
    var k :| 0 <= k < |a| && m == a[k].min.value;
    MinOverBounds(loc, ivs);
    assert MinOver(loc, ivs) <= m;
    var j := 0;
    if MinOver(loc, ivs) != MaxSafe {
      j :| 0 <= j < |ivs| && MinOver(loc, ivs) == RangeMin(loc, ivs[j].start, ivs[j].count);
    }
    assert m <= a[j].min.value == RangeMin(loc, ivs[j].start, ivs[j].count) <= MaxSafe;
    assert m == MinOver(loc, ivs);
  }

  /** The distributed search of part 2, end to end: the seed intervals are
      cut into chunks of at most max seeds, each chunk is tracked once,
      every worker reports the part2D minimum of its chunk, and the answer is
      the least location over the original seed intervals, which is what the
      sequential scan of part2A finds. */
  lemma ChunkedSearchFindsMinimum(island: Island, max: int)
    requires |island.seeds| > 0 && |island.seeds| % 2 == 0
    requires Splittable(SeedIntervals(island.seeds), max)
    ensures var seeds := SeedIntervals(island.seeds);
      var tracked := PutAll([], Distribute(seeds, max));
      var report := CheckResults(DeliverAll(tracked, Results(Location(island), tracked)));
      report.Complete? && report.answer == Some(MinOver(Location(island), seeds)) &&
      report.answer == Some(MinOver(Location(island), PairedSeeds(island.seeds)))
  {
    var loc := Location(island);
    var seeds := SeedIntervals(island.seeds);
    var chunks := Distribute(seeds, max);
    var tracked := PutAll([], chunks);
    DeliverResults(loc, tracked);
    DistributeNonEmpty(seeds, max);
    assert |tracked| > 0 by {
      KeysMembers(chunks, Key(chunks[0]));
      KeysMembers(tracked, Key(chunks[0]));
    }
    CheckAnswered(loc, tracked);
    assert MinOver(loc, tracked) <= MinOver(loc, chunks) by {
      PutAllCovers(chunks);
      MinOverWithin(loc, tracked, chunks);
    }
    assert MinOver(loc, chunks) <= MinOver(loc, tracked) by {
      PutAllWithin(chunks);
      MinOverWithin(loc, chunks, tracked);
    }
    DistributeKeepsMin(loc, seeds, max);
    PairedSeedsEven(island.seeds);
  }

  /** At least one chunk comes out of a non-empty list of intervals. */
  lemma {:induction false} DistributeNonEmpty(ivs: seq<Interval>, max: int)
    requires Splittable(ivs, max) && |ivs| > 0
    ensures |Distribute(ivs, max)| > 0
  {
  }

  // ---------------------------------------------------------------------
  // A minimum of 0 is never recorded

  /** processResult ignores a report whose minimum is 0. */
  lemma ZeroMinimumIgnored(ivs: seq<Interval>, message: WorkerResult)
    requires DistinctKeys(ivs) && message.min == 0
    ensures Record(ivs, message) == ivs
  {
    var r := Record(ivs, message);
    assert forall k :: 0 <= k < |ivs| ==> r[k] == ivs[k];
  }

  /** The seed interval "5-1" on an almanac whose one stage sends seed 5 to
      0 (rule "0 5 1"): the chunk starts at 5, so its worker runs; it finds
      the minimum 0, processResult drops that report, and checkResults keeps
      listing "5-1" as missing, so done is never called. */
  lemma ZeroMinimumStalls()
    ensures var island := Island([5, 1], [DestSourceMap([Range(0, 5, 1)])]);
      var tracked := PutAll([], SeedIntervals(island.seeds));
      var ms := Results(Location(island), tracked);
      |tracked| == 1 && tracked[0].start == 5 &&
      |ms| == 1 && ms[0].min == 0 &&
      Record(tracked, ms[0]) == tracked &&
      CheckResults(Record(tracked, ms[0])).Missing?
  {
    var stage := DestSourceMap([Range(0, 5, 1)]);
    var island := Island([5, 1], [stage]);
    var seeds := SeedIntervals(island.seeds);
    assert seeds == [Interval(5, 1, None)];
    var tracked := PutAll([], seeds);
    assert PutAll([], seeds[..0]) == [];
    assert tracked == [Interval(5, 1, None)];
    assert StageDest(stage, 5) == 0;
    assert Trace(island.maps, 5) == [0, 5] by {
      assert island.maps[..0] == [];
    }
    assert Location(island)(5) == 0;
    assert RangeMin(Location(island), 5, 1) == 0;
    var ms := Results(Location(island), tracked);
    ZeroMinimumIgnored(tracked, ms[0]);
    assert tracked[0].min.None?;
  }

}
