/** Day 5: IslandFactory, which reads the almanac. The parsers consume a
    shared array of lines from the front, as Array.prototype.shift does. */
module Day5Parsing {
  import opened Common
  import opened Day5

  /** The array of lines the parsers shift from. */
  class LineBuffer {
    var lines: seq<string>

    constructor(lines: seq<string>)
      ensures this.lines == lines
    {
      this.lines := lines;
    }

    /** Array.prototype.shift with the result dropped: the first line goes,
        and an empty array stays empty. */
    method Shift()
      modifies this
      ensures lines == Shifted(old(lines))
    {
      if |lines| > 0 {
        lines := lines[1..];
      }
    }
  }

  function Shifted(lines: seq<string>): (r: seq<string>)
    ensures |lines| > 0 ==> r == lines[1..]
    ensures |lines| == 0 ==> r == []
  {
    if |lines| == 0 then [] else lines[1..]
  }

  // ---------------------------------------------------------------------
  // One rule

  /** IslandFactory.parseMapLine: a line of exactly three fields separated by
      single spaces is a rule, anything else is no rule at all (None). A rule
      with a field that is not a numeral has a NaN field. */
  function ParseMapLine(line: string): (r: Option<Range>)
    ensures r.None? <==> |Common.Split(line, {' '})| != 3
    ensures r.Some? ==>
      var f := Common.Split(line, {' '});
      (r.value.Range? <==> ParseInt(f[0]).Some? && ParseInt(f[1]).Some? && ParseInt(f[2]).Some?)
    ensures r.Some? && r.value.Range? ==>
      var f := Common.Split(line, {' '});
      r.value == Range(ParseInt(f[0]).value, ParseInt(f[1]).value, ParseInt(f[2]).value)
  {
    var f := Common.Split(line, {' '});
    if |f| != 3 then None
    else
      var d, s, l := ParseInt(f[0]), ParseInt(f[1]), ParseInt(f[2]);
      if d.Some? && s.Some? && l.Some? then Some(Range(d.value, s.value, l.value)) else Some(NaNRange)
  }

  /** A rule as the almanac writes it: "destination source length". */
  function RuleLine(d: nat, s: nat, l: nat): string
  {
    NatToString(d) + " " + NatToString(s) + " " + NatToString(l)
  }

  lemma DigitsHaveNoSpace(s: string)
    requires AllDigits(s)
    ensures forall i :: 0 <= i < |s| ==> s[i] !in {' '}
  {
  }

  /** Three numerals joined by single spaces split back into the three. */
  lemma SplitOfThree(a: string, b: string, c: string)
    requires AllDigits(a) && AllDigits(b) && AllDigits(c)
    ensures Common.Split(a + " " + b + " " + c, {' '}) == [a, b, c]
  {
    DigitsHaveNoSpace(a);
    DigitsHaveNoSpace(b);
    DigitsHaveNoSpace(c);
    Common.SplitWhole(c, {' '});
    Common.SplitCons(b, ' ', c, {' '});
    Common.SplitCons(a, ' ', b + [' '] + c, {' '});
    assert a + " " + b + " " + c == a + [' '] + (b + [' '] + c);
  }

  /** Reading back a written rule gives the rule. */
  lemma ParseMapLineRoundTrip(d: nat, s: nat, l: nat)
    ensures ParseMapLine(RuleLine(d, s, l)) == Some(Range(d, s, l))
  {
    SplitOfThree(NatToString(d), NatToString(s), NatToString(l));
    ParseIntRoundTrip(d);
    ParseIntRoundTrip(s);
    ParseIntRoundTrip(l);
  }

  // ---------------------------------------------------------------------
  // One stage

  /** Where IslandFactory.parseMap stops, looking from index i: at the
      first empty line, the first line that is no rule, or the end. */
  function MapEnd(lines: seq<string>, i: nat): (n: nat)
    requires i <= |lines|
    ensures i <= n <= |lines|
    ensures forall k :: i <= k < n ==> lines[k] != "" && ParseMapLine(lines[k]).Some?
    ensures n < |lines| ==> lines[n] == "" || ParseMapLine(lines[n]).None?
    decreases |lines| - i
  {
    if i == |lines| || lines[i] == "" || ParseMapLine(lines[i]).None? then i
    else MapEnd(lines, i + 1)
  }

  /** The rules of the first n lines. */
  function RulesOf(lines: seq<string>, n: nat): (rs: seq<Range>)
    requires n <= |lines|
    requires forall k :: 0 <= k < n ==> ParseMapLine(lines[k]).Some?
  {
    seq(n, k requires 0 <= k < n => ParseMapLine(lines[k]).value)
  }

  /** What IslandFactory.parseMap returns and leaves behind: the rules before
      the stop; an empty line at the stop stays, a line that is no rule is
      consumed. */
  function ParseMapOf(lines: seq<string>): (r: (DestSourceMap, seq<string>))
    ensures var n := MapEnd(lines, 0);
      && |r.0.ranges| == n
      && (forall k :: 0 <= k < n ==> r.0.ranges[k] == ParseMapLine(lines[k]).value)
      && r.1 == (if n < |lines| && lines[n] != "" then lines[n + 1..] else lines[n..])
  {
    var n := MapEnd(lines, 0);
    (DestSourceMap(RulesOf(lines, n)), if n < |lines| && lines[n] != "" then lines[n + 1..] else lines[n..])
  }

  /** IslandFactory.parseMap. */
  method ParseMap(buf: LineBuffer) returns (m: DestSourceMap)
    modifies buf
    ensures (m, buf.lines) == ParseMapOf(old(buf.lines))
  {
    ghost var lines := buf.lines;
    ghost var i: nat := 0;
    var ranges: seq<Range> := [];
    while |buf.lines| > 0 && buf.lines[0] != ""
      invariant i <= |lines| && buf.lines == lines[i..]
      invariant MapEnd(lines, 0) == MapEnd(lines, i)
      invariant |ranges| == i
      invariant forall k :: 0 <= k < i ==> ParseMapLine(lines[k]).Some? && ranges[k] == ParseMapLine(lines[k]).value
      decreases |buf.lines|
    {
      assert buf.lines[0] == lines[i];
      var range := ParseMapLine(buf.lines[0]);
      buf.Shift();
      if range.None? {
        assert buf.lines == lines[i + 1..];
        assert MapEnd(lines, i) == i;
        assert ranges == ParseMapOf(lines).0.ranges;
        return DestSourceMap(ranges);
      }
      ranges := ranges + [range.value];
      i := i + 1;
    }
    assert MapEnd(lines, i) == i;
    assert ranges == ParseMapOf(lines).0.ranges;
    return DestSourceMap(ranges);
  }

  // ---------------------------------------------------------------------
  // All stages

  /** What IslandFactory.parseMaps returns and leaves behind: while the first
      line is not empty, drop the heading, read a stage, drop the line that
      ended it. */
  function ParseMapsOf(lines: seq<string>): (r: (seq<DestSourceMap>, seq<string>))
    ensures |r.0| <= |lines| && |r.1| <= |lines|
    ensures |r.1| == 0 || r.1[0] == ""
    ensures |lines| > 0 && lines[0] != "" ==> |r.0| > 0 && r.0[0] == ParseMapOf(lines[1..]).0
    decreases |lines|
  {
    if |lines| == 0 || lines[0] == "" then ([], lines)
    else
      var (m, rest) := ParseMapOf(lines[1..]);
      var (ms, left) := ParseMapsOf(Shifted(rest));
      ([m] + ms, left)
  }

  /** One stage read off the front of the lines, then what follows the line
      that ended it; the lines left get fewer. */
  lemma ParseMapsStep(lines: seq<string>, m: DestSourceMap, rest: seq<string>, after: seq<string>)
    requires |lines| > 0 && lines[0] != ""
    requires (m, rest) == ParseMapOf(Shifted(lines)) && after == Shifted(rest)
    ensures ParseMapsOf(lines).0 == [m] + ParseMapsOf(after).0
    ensures ParseMapsOf(lines).1 == ParseMapsOf(after).1
    ensures |after| < |lines|
  {
    assert Shifted(lines) == lines[1..];
  }

  /** The loop of parseMaps keeps its invariant over one stage. */
  lemma ParseMapsAdvance(lines: seq<string>, maps: seq<DestSourceMap>, before: seq<string>,
                         m: DestSourceMap, rest: seq<string>, after: seq<string>)
    requires |before| > 0 && before[0] != ""
    requires (m, rest) == ParseMapOf(Shifted(before)) && after == Shifted(rest)
    requires ParseMapsOf(lines).0 == maps + ParseMapsOf(before).0
    requires ParseMapsOf(lines).1 == ParseMapsOf(before).1
    ensures ParseMapsOf(lines).0 == (maps + [m]) + ParseMapsOf(after).0
    ensures ParseMapsOf(lines).1 == ParseMapsOf(after).1
    ensures |after| < |before|
  {
    ParseMapsStep(before, m, rest, after);
    AppendAssoc(maps, [m], ParseMapsOf(after).0);
  }

  /** IslandFactory.parseMaps. */
  method ParseMaps(buf: LineBuffer) returns (maps: seq<DestSourceMap>)
    modifies buf
    ensures (maps, buf.lines) == ParseMapsOf(old(buf.lines))
  {
    ghost var lines := buf.lines;
    maps := [];
    assert [] + ParseMapsOf(lines).0 == ParseMapsOf(lines).0;
    while |buf.lines| > 0 && buf.lines[0] != ""
      invariant ParseMapsOf(lines).0 == maps + ParseMapsOf(buf.lines).0
      invariant ParseMapsOf(lines).1 == ParseMapsOf(buf.lines).1
      decreases |buf.lines|
    {
      ghost var before := buf.lines;
      buf.Shift();
      var m := ParseMap(buf);
      ghost var rest := buf.lines;
      buf.Shift();
      ghost var after := buf.lines;
      ParseMapsAdvance(lines, maps, before, m, rest, after);
      maps := maps + [m];
    }
    assert ParseMapsOf(buf.lines) == ([], buf.lines);
    assert maps + [] == maps;
  }

  // ---------------------------------------------------------------------
  // Seeds and the island

  /** IslandFactory.parseSeeds: the words of the first line but the first
      ("seeds:"); the seed line and the blank line after it are consumed.
      Without any line the source throws a TypeError: None. */
  method ParseSeeds(buf: LineBuffer) returns (seeds: Option<seq<string>>)
    modifies buf
    ensures seeds == SeedWords(old(buf.lines))
    ensures buf.lines == if |old(buf.lines)| == 0 then [] else Shifted(Shifted(old(buf.lines)))
  {
    if |buf.lines| == 0 {
      return None;
    }
    var words := Words(buf.lines[0]);
    buf.Shift();
    buf.Shift();
    return Some(words[1..]);
  }

  function SeedWords(lines: seq<string>): (r: Option<seq<string>>)
    ensures r.Some? <==> |lines| > 0
    ensures r.Some? ==> |r.value| == |Words(lines[0])| - 1
  {
    if |lines| == 0 then None else Some(Words(lines[0])[1..])
  }

  /** The almanac as IslandFactory.parse reads it. None when there is no
      line or a seed is not a numeral. */
  function IslandOf(lines: seq<string>): (r: Option<Island>)
    ensures r.Some? <==>
      |lines| > 0 && forall k :: 1 <= k < |Words(lines[0])| ==> ParseInt(Words(lines[0])[k]).Some?
    ensures r.Some? ==> |r.value.seeds| == |Words(lines[0])| - 1
    ensures r.Some? ==> forall k :: 0 <= k < |r.value.seeds| ==>
      ParseInt(Words(lines[0])[k + 1]) == Some(r.value.seeds[k])
    ensures r.Some? ==> r.value.maps == ParseMapsOf(Shifted(Shifted(lines))).0
  {
    match SeedWords(lines)
    case None => None
    case Some(words) =>
      SeedsAfterFirstWord(Words(lines[0]), words, ParseAll(words, ParseInt));
      match ParseAll(words, ParseInt)
      case None => None
      case Some(seeds) => Some(Island(seeds, ParseMapsOf(Shifted(Shifted(lines))).0))
  }

  /** The words after the first are read as seeds: all of them or none. */
  lemma SeedsAfterFirstWord(all: seq<string>, words: seq<string>, r: Option<seq<nat>>)
    requires |all| > 0 && words == all[1..] && r == ParseAll(words, ParseInt)
    ensures r.Some? <==> forall k :: 1 <= k < |all| ==> ParseInt(all[k]).Some?
    ensures r.Some? ==> |r.value| == |all| - 1
    ensures r.Some? ==> forall k :: 0 <= k < |r.value| ==> ParseInt(all[k + 1]) == Some(r.value[k])
  {
    assert forall k :: 0 <= k < |words| ==> words[k] == all[k + 1];
    if r.None? {
      var k :| 0 <= k < |words| && ParseInt(words[k]).None?;
      assert ParseInt(all[k + 1]).None?;
    }
  }

  // ---------------------------------------------------------------------
  // Writing an almanac back

  /** A rule the almanac can write: a Range with non-negative fields. */
  predicate Writable(r: Range)
  {
    r.Range? && r.destination >= 0 && r.source >= 0 && r.length >= 0
  }

  predicate AllWritable(maps: seq<DestSourceMap>)
  {
    forall i, k :: 0 <= i < |maps| && 0 <= k < |maps[i].ranges| ==> Writable(maps[i].ranges[k])
  }

  /** " n1 n2 ...": each seed after a single space. */
  function SeedsText(seeds: seq<nat>): string
  {
    if |seeds| == 0 then "" else " " + NatToString(seeds[0]) + SeedsText(seeds[1..])
  }

  function Numerals(seeds: seq<nat>): (r: seq<string>)
    ensures |r| == |seeds|
  {
    seq(|seeds|, k requires 0 <= k < |seeds| => NatToString(seeds[k]))
  }

  /** One line per rule, in order. */
  function RuleLines(rs: seq<Range>): (r: seq<string>)
    requires forall k :: 0 <= k < |rs| ==> Writable(rs[k])
    ensures |r| == |rs|
  {
    seq(|rs|, k requires 0 <= k < |rs| && Writable(rs[k]) => RuleLine(rs[k].destination, rs[k].source, rs[k].length))
  }

  /** parseMaps drops a stage's heading unread; every stage gets this one. */
  const Heading := "map:"

  /** Each stage: its heading, its rules, a blank line. */
  function StagesLines(maps: seq<DestSourceMap>): seq<string>
    requires AllWritable(maps)
  {
    if |maps| == 0 then []
    else [Heading] + RuleLines(maps[0].ranges) + [""] + StagesLines(maps[1..])
  }

  /** The almanac of an island: the seed line, a blank line, the stages. */
  function AlmanacLines(island: Island): seq<string>
    requires AllWritable(island.maps)
  {
    ["seeds:" + SeedsText(island.seeds), ""] + StagesLines(island.maps)
  }

  /** A word without spaces followed by the seeds splits into that word and
      the seeds' numerals. */
  lemma {:induction false} SplitSeedsText(a: string, seeds: seq<nat>)
    requires forall i :: 0 <= i < |a| ==> a[i] !in {' '}
    ensures Common.Split(a + SeedsText(seeds), {' '}) == [a] + Numerals(seeds)
    decreases |seeds|
  {
    if |seeds| == 0 {
      assert a + SeedsText(seeds) == a;
      Common.SplitWhole(a, {' '});
    } else {
      var n := NatToString(seeds[0]);
      SeedsTextCons(a, seeds);
      Common.SplitCons(a, ' ', n + SeedsText(seeds[1..]), {' '});
      DigitsHaveNoSpace(n);
      SplitSeedsText(n, seeds[1..]);
      NumeralsCons(seeds);
    }
  }

  lemma SeedsTextCons(a: string, seeds: seq<nat>)
    requires |seeds| > 0
    ensures a + SeedsText(seeds) == a + [' '] + (NatToString(seeds[0]) + SeedsText(seeds[1..]))
  {
    var n, tail := NatToString(seeds[0]), SeedsText(seeds[1..]);
    assert SeedsText(seeds) == " " + n + tail;
    SpaceBetween(a, n, tail);
  }

  lemma SpaceBetween(a: string, n: string, tail: string)
    ensures a + (" " + n + tail) == a + [' '] + (n + tail)
  {
  }

  lemma NumeralsCons(seeds: seq<nat>)
    requires |seeds| > 0
    ensures [NatToString(seeds[0])] + Numerals(seeds[1..]) == Numerals(seeds)
  {
  }

  /** The seed line's words are "seeds:" and the numerals. */
  lemma WordsOfSeedLine(seeds: seq<nat>)
    ensures Words("seeds:" + SeedsText(seeds)) == ["seeds:"] + Numerals(seeds)
  {
    var line := "seeds:" + SeedsText(seeds);
    var numerals := Numerals(seeds);
    assert forall i :: 0 <= i < |"seeds:"| ==> "seeds:"[i] !in {' '};
    SplitSeedsText("seeds:", seeds);
    var parts := ["seeds:"] + numerals;
    assert Common.Split(line, {' '}) == parts;
    forall k | 0 < k < |parts| - 1 ensures parts[k] != "" {
      assert parts[k] == numerals[k - 1];
    }
    WordsOfNonEmptyPieces(line);
  }

  /** Reading the numerals back gives the seeds. */
  lemma ParseNumerals(seeds: seq<nat>)
    ensures ParseAll(Numerals(seeds), ParseInt) == Some(seeds)
  {
    var words := Numerals(seeds);
    forall k | 0 <= k < |words| ensures ParseInt(words[k]) == Some(seeds[k]) {
      ParseIntRoundTrip(seeds[k]);
    }
    var r := ParseAll(words, ParseInt);
    assert r.Some? && |r.value| == |seeds|;
    assert r.value == seeds;
  }

  /** The rules of a stage, then a blank line: parseMap stops at the blank. */
  lemma {:induction false} MapEndAtBlank(lines: seq<string>, i: nat, n: nat)
    requires i <= n < |lines| && lines[n] == ""
    requires forall k :: i <= k < n ==> lines[k] != "" && ParseMapLine(lines[k]).Some?
    ensures MapEnd(lines, i) == n
    decreases n - i
  {
    if i < n {
      MapEndAtBlank(lines, i + 1, n);
    }
  }

  /** parseMap reads a written stage back and leaves the blank line. */
  lemma ParseWrittenStage(m: DestSourceMap, rest: seq<string>)
    requires forall k :: 0 <= k < |m.ranges| ==> Writable(m.ranges[k])
    ensures ParseMapOf(RuleLines(m.ranges) + [""] + rest) == (m, [""] + rest)
  {
    var rules := RuleLines(m.ranges);
    var lines := rules + [""] + rest;
    forall k | 0 <= k < |rules|
      ensures lines[k] != "" && ParseMapLine(lines[k]) == Some(m.ranges[k])
    {
      var r := m.ranges[k];
      assert lines[k] == RuleLine(r.destination, r.source, r.length);
      ParseMapLineRoundTrip(r.destination, r.source, r.length);
    }
    MapEndAtBlank(lines, 0, |rules|);
    var parsed := ParseMapOf(lines);
    assert parsed.0.ranges == m.ranges;
    assert lines[|rules|..] == [""] + rest;
  }

  /** parseMaps reads the written stages back and leaves nothing. */
  lemma {:induction false} ParseWrittenStages(maps: seq<DestSourceMap>)
    requires AllWritable(maps)
    ensures ParseMapsOf(StagesLines(maps)) == (maps, [])
    decreases |maps|
  {
    if |maps| > 0 {
      var lines := StagesLines(maps);
      var after := StagesLines(maps[1..]);
      assert Shifted(lines) == RuleLines(maps[0].ranges) + [""] + after;
      ParseWrittenStage(maps[0], after);
      ParseMapsStep(lines, maps[0], [""] + after, after);
      ParseWrittenStages(maps[1..]);
      assert [maps[0]] + maps[1..] == maps;
    }
  }

  /** Writing an island as an almanac and parsing it gives the island back. */
  lemma AlmanacRoundTrip(island: Island)
    requires AllWritable(island.maps)
    ensures IslandOf(AlmanacLines(island)) == Some(island)
  {
    var lines := AlmanacLines(island);
    WordsOfSeedLine(island.seeds);
    assert SeedWords(lines) == Some(Numerals(island.seeds));
    ParseNumerals(island.seeds);
    assert Shifted(Shifted(lines)) == StagesLines(island.maps);
    ParseWrittenStages(island.maps);
  }

  /** IslandFactory.parse without the file. */
  method Parse(lines: seq<string>) returns (island: Option<Island>)
    ensures island == IslandOf(lines)
  {
    var buf := new LineBuffer(lines);
    var words := ParseSeeds(buf);
    if words.None? {
      return None;
    }
    var seeds := ParseAll(words.value, ParseInt);
    if seeds.None? {
      return None;
    }
    var maps := ParseMaps(buf);
    return Some(Island(seeds.value, maps));
  }
}
