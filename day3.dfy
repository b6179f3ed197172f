/** Day 3: an engine schematic. Each row holds numbers (maximal runs of
    digits), symbols (any character other than a digit or '.') and dots. A
    part number is a number next to a symbol, on its own row or on the row
    above or below; a gear is a '*' next to more than one number. */
module Day3 {
  import opened Common

  /** A number of a row: the columns it spans, both ends included, and its
      value. */
  datatype Num = Num(start: int, end: int, value: nat)

  /** A symbol of a row and its column. */
  datatype Sym = Sym(sym: char, index: int)

  /** The Num constructor: a number read from the digits found at start. */
  function MakeNum(start: int, digits: string): (n: Num)
    requires |digits| > 0 && AllDigits(digits)
    ensures n.start == start && n.end - n.start + 1 == |digits|
    ensures n.value < Pow10(n.end - n.start + 1)
  {
    Num(start, start + |digits| - 1, DecimalValue(digits))
  }

  /** Sym.isAdjacent: the symbol's column lies within one column of the span
      of the number. Rows are not compared; the caller chooses which rows to
      look at. For a number of at least one column this is touching: the
      symbol's column is within one column of some column the number
      occupies (diagonals included). */
  predicate IsAdjacent(s: Sym, n: Num)
    ensures n.start <= n.end ==>
      (IsAdjacent(s, n) <==> exists p :: n.start <= p <= n.end && Touches(s.index, p))
  {
    var near := n.start - 1 <= s.index && s.index <= n.end + 1;
    if near && n.start <= n.end then
      var p := if s.index < n.start then n.start else if s.index > n.end then n.end else s.index;
      assert n.start <= p <= n.end && Touches(s.index, p);
      near
    else
      near
  }

  /** Columns i and p are the same or side by side. */
  predicate Touches(i: int, p: int) { -1 <= i - p <= 1 }

  // ---------------------------------------------------------------------
  // Scanning a row (Line.parse)

  predicate IsSymbolChar(c: char) { !IsDigit(c) && c != '.' }

  /** n is a maximal run of digits of row, with the value of those digits. */
  predicate IsRun(row: string, n: Num)
  {
    0 <= n.start <= n.end < |row| &&
    AllDigits(row[n.start..n.end + 1]) &&
    (n.start == 0 || !IsDigit(row[n.start - 1])) &&
    (n.end + 1 == |row| || !IsDigit(row[n.end + 1])) &&
    n.value == DecimalValue(row[n.start..n.end + 1])
  }

  /** Left to right, separated by at least one column. */
  predicate Ordered(numbers: seq<Num>)
  {
    forall j, k :: 0 <= j < k < |numbers| ==> numbers[j].end + 1 < numbers[k].start
  }

  predicate Covers(numbers: seq<Num>, p: int)
  {
    exists k :: 0 <= k < |numbers| && numbers[k].start <= p <= numbers[k].end
  }

  /** numbers are all the maximal digit runs of row, in order. */
  predicate NumbersOfRow(row: string, numbers: seq<Num>)
  {
    (forall k :: 0 <= k < |numbers| ==> IsRun(row, numbers[k])) &&
    Ordered(numbers) &&
    forall p {:trigger Covers(numbers, p)} :: 0 <= p < |row| && IsDigit(row[p]) ==> Covers(numbers, p)
  }

  /** The symbols among the first i columns of a row, left to right. */
  function SymbolsUpTo(row: string, i: nat): seq<Sym>
    requires i <= |row|
  {
    if i == 0 then []
    else SymbolsUpTo(row, i - 1) + if IsSymbolChar(row[i - 1]) then [Sym(row[i - 1], i - 1)] else []
  }

  /** The symbols of a row, left to right. */
  function SymbolsOf(row: string): seq<Sym>
  {
    SymbolsUpTo(row, |row|)
  }

  /** Each listed symbol is the symbol character at its column, the columns
      increase, and none lies at or beyond column i. */
  lemma {:induction false} SymbolsUpToSound(row: string, i: nat)
    requires i <= |row|
    ensures forall k :: 0 <= k < |SymbolsUpTo(row, i)| ==>
      0 <= SymbolsUpTo(row, i)[k].index < i && SymbolsUpTo(row, i)[k].sym == row[SymbolsUpTo(row, i)[k].index] &&
      IsSymbolChar(SymbolsUpTo(row, i)[k].sym)
    ensures forall k :: 0 <= k < |SymbolsUpTo(row, i)| - 1 ==> SymbolsUpTo(row, i)[k].index < SymbolsUpTo(row, i)[k + 1].index
  {
    if i > 0 {
      SymbolsUpToSound(row, i - 1);
      var syms := SymbolsUpTo(row, i);
      forall k | 0 <= k < |SymbolsUpTo(row, i - 1)|
        ensures syms[k] == SymbolsUpTo(row, i - 1)[k]
      {
      }
    }
  }

  /** Every symbol character before column i is listed. */
  lemma {:induction false} SymbolsUpToComplete(row: string, i: nat, p: int)
    requires i <= |row| && 0 <= p < i && IsSymbolChar(row[p])
    ensures exists k :: 0 <= k < |SymbolsUpTo(row, i)| && SymbolsUpTo(row, i)[k].index == p
  {
    var syms := SymbolsUpTo(row, i);
    if p == i - 1 {
      assert syms[|syms| - 1].index == p;
    } else {
      SymbolsUpToComplete(row, i - 1, p);
      var k :| 0 <= k < |SymbolsUpTo(row, i - 1)| && SymbolsUpTo(row, i - 1)[k].index == p;
      assert syms[k] == SymbolsUpTo(row, i - 1)[k];
    }
  }

  /** The symbols of a row are exactly its symbol characters, left to right. */
  lemma SymbolsOfSpec(row: string)
    ensures forall k :: 0 <= k < |SymbolsOf(row)| ==>
      0 <= SymbolsOf(row)[k].index < |row| && SymbolsOf(row)[k].sym == row[SymbolsOf(row)[k].index] &&
      IsSymbolChar(SymbolsOf(row)[k].sym)
    ensures forall k :: 0 <= k < |SymbolsOf(row)| - 1 ==> SymbolsOf(row)[k].index < SymbolsOf(row)[k + 1].index
    ensures forall p :: 0 <= p < |row| && IsSymbolChar(row[p]) ==>
      exists k :: 0 <= k < |SymbolsOf(row)| && SymbolsOf(row)[k].index == p
  {
    SymbolsUpToSound(row, |row|);
    forall p | 0 <= p < |row| && IsSymbolChar(row[p])
      ensures exists k :: 0 <= k < |SymbolsOf(row)| && SymbolsOf(row)[k].index == p
    {
      SymbolsUpToComplete(row, |row|, p);
      assert SymbolsOf(row) == SymbolsUpTo(row, |row|);
    }
  }

  /** The pending run num, which ends just before column i, is a maximal run. */
  lemma ClosedRunIsRun(row: string, num: string, i: int)
    requires 0 < |num| <= i <= |row| && num == row[i - |num|..i] && AllDigits(num)
    requires i - |num| == 0 || !IsDigit(row[i - |num| - 1])
    requires i == |row| || !IsDigit(row[i])
    ensures IsRun(row, MakeNum(i - |num|, num))
  {
    var n := MakeNum(i - |num|, num);
    assert row[n.start..n.end + 1] == num;
  }

  lemma AllRunsGrow(row: string, numbers: seq<Num>, n: Num)
    requires forall k :: 0 <= k < |numbers| ==> IsRun(row, numbers[k])
    requires IsRun(row, n)
    ensures forall k :: 0 <= k < |numbers + [n]| ==> IsRun(row, (numbers + [n])[k])
  {
    forall k | 0 <= k < |numbers + [n]|
      ensures IsRun(row, (numbers + [n])[k])
    {
      if k < |numbers| {
        assert (numbers + [n])[k] == numbers[k];
      }
    }
  }

  lemma OrderedGrows(numbers: seq<Num>, n: Num)
    requires Ordered(numbers)
    requires forall k :: 0 <= k < |numbers| ==> numbers[k].start <= numbers[k].end
    requires |numbers| > 0 ==> numbers[|numbers| - 1].end + 1 < n.start
    ensures Ordered(numbers + [n])
  {
    var numbers' := numbers + [n];
    forall j, k | 0 <= j < k < |numbers'|
      ensures numbers'[j].end + 1 < numbers'[k].start
    {
      assert numbers'[j] == numbers[j];
      if k < |numbers| {
        assert numbers'[k] == numbers[k];
      } else if j < |numbers| - 1 {
        assert numbers[j].end + 1 < numbers[|numbers| - 1].start;
      }
    }
  }

  /** No digit in columns a up to (excluding) b. */
  predicate NoDigitsIn(row: string, a: int, b: int)
  {
    forall p :: a <= p < b && 0 <= p < |row| ==> !IsDigit(row[p])
  }

  /** No digit between run j and the run after it. */
  predicate GapAfter(row: string, numbers: seq<Num>, j: int)
    requires 0 <= j < |numbers| - 1
  {
    NoDigitsIn(row, numbers[j].end + 1, numbers[j + 1].start)
  }

  /** Before column b, no digit lies outside the runs of numbers: not before
      the first, not between two consecutive ones, not after the last. */
  predicate NoDigitsOutside(row: string, numbers: seq<Num>, b: int)
  {
    NoDigitsIn(row, 0, if |numbers| == 0 then b else numbers[0].start) &&
    (forall j :: 0 <= j < |numbers| - 1 ==> GapAfter(row, numbers, j)) &&
    (|numbers| > 0 ==> NoDigitsIn(row, numbers[|numbers| - 1].end + 1, b))
  }

  /** Every digit before column b is inside a run. */
  lemma {:induction false} CoverageFromGaps(row: string, numbers: seq<Num>, b: int, p: int)
    requires NoDigitsOutside(row, numbers, b)
    requires 0 <= p < b && p < |row| && IsDigit(row[p])
    ensures Covers(numbers, p)
  {
    if |numbers| > 0 {
      var last := numbers[|numbers| - 1];
      if p >= last.start {
        assert numbers[|numbers| - 1].start <= p <= numbers[|numbers| - 1].end;
      } else {
        var init := numbers[..|numbers| - 1];
        if |init| > 0 {
          assert NoDigitsOutside(row, init, last.start) by {
            forall j | 0 <= j < |init| - 1
              ensures GapAfter(row, init, j)
            {
              assert GapAfter(row, numbers, j);
              assert init[j] == numbers[j] && init[j + 1] == numbers[j + 1];
            }
            assert GapAfter(row, numbers, |init| - 1);
          }
          CoverageFromGaps(row, init, last.start, p);
          var k :| 0 <= k < |init| && init[k].start <= p <= init[k].end;
          assert numbers[k] == init[k];
        }
      }
    }
  }

  /** What the scan of Line.parse knows after i columns: numbers are the
      runs that ended before column i, and num holds the digits of the run
      still open at column i. */
  predicate Scanning(row: string, i: int, numbers: seq<Num>, num: string)
  {
    0 <= |num| <= i <= |row| && num == row[i - |num|..i] && AllDigits(num) &&
    (i - |num| == 0 || !IsDigit(row[i - |num| - 1])) &&
    (forall k :: 0 <= k < |numbers| ==> IsRun(row, numbers[k])) &&
    Ordered(numbers) &&
    (|numbers| > 0 ==> numbers[|numbers| - 1].end + 1 < i - |num|) &&
    NoDigitsOutside(row, numbers, i - |num|)
  }

  /** The numbers once the open run, if any, is closed before column i. */
  function Closed(numbers: seq<Num>, num: string, i: int): seq<Num>
    requires AllDigits(num)
  {
    if |num| == 0 then numbers else numbers + [MakeNum(i - |num|, num)]
  }

  /** A digit at column i extends the open run. */
  lemma DigitStep(row: string, i: int, numbers: seq<Num>, num: string)
    requires Scanning(row, i, numbers, num) && i < |row| && IsDigit(row[i])
    ensures Scanning(row, i + 1, numbers, num + [row[i]])
  {
    SliceExtend(row, i - |num|, i);
  }

  lemma SliceExtend(s: string, a: int, b: int)
    requires 0 <= a <= b < |s|
    ensures s[a..b + 1] == s[a..b] + [s[b]]
  {
  }

  /** A new last run n, after a digit-free gap, keeps every digit inside a run. */
  lemma GapsGrow(row: string, numbers: seq<Num>, n: Num, b: int)
    requires NoDigitsOutside(row, numbers, n.start)
    requires n.end + 1 <= b && NoDigitsIn(row, n.end + 1, b)
    ensures NoDigitsOutside(row, numbers + [n], b)
  {
    var numbers' := numbers + [n];
    forall j | 0 <= j < |numbers'| - 1
      ensures GapAfter(row, numbers', j)
    {
      assert numbers'[j] == numbers[j];
      if j + 1 < |numbers| {
        assert GapAfter(row, numbers, j);
        assert numbers'[j + 1] == numbers[j + 1];
      }
    }
  }

  /** A non-digit at column b extends the digit-free stretch after the runs. */
  lemma GapsExtend(row: string, numbers: seq<Num>, b: int)
    requires NoDigitsOutside(row, numbers, b) && 0 <= b < |row| && !IsDigit(row[b])
    requires |numbers| > 0 ==> numbers[|numbers| - 1].end < b
    ensures NoDigitsOutside(row, numbers, b + 1)
  {
  }

  /** Closing the open run at column i, which is not a digit or is the end. */
  lemma CloseStep(row: string, i: int, numbers: seq<Num>, num: string)
    requires Scanning(row, i, numbers, num) && (i == |row| || !IsDigit(row[i]))
    ensures var numbers' := Closed(numbers, num, i);
      (forall k :: 0 <= k < |numbers'| ==> IsRun(row, numbers'[k])) &&
      Ordered(numbers') &&
      (|numbers'| > 0 ==> numbers'[|numbers'| - 1].end + 1 <= i) &&
      NoDigitsOutside(row, numbers', i)
  {
    if |num| != 0 {
      var n := MakeNum(i - |num|, num);
      assert Closed(numbers, num, i) == numbers + [n];
      ClosedRunIsRun(row, num, i);
      AllRunsGrow(row, numbers, n);
      OrderedGrows(numbers, n);
      GapsGrow(row, numbers, n, i);
    }
  }

  /** A non-digit at column i closes the open run, if any. */
  lemma NonDigitStep(row: string, i: int, numbers: seq<Num>, num: string)
    requires Scanning(row, i, numbers, num) && i < |row| && !IsDigit(row[i])
    ensures Scanning(row, i + 1, Closed(numbers, num, i), "")
  {
    CloseStep(row, i, numbers, num);
    GapsExtend(row, Closed(numbers, num, i), i);
  }

  lemma FinishStep(row: string, numbers: seq<Num>, num: string)
    requires Scanning(row, |row|, numbers, num)
    ensures NumbersOfRow(row, Closed(numbers, num, |row|))
  {
    CloseStep(row, |row|, numbers, num);
    var numbers' := Closed(numbers, num, |row|);
    forall p | 0 <= p < |row| && IsDigit(row[p])
      ensures Covers(numbers', p)
    {
      CoverageFromGaps(row, numbers', |row|, p);
    }
  }

  /** The state of the scan of Line.parse after the first i columns: the
      runs closed so far and the digits of the run still open. */
  datatype ScanState = ScanState(numbers: seq<Num>, num: string)

  /** One column of the scan: a digit extends the open run; anything else
      closes it. */
  function Step(row: string, i: nat, st: ScanState): (r: ScanState)
    requires i < |row| && AllDigits(st.num)
    ensures AllDigits(r.num) && |r.num| <= |st.num| + 1
  {
    if IsDigit(row[i]) then ScanState(st.numbers, st.num + [row[i]])
    else ScanState(Closed(st.numbers, st.num, i), "")
  }

  function Scan(row: string, i: nat): (r: ScanState)
    requires i <= |row|
    ensures AllDigits(r.num) && |r.num| <= i
  {
    if i == 0 then ScanState([], "") else Step(row, i - 1, Scan(row, i - 1))
  }

  /** Scanning, for the state of the scan as one value. */
  predicate ScanInvariant(row: string, i: int, st: ScanState)
  {
    Scanning(row, i, st.numbers, st.num)
  }

  /** One column keeps the invariant. */
  lemma StepKeeps(row: string, i: nat, st: ScanState, next: ScanState)
    requires i < |row| && AllDigits(st.num) && next == Step(row, i, st)
    requires ScanInvariant(row, i, st)
    ensures ScanInvariant(row, i + 1, next)
  {
    if IsDigit(row[i]) {
      DigitStep(row, i, st.numbers, st.num);
    } else {
      NonDigitStep(row, i, st.numbers, st.num);
    }
  }

  /** The invariant carries over from the scan of i - 1 columns to that of i. */
  lemma ScanStepKeeps(row: string, i: nat)
    requires 0 < i <= |row|
    ensures ScanInvariant(row, i - 1, Scan(row, i - 1)) ==> ScanInvariant(row, i, Scan(row, i))
  {
    if ScanInvariant(row, i - 1, Scan(row, i - 1)) {
      StepKeeps(row, i - 1, Scan(row, i - 1), Scan(row, i));
    }
  }

  /** The scan keeps its invariant column by column. */
  lemma {:induction false} ScanIsScanning(row: string, i: nat)
    requires i <= |row|
    ensures ScanInvariant(row, i, Scan(row, i))
  {
    if i > 0 {
      ScanIsScanning(row, i - 1);
      ScanStepKeeps(row, i);
    }
  }

  /** The loop of Line.parse over the columns of a row: afterwards the run
      still open at the end of the row is in num. */
  method ScanColumns(row: string) returns (numbers: seq<Num>, num: string, symbols: seq<Sym>)
    ensures ScanState(numbers, num) == Scan(row, |row|)
    ensures symbols == SymbolsOf(row)
  {
    numbers := [];
    symbols := [];
    num := "";
    for i := 0 to |row|
      invariant ScanState(numbers, num) == Scan(row, i)
      invariant symbols == SymbolsUpTo(row, i)
    {
      assert SymbolsUpTo(row, i + 1) == symbols + if IsSymbolChar(row[i]) then [Sym(row[i], i)] else [];
      if IsDigit(row[i]) {
        num := num + [row[i]];
      } else {
        if |num| != 0 {
          var end := i - 1;
          var start := end - |num| + 1;
          numbers := numbers + [MakeNum(start, num)];
          num := "";
        }
        if row[i] != '.' {
          symbols := symbols + [Sym(row[i], i)];
        }
      }
    }
  }

  /** The scan of Line.parse: the numbers of a row are exactly its maximal
      digit runs, in order, and its symbols are exactly the columns holding
      neither a digit nor '.', in order. */
  method ScanRow(row: string) returns (numbers: seq<Num>, symbols: seq<Sym>)
    ensures NumbersOfRow(row, numbers)
    ensures symbols == SymbolsOf(row)
  {
    var num;
    numbers, num, symbols := ScanColumns(row);
    ScanIsScanning(row, |row|);
    assert Scanning(row, |row|, numbers, num);
    FinishStep(row, numbers, num);
    if |num| != 0 {
      var end := |row| - 1;
      var start := end - |num| + 1;
      numbers := numbers + [MakeNum(start, num)];
    }
  }

  // ---------------------------------------------------------------------
  // Part numbers and gears of a row

  /** Some symbol of syms is adjacent to n (Array.prototype.some). */
  predicate AdjacentToAny(syms: seq<Sym>, n: Num)
  {
    exists s :: s in syms && IsAdjacent(s, n)
  }

  lemma AdjacentToAnyConcat(a: seq<Sym>, b: seq<Sym>, n: Num)
    ensures AdjacentToAny(a + b, n) <==> AdjacentToAny(a, n) || AdjacentToAny(b, n)
  {
    if AdjacentToAny(a + b, n) {
      var s :| s in a + b && IsAdjacent(s, n);
    }
  }

  function Stars(symbols: seq<Sym>): seq<Sym>
  {
    Filter(symbols, (s: Sym) => s.sym == '*')
  }

  /** The numbers of nums adjacent to star, in order. */
  function AdjacentTo(star: Sym, nums: seq<Num>): seq<Num>
  {
    Filter(nums, (n: Num) => IsAdjacent(star, n))
  }

  predicate IsGear(star: Sym, nums: seq<Num>)
  {
    |AdjacentTo(star, nums)| > 1
  }

  /** The product of the values, starting from 1. */
  function Product(ns: seq<Num>): int
  {
    if |ns| == 0 then 1 else Product(ns[..|ns| - 1]) * ns[|ns| - 1].value
  }

  /** The gears among stars, in order. */
  function Gears(stars: seq<Sym>, nums: seq<Num>): seq<Sym>
  {
    Filter(stars, (s: Sym) => IsGear(s, nums))
  }

  /** One ratio per gear, in order: the product of all the numbers adjacent
      to it. */
  function Ratios(stars: seq<Sym>, nums: seq<Num>): seq<int>
  {
    var gears := Gears(stars, nums);
    seq(|gears|, k requires 0 <= k < |gears| => Product(AdjacentTo(gears[k], nums)))
  }

  lemma {:induction false} RatiosStep(stars: seq<Sym>, k: nat, nums: seq<Num>)
    requires k < |stars|
    ensures Ratios(stars[..k + 1], nums) ==
      Ratios(stars[..k], nums) + if IsGear(stars[k], nums) then [Product(AdjacentTo(stars[k], nums))] else []
  {
    assert stars[..k + 1] == stars[..k] + [stars[k]];
    FilterConcat(stars[..k], [stars[k]], (s: Sym) => IsGear(s, nums));
    assert [stars[k]][1..] == [];
  }

  /** Filtering three rows one after the other is filtering their
      concatenation. */
  lemma AdjacentAcross(star: Sym, a: seq<Num>, b: seq<Num>, c: seq<Num>)
    ensures AdjacentTo(star, a + b + c) == AdjacentTo(star, a) + AdjacentTo(star, b) + AdjacentTo(star, c)
  {
    FilterConcat(a + b, c, (n: Num) => IsAdjacent(star, n));
    FilterConcat(a, b, (n: Num) => IsAdjacent(star, n));
  }

  /** A row of the schematic, linked to the rows above and below it. */
  class Line {
    const index: int
    const numbers: seq<Num>
    const symbols: seq<Sym>
    var prev: Line?
    var next: Line?

    constructor(index: int, numbers: seq<Num>, symbols: seq<Sym>)
      ensures this.index == index && this.numbers == numbers && this.symbols == symbols
      ensures prev == null && next == null
    {
      this.index := index;
      this.numbers := numbers;
      this.symbols := symbols;
      prev := null;
      next := null;
    }

    /** Line.parse: a row read into its numbers and symbols, not yet linked. */
    static method Parse(index: int, row: string) returns (line: Line)
      ensures fresh(line) && line.index == index && line.prev == null && line.next == null
      ensures NumbersOfRow(row, line.numbers) && line.symbols == SymbolsOf(row)
    {
      var numbers, symbols := ScanRow(row);
      line := new Line(index, numbers, symbols);
    }

    /** The symbols of the row above, this row and the row below; a missing
        row has none. */
    function NearbySymbols(): seq<Sym>
      reads this
    {
      (if prev == null then [] else prev.symbols) + symbols + (if next == null then [] else next.symbols)
    }

    /** The numbers of the row above, this row and the row below. */
    function NearbyNumbers(): seq<Num>
      reads this
    {
      (if prev == null then [] else prev.numbers) + numbers + (if next == null then [] else next.numbers)
    }

    /** Line.partNumbers: the numbers of this row, in order, that some symbol
        of the row above, this row or the row below is adjacent to. */
    function PartNumbers(): (r: seq<Num>)
      reads this
      ensures IsSubsequence(r, numbers)
      ensures forall n :: n in r <==> (n in numbers &&
        ((prev != null && AdjacentToAny(prev.symbols, n)) || AdjacentToAny(symbols, n) ||
         (next != null && AdjacentToAny(next.symbols, n))))
    {
      var nearby := NearbySymbols();
      var r := Filter(numbers, (n: Num) => AdjacentToAny(nearby, n));
      forall n
        ensures AdjacentToAny(nearby, n) <==>
          (prev != null && AdjacentToAny(prev.symbols, n)) || AdjacentToAny(symbols, n) ||
          (next != null && AdjacentToAny(next.symbols, n))
      {
        var above := if prev == null then [] else prev.symbols;
        var below := if next == null then [] else next.symbols;
        AdjacentToAnyConcat(above + symbols, below, n);
        AdjacentToAnyConcat(above, symbols, n);
      }
      r
    }

    /** Line.gearRatios: one ratio per '*' of this row adjacent to more than
        one number of the three rows, in order of the stars. */
    method GearRatios() returns (ratios: seq<int>)
      ensures ratios == Ratios(Stars(symbols), NearbyNumbers())
    {
      var stars := Stars(symbols);
      ghost var nums := NearbyNumbers();
      ratios := [];
      for k := 0 to |stars|
        invariant ratios == Ratios(stars[..k], nums)
      {
        var star := stars[k];
        var adjacent := if prev == null then [] else AdjacentTo(star, prev.numbers);
        adjacent := adjacent + AdjacentTo(star, numbers);
        adjacent := adjacent + if next == null then [] else AdjacentTo(star, next.numbers);
        AdjacentAcross(star, if prev == null then [] else prev.numbers, numbers,
                       if next == null then [] else next.numbers);
        RatiosStep(stars, k, nums);
        if |adjacent| > 1 {
          ratios := ratios + [Product(adjacent)];
        }
      }
      assert stars[..|stars|] == stars;
    }
  }

  // ---------------------------------------------------------------------
  // The rows of a schematic

  /** Row k's prev is row k - 1 and its next is row k + 1; the first row has
      no prev and the last no next. */
  predicate Linked(lines: seq<Line>)
    reads lines
  {
    (forall j, k :: 0 <= j < |lines| - 1 && k == j + 1 ==> lines[k].prev == lines[j] && lines[j].next == lines[k]) &&
    (|lines| > 0 ==> lines[0].prev == null && lines[|lines| - 1].next == null)
  }

  /** Day3.getLines without the file: one Line per row, indexed from 0 and
      linked to its neighbours. */
  method GetLines(rows: seq<string>) returns (lines: seq<Line>)
    ensures |lines| == |rows|
    ensures forall k :: 0 <= k < |lines| ==> fresh(lines[k])
    ensures forall k :: 0 <= k < |lines| ==>
      lines[k].index == k && NumbersOfRow(rows[k], lines[k].numbers) && lines[k].symbols == SymbolsOf(rows[k])
    ensures Linked(lines)
  {
    lines := [];
    var last: Line? := null;
    var index := 0;
    for r := 0 to |rows|
      invariant |lines| == r && index == r
      invariant last == if r == 0 then null else lines[r - 1]
      invariant forall k :: 0 <= k < r ==> fresh(lines[k])
      invariant forall k :: 0 <= k < r ==>
        lines[k].index == k && NumbersOfRow(rows[k], lines[k].numbers) && lines[k].symbols == SymbolsOf(rows[k])
      invariant Linked(lines)
    {
      var cur := Line.Parse(index, rows[r]);
      index := index + 1;
      cur.prev := last;
      if last != null {
        last.next := cur;
      }
      lines := lines + [cur];
      last := cur;
    }
  }

  /** On linked rows, the part numbers of row k are its numbers adjacent to
      a symbol of row k - 1, k or k + 1. */
  lemma PartNumbersOfLinked(lines: seq<Line>, k: nat, n: Num)
    requires Linked(lines) && k < |lines|
    ensures n in lines[k].PartNumbers() <==> (n in lines[k].numbers &&
      exists j :: 0 <= j < |lines| && k - 1 <= j <= k + 1 && AdjacentToAny(lines[j].symbols, n))
  {
    var line := lines[k];
    if k > 0 {
      assert line.prev == lines[k - 1];
    }
    if k < |lines| - 1 {
      assert line.next == lines[k + 1];
    }
    if n in line.PartNumbers() {
      if line.prev != null && AdjacentToAny(line.prev.symbols, n) {
        assert k > 0 && AdjacentToAny(lines[k - 1].symbols, n);
      } else if AdjacentToAny(line.symbols, n) {
        assert AdjacentToAny(lines[k].symbols, n);
      } else {
        assert k < |lines| - 1 && AdjacentToAny(lines[k + 1].symbols, n);
      }
    }
  }

  /** The part numbers of each row, row by row. */
  function PartNumberLists(lines: seq<Line>): seq<seq<Num>>
    reads lines
  {
    seq(|lines|, k requires 0 <= k < |lines| reads lines => lines[k].PartNumbers())
  }

  lemma PartNumberListsMembers(lines: seq<Line>, n: Num)
    ensures n in Concat(PartNumberLists(lines)) <==> exists k :: 0 <= k < |lines| && n in lines[k].PartNumbers()
  {
    var parts := PartNumberLists(lines);
    ConcatMembers(parts, n);
    if k :| 0 <= k < |lines| && n in lines[k].PartNumbers() {
      assert n in parts[k];
    }
  }

  /** Day3.getPartNumbers: the part numbers of every row, row by row; a
      number is collected exactly when it is a part number of some row. */
  function GetPartNumbers(lines: seq<Line>): (r: seq<Num>)
    reads lines
    ensures forall n :: n in r <==> exists k :: 0 <= k < |lines| && n in lines[k].PartNumbers()
  {
    forall n ensures n in Concat(PartNumberLists(lines)) <==> exists k :: 0 <= k < |lines| && n in lines[k].PartNumbers() {
      PartNumberListsMembers(lines, n);
    }
    Concat(PartNumberLists(lines))
  }

  function NumValue(n: Num): int { n.value }

  /** Day3.part1 without the file: the sum of the part numbers, which is the
      sum, row by row, of each row's part numbers, and never negative. */
  function Part1(lines: seq<Line>): (r: int)
    reads lines
    ensures r >= 0
    ensures r == SumOfSums(PartNumberLists(lines), NumValue)
  {
    SumByConcatParts(PartNumberLists(lines), NumValue);
    SumByNonNegative(GetPartNumbers(lines), NumValue);
    SumBy(GetPartNumbers(lines), NumValue)
  }

  /** The gear ratios of every row, row by row. */
  function AllRatios(lines: seq<Line>): seq<int>
    reads lines
  {
    if |lines| == 0 then []
    else AllRatios(lines[..|lines| - 1]) +
         Ratios(Stars(lines[|lines| - 1].symbols), lines[|lines| - 1].NearbyNumbers())
  }

  /** Day3.getGearRatios: the gear ratios of every row, row by row. */
  method GetGearRatios(lines: seq<Line>) returns (ratios: seq<int>)
    ensures ratios == AllRatios(lines)
  {
    ratios := [];
    for k := 0 to |lines|
      invariant ratios == AllRatios(lines[..k])
    {
      var rs := lines[k].GearRatios();
      assert lines[..k + 1][..k] == lines[..k];
      ratios := ratios + rs;
    }
    assert lines[..|lines|] == lines;
  }

  function IntValue(x: int): int { x }

  /** Day3.part2 without the file: the sum of the gear ratios. */
  method Part2(lines: seq<Line>) returns (sum: int)
    ensures sum == SumBy(AllRatios(lines), IntValue)
  {
    var ratios := GetGearRatios(lines);
    sum := SumBy(ratios, IntValue);
  }
}
