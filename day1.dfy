/** Day 1: a calibration value is read off each line from its first and its
    last digit; part 2 also counts the spelled-out names "zero" .. "nine". */
module Day1 {
  import opened Common

  /** The word table of part 2: Numbers[d] spells the digit d. */
  const Numbers: seq<string> :=
    ["zero", "one", "two", "three", "four", "five", "six", "seven", "eight", "nine"]

  /** The two variables that the `assign` closure updates: num1 receives the
      first digit found, numLast every digit found after it. */
  datatype Seen = Seen(num1: Option<nat>, numLast: Option<nat>)

  const Unseen := Seen(None, None)

  predicate SingleDigits(s: Seen)
  {
    (s.num1.Some? ==> s.num1.value < 10) && (s.numLast.Some? ==> s.numLast.value < 10)
  }

  function Assign(s: Seen, n: nat): Seen
  {
    if s.num1.None? then s.(num1 := Some(n)) else s.(numLast := Some(n))
  }

  /** The state after assigning the digits ds, one at a time, from the left. */
  function AssignAll(ds: seq<nat>): Seen
  {
    if |ds| == 0 then Unseen else Assign(AssignAll(ds[..|ds| - 1]), ds[|ds| - 1])
  }

  lemma AssignAllSnoc(ds: seq<nat>, d: nat)
    ensures AssignAll(ds + [d]) == Assign(AssignAll(ds), d)
  {
    assert (ds + [d])[..|ds|] == ds;
  }

  /** What both parts return: num1 * 10 + (numLast or else num1), where a
      missing digit and the digit 0 both count as false. With single digits
      the result has two digits, the tens being num1, and never ends in 0. */
  function Result(s: Seen): (r: nat)
    ensures r == 0 <==> s.num1.None? || s.num1.value == 0
    ensures SingleDigits(s) ==> r <= 99
    ensures SingleDigits(s) && r != 0 ==> r / 10 == s.num1.value && r % 10 != 0
  {
    match s.num1
    case None => 0
    case Some(first) =>
      if first == 0 then 0
      else first * 10 + (if s.numLast.Some? && s.numLast.value != 0 then s.numLast.value else first)
  }

  /** Assigning keeps the first digit in num1 and the last one, when there
      are at least two, in numLast. */
  lemma {:induction false} AssignAllFirstLast(ds: seq<nat>)
    ensures AssignAll(ds).num1 == if |ds| > 0 then Some(ds[0]) else None
    ensures AssignAll(ds).numLast == if |ds| >= 2 then Some(ds[|ds| - 1]) else None
  {
    if |ds| > 0 {
      AssignAllFirstLast(ds[..|ds| - 1]);
    }
  }

  /** The value a line of digits ds yields: 0 with no digit or a leading 0,
      and otherwise ten times the first digit plus the last one (the first
      again when there is only one, or when the last is 0). */
  lemma ResultOfDigits(ds: seq<nat>)
    requires forall k :: 0 <= k < |ds| ==> ds[k] < 10
    ensures Result(AssignAll(ds)) <= 99
    ensures Result(AssignAll(ds)) == 0 <==> |ds| == 0 || ds[0] == 0
    ensures |ds| > 0 && ds[0] != 0 ==>
      Result(AssignAll(ds)) ==
        10 * ds[0] + (if |ds| >= 2 && ds[|ds| - 1] != 0 then ds[|ds| - 1] else ds[0])
  {
    AssignAllFirstLast(ds);
  }

  // ---------------------------------------------------------------------
  // Part 1: digit characters only

  /** The values of the digit characters of line[..n], in order. */
  function DigitsUpTo(line: string, n: nat): (ds: seq<nat>)
    requires n <= |line|
    ensures forall k :: 0 <= k < |ds| ==> ds[k] < 10
  {
    if n == 0 then []
    else DigitsUpTo(line, n - 1) + (if IsDigit(line[n - 1]) then [DigitValue(line[n - 1])] else [])
  }

  function Digits(line: string): seq<nat> { DigitsUpTo(line, |line|) }

  /** The digit list is empty exactly when no character is a digit. */
  lemma {:induction false} DigitsNone(line: string, n: nat)
    requires n <= |line|
    ensures |DigitsUpTo(line, n)| == 0 <==> forall i :: 0 <= i < n ==> !IsDigit(line[i])
  {
    if n > 0 {
      DigitsNone(line, n - 1);
    }
  }

  /** Its first entry is the value of the first digit character. */
  lemma {:induction false} DigitsFirst(line: string, n: nat, i: nat)
    requires i < n <= |line| && IsDigit(line[i])
    requires forall j :: 0 <= j < i ==> !IsDigit(line[j])
    ensures |DigitsUpTo(line, n)| > 0 && DigitsUpTo(line, n)[0] == DigitValue(line[i])
  {
    var tail := if IsDigit(line[n - 1]) then [DigitValue(line[n - 1])] else [];
    assert DigitsUpTo(line, n) == DigitsUpTo(line, n - 1) + tail;
    if n - 1 == i {
      DigitsNone(line, i);
    } else {
      DigitsFirst(line, n - 1, i);
    }
  }

  /** Its last entry is the value of the last digit character. */
  lemma {:induction false} DigitsLast(line: string, n: nat, i: nat)
    requires i < n <= |line| && IsDigit(line[i])
    requires forall j :: i < j < n ==> !IsDigit(line[j])
    ensures |DigitsUpTo(line, n)| > 0 && DigitsUpTo(line, n)[|DigitsUpTo(line, n)| - 1] == DigitValue(line[i])
  {
    if n - 1 > i {
      DigitsLast(line, n - 1, i);
    }
  }

  function CalibrationValue(line: string): nat { Result(AssignAll(Digits(line))) }

  /** Part 1 of a line, in terms of its characters: 0 when the line has no
      digit or its first digit is '0'; otherwise ten times the first digit
      plus the last one, where the first stands in for a missing or '0' last. */
  lemma CalibrationValueSpec(line: string, i: nat, j: nat)
    requires i <= j < |line| && IsDigit(line[i]) && IsDigit(line[j])
    requires forall k :: 0 <= k < i ==> !IsDigit(line[k])
    requires forall k :: j < k < |line| ==> !IsDigit(line[k])
    ensures CalibrationValue(line) <= 99
    ensures CalibrationValue(line) == 0 <==> line[i] == '0'
    ensures line[i] != '0' ==>
      CalibrationValue(line) ==
        10 * DigitValue(line[i]) + (if i < j && line[j] != '0' then DigitValue(line[j]) else DigitValue(line[i]))
  {
    var ds := Digits(line);
    ResultOfDigits(ds);
    DigitsFirst(line, |line|, i);
    DigitsLast(line, |line|, j);
    if i < j {
      DigitsUpToTwo(line, i, j);
    } else {
      DigitsUpToOne(line, i);
    }
  }

  lemma NoDigitCalibrationValue(line: string)
    requires forall k :: 0 <= k < |line| ==> !IsDigit(line[k])
    ensures CalibrationValue(line) == 0
  {
    DigitsNone(line, |line|);
  }

  /** Two distinct digit positions give at least two entries. */
  lemma {:induction false} DigitsUpToTwo(line: string, i: nat, j: nat)
    requires i < j < |line| && IsDigit(line[i]) && IsDigit(line[j])
    ensures |Digits(line)| >= 2
  {
    DigitsCountFrom(line, i + 1, j);
  }

  lemma {:induction false} DigitsCountFrom(line: string, n: nat, j: nat)
    requires 0 < n <= j < |line| && IsDigit(line[j]) && |DigitsUpTo(line, n)| >= 1
    ensures |DigitsUpTo(line, |line|)| >= 2
    decreases |line| - n
  {
    DigitsUpToGrows(line, n, |line|);
    DigitsUpToGrows(line, j + 1, |line|);
    DigitsUpToGrows(line, n, j);
  }

  lemma {:induction false} DigitsUpToGrows(line: string, m: nat, n: nat)
    requires m <= n <= |line|
    ensures |DigitsUpTo(line, m)| <= |DigitsUpTo(line, n)|
    ensures m < n && IsDigit(line[n - 1]) ==> |DigitsUpTo(line, m)| < |DigitsUpTo(line, n)|
    decreases n - m
  {
    if m < n {
      DigitsUpToGrows(line, m, n - 1);
    }
  }

  /** A single digit position with no digit on either side gives one entry. */
  lemma {:induction false} DigitsUpToOne(line: string, i: nat)
    requires i < |line| && IsDigit(line[i])
    requires forall k :: 0 <= k < |line| && k != i ==> !IsDigit(line[k])
    ensures |Digits(line)| == 1
  {
    DigitsNone(line, i);
    DigitsAfterNone(line, i + 1, |line|);
  }

  lemma {:induction false} DigitsAfterNone(line: string, m: nat, n: nat)
    requires 0 < m <= n <= |line|
    requires forall k :: m <= k < n ==> !IsDigit(line[k])
    ensures DigitsUpTo(line, n) == DigitsUpTo(line, m)
    decreases n - m
  {
    if m < n {
      DigitsAfterNone(line, m, n - 1);
    }
  }

  /** Day1.part1: the loop over the characters of the line. */
  method Part1(line: string) returns (r: nat)
    ensures r == CalibrationValue(line)
  {
    var seen := Unseen;
    for i := 0 to |line|
      invariant seen == AssignAll(DigitsUpTo(line, i))
    {
      ghost var ds := DigitsUpTo(line, i);
      if '0' <= line[i] <= '9' {
        assert DigitsUpTo(line, i + 1) == ds + [DigitValue(line[i])];
        AssignAllSnoc(ds, DigitValue(line[i]));
        seen := Assign(seen, DigitValue(line[i]));
      } else {
        assert DigitsUpTo(line, i + 1) == ds;
      }
    }
    r := Result(seen);
  }

  // ---------------------------------------------------------------------
  // Part 2: digit characters and spelled-out digits

  /** line.substring(i, i + |w|) == w: substring clips its end at the line's end. */
  predicate MatchesAt(line: string, i: nat, w: string)
    requires i <= |line|
  {
    line[i..Min(i + |w|, |line|)] == w
  }

  /** For a non-empty word the test is "w occurs in line at i". */
  lemma MatchesAtIsOccurrence(line: string, i: nat, w: string)
    requires i <= |line| && |w| > 0
    ensures MatchesAt(line, i, w) <==> i + |w| <= |line| && line[i..i + |w|] == w
  {
  }

  /** The inner loop of part 2 from word x on: the first word of the table,
      in table order, that starts at position i. */
  function WordAt(line: string, i: nat, x: nat): (r: Option<nat>)
    requires i <= |line| && x <= |Numbers|
    ensures r.Some? ==> x <= r.value < |Numbers| && MatchesAt(line, i, Numbers[r.value])
    ensures r.None? ==> forall y :: x <= y < |Numbers| ==> !MatchesAt(line, i, Numbers[y])
    decreases |Numbers| - x
  {
    if x == |Numbers| then None
    else if MatchesAt(line, i, Numbers[x]) then Some(x)
    else WordAt(line, i, x + 1)
  }

  /** WordAt finds word d exactly when d starts at i and no word before it in
      the table does. */
  lemma {:induction false} WordAtIsFirstMatch(line: string, i: nat, x: nat, d: nat)
    requires i <= |line| && x <= |Numbers|
    ensures WordAt(line, i, x) == Some(d) <==>
      x <= d < |Numbers| && MatchesAt(line, i, Numbers[d]) &&
      forall y :: x <= y < d ==> !MatchesAt(line, i, Numbers[y])
    decreases |Numbers| - x
  {
    if x == |Numbers| {
    } else if MatchesAt(line, i, Numbers[x]) {
      assert WordAt(line, i, x) == Some(x);
      if x < d < |Numbers| {
        assert !(forall y :: x <= y < d ==> !MatchesAt(line, i, Numbers[y])) by {
          assert x <= x < d && MatchesAt(line, i, Numbers[x]);
        }
      }
    } else {
      assert WordAt(line, i, x) == WordAt(line, i, x + 1);
      WordAtIsFirstMatch(line, i, x + 1, d);
      if x < d <= |Numbers| {
        assert (forall y :: x <= y < d ==> !MatchesAt(line, i, Numbers[y])) <==>
          (forall y :: x + 1 <= y < d ==> !MatchesAt(line, i, Numbers[y]));
      }
    }
  }

  /** What position i contributes in part 2. */
  function DigitAt(line: string, i: nat): Option<nat>
    requires i < |line|
  {
    if IsDigit(line[i]) then Some(DigitValue(line[i])) else WordAt(line, i, 0)
  }

  function SpelledDigitsUpTo(line: string, n: nat): (ds: seq<nat>)
    requires n <= |line|
    ensures forall k :: 0 <= k < |ds| ==> ds[k] < 10
  {
    if n == 0 then []
    else
      var d := DigitAt(line, n - 1);
      if d.Some? then
        WordAtIsFirstMatch(line, n - 1, 0, d.value);
        SpelledDigitsUpTo(line, n - 1) + [d.value]
      else SpelledDigitsUpTo(line, n - 1)
  }

  /** One entry per position holding a digit or the start of a digit word,
      so overlapping words ("oneight") all count. */
  function SpelledDigits(line: string): seq<nat> { SpelledDigitsUpTo(line, |line|) }

  function SpelledCalibrationValue(line: string): nat { Result(AssignAll(SpelledDigits(line))) }

  /** Part 2 of a line lies in 0..99 and is 0 exactly when nothing was found
      or the first thing found was zero. */
  lemma SpelledCalibrationValueSpec(line: string)
    ensures SpelledCalibrationValue(line) <= 99
    ensures SpelledCalibrationValue(line) == 0 <==>
      |SpelledDigits(line)| == 0 || SpelledDigits(line)[0] == 0
  {
    ResultOfDigits(SpelledDigits(line));
  }

  /** Checking the ten words one after the other. */
  lemma NoWordAt(line: string, i: nat)
    requires i <= |line|
    requires !MatchesAt(line, i, "zero") && !MatchesAt(line, i, "one") && !MatchesAt(line, i, "two")
    requires !MatchesAt(line, i, "three") && !MatchesAt(line, i, "four") && !MatchesAt(line, i, "five")
    requires !MatchesAt(line, i, "six") && !MatchesAt(line, i, "seven") && !MatchesAt(line, i, "eight")
    requires !MatchesAt(line, i, "nine")
    ensures WordAt(line, i, 0) == None
  {
    assert WordAt(line, i, 9) == None;
    assert WordAt(line, i, 8) == None;
    assert WordAt(line, i, 7) == None;
    assert WordAt(line, i, 6) == None;
    assert WordAt(line, i, 5) == None;
    assert WordAt(line, i, 4) == None;
    assert WordAt(line, i, 3) == None;
    assert WordAt(line, i, 2) == None;
    assert WordAt(line, i, 1) == None;
  }

  lemma Mismatch(line: string, i: nat, w: string, k: nat)
    requires i <= |line| && k < |w| && i + k < |line| && line[i + k] != w[k]
    ensures !MatchesAt(line, i, w)
  {
  }

  lemma TooShort(line: string, i: nat, w: string)
    requires i <= |line| && |line| < i + |w|
    ensures !MatchesAt(line, i, w)
  {
  }

  /** No word starts with a letter outside z, o, t, f, s, e, n. */
  lemma NoWordStartsWith(line: string, i: nat)
    requires i < |line| && line[i] !in {'z', 'o', 't', 'f', 's', 'e', 'n'}
    ensures WordAt(line, i, 0) == None
  {
    Mismatch(line, i, "zero", 0);
    Mismatch(line, i, "one", 0);
    Mismatch(line, i, "two", 0);
    Mismatch(line, i, "three", 0);
    Mismatch(line, i, "four", 0);
    Mismatch(line, i, "five", 0);
    Mismatch(line, i, "six", 0);
    Mismatch(line, i, "seven", 0);
    Mismatch(line, i, "eight", 0);
    Mismatch(line, i, "nine", 0);
    NoWordAt(line, i);
  }

  lemma OneightWords()
    ensures WordAt("oneight", 0, 0) == Some(1)
    ensures WordAt("oneight", 2, 0) == Some(8)
  {
    var line := "oneight";
    assert WordAt(line, 0, 0) == Some(1) by {
      assert line[0..3] == Numbers[1];
      assert line[0] == 'o';
      Mismatch(line, 0, "zero", 0);
    }
    assert WordAt(line, 2, 0) == Some(8) by {
      assert line[2..7] == Numbers[8];
      Mismatch(line, 2, "zero", 0);
      Mismatch(line, 2, "one", 0);
      Mismatch(line, 2, "two", 0);
      Mismatch(line, 2, "three", 0);
      Mismatch(line, 2, "four", 0);
      Mismatch(line, 2, "five", 0);
      Mismatch(line, 2, "six", 0);
      Mismatch(line, 2, "seven", 0);
      assert WordAt(line, 2, 8) == Some(8);
      assert WordAt(line, 2, 7) == Some(8);
      assert WordAt(line, 2, 6) == Some(8);
      assert WordAt(line, 2, 5) == Some(8);
      assert WordAt(line, 2, 4) == Some(8);
      assert WordAt(line, 2, 3) == Some(8);
      assert WordAt(line, 2, 2) == Some(8);
      assert WordAt(line, 2, 1) == Some(8);
    }
  }

  lemma OneightNoWords()
    ensures WordAt("oneight", 1, 0) == None
    ensures WordAt("oneight", 3, 0) == None
    ensures WordAt("oneight", 4, 0) == None
    ensures WordAt("oneight", 5, 0) == None
    ensures WordAt("oneight", 6, 0) == None
  {
    var line := "oneight";
    Mismatch(line, 1, "zero", 0);
    Mismatch(line, 1, "two", 0);
    Mismatch(line, 1, "four", 0);
    Mismatch(line, 1, "five", 0);
    Mismatch(line, 1, "six", 0);
    Mismatch(line, 1, "seven", 0);
    Mismatch(line, 1, "nine", 1);
    NoWordAt(line, 1);
    NoWordStartsWith(line, 3);
    NoWordStartsWith(line, 4);
    NoWordStartsWith(line, 5);
    assert line[6] == 't';
    Mismatch(line, 6, "zero", 0);
    Mismatch(line, 6, "one", 0);
    TooShort(line, 6, "two");
    TooShort(line, 6, "three");
    Mismatch(line, 6, "four", 0);
    Mismatch(line, 6, "five", 0);
    Mismatch(line, 6, "six", 0);
    Mismatch(line, 6, "seven", 0);
    Mismatch(line, 6, "eight", 0);
    Mismatch(line, 6, "nine", 0);
    NoWordAt(line, 6);
  }

  /** What each position of "oneight" reads: 1 at 0, 8 at 2, nothing else. */
  lemma OneightDigits()
    ensures DigitAt("oneight", 0) == Some(1) && DigitAt("oneight", 2) == Some(8)
    ensures DigitAt("oneight", 1) == None && DigitAt("oneight", 3) == None
    ensures DigitAt("oneight", 4) == None && DigitAt("oneight", 5) == None
    ensures DigitAt("oneight", 6) == None
  {
    var line := "oneight";
    OneightWords();
    OneightNoWords();
    assert !IsDigit(line[0]) && !IsDigit(line[1]) && !IsDigit(line[2]) && !IsDigit(line[3]);
    assert !IsDigit(line[4]) && !IsDigit(line[5]) && !IsDigit(line[6]);
  }

  /** Spelled words may share letters, and each counts: "oneight" reads 1, 8. */
  lemma OverlappingWords()
    ensures SpelledDigits("oneight") == [1, 8]
    ensures SpelledCalibrationValue("oneight") == 18
  {
    var line := "oneight";
    OneightDigits();
    assert SpelledDigitsUpTo(line, 1) == [1];
    assert SpelledDigitsUpTo(line, 2) == [1];
    assert SpelledDigitsUpTo(line, 3) == [1, 8];
    assert SpelledDigitsUpTo(line, 4) == [1, 8];
    assert SpelledDigitsUpTo(line, 5) == [1, 8];
    assert SpelledDigitsUpTo(line, 6) == [1, 8];
    assert SpelledDigitsUpTo(line, 7) == [1, 8];
    AssignAllFirstLast([1, 8]);
  }

  /** Without any spelled word, part 2 reads the same digits as part 1. */
  lemma {:induction false} NoWordsSameDigits(line: string, n: nat)
    requires n <= |line|
    requires forall i, x :: 0 <= i < |line| && 0 <= x < |Numbers| ==> !MatchesAt(line, i, Numbers[x])
    ensures SpelledDigitsUpTo(line, n) == DigitsUpTo(line, n)
  {
    if n > 0 {
      NoWordsSameDigits(line, n - 1);
      if !IsDigit(line[n - 1]) {
        var d := WordAt(line, n - 1, 0);
        if d.Some? {
          WordAtIsFirstMatch(line, n - 1, 0, d.value);
          assert false;
        }
      }
    }
  }

  lemma NoWordsPart2IsPart1(line: string)
    requires forall i, x :: 0 <= i < |line| && 0 <= x < |Numbers| ==> !MatchesAt(line, i, Numbers[x])
    ensures SpelledCalibrationValue(line) == CalibrationValue(line)
  {
    NoWordsSameDigits(line, |line|);
  }

  /** One more position assigns the digit found there, if any. */
  lemma SpelledStep(line: string, i: nat)
    requires i < |line|
    ensures AssignAll(SpelledDigitsUpTo(line, i + 1)) ==
      match DigitAt(line, i) case Some(d) => Assign(AssignAll(SpelledDigitsUpTo(line, i)), d) case None => AssignAll(SpelledDigitsUpTo(line, i))
  {
    var ds := SpelledDigitsUpTo(line, i);
    match DigitAt(line, i)
    case Some(d) =>
      assert SpelledDigitsUpTo(line, i + 1) == ds + [d];
      AssignAllSnoc(ds, d);
    case None =>
  }

  /** Day1.part2: the loop over the characters, with the inner loop over the
      word table that stops at the first word found. */
  method Part2(line: string) returns (r: nat)
    ensures r == SpelledCalibrationValue(line)
  {
    var seen := Unseen;
    for i := 0 to |line|
      invariant seen == AssignAll(SpelledDigitsUpTo(line, i))
    {
      ghost var before := seen;
      if '0' <= line[i] <= '9' {
        seen := Assign(seen, DigitValue(line[i]));
      } else {
        var x := 0;
        while x < |Numbers|
          invariant 0 <= x <= |Numbers|
          invariant seen == before
          invariant WordAt(line, i, 0) == WordAt(line, i, x)
        {
          if line[i..Min(i + |Numbers[x]|, |line|)] == Numbers[x] {
            seen := Assign(seen, x);
            break;
          }
          assert !MatchesAt(line, i, Numbers[x]);
          assert WordAt(line, i, x) == WordAt(line, i, x + 1);
          x := x + 1;
        }
      }
      assert seen == match DigitAt(line, i) case Some(d) => Assign(before, d) case None => before;
      SpelledStep(line, i);
    }
    r := Result(seen);
  }

  /** Day1.all: the sum of the per-line results. */
  method All(lines: seq<string>, part: string -> int) returns (accum: int)
    ensures accum == SumBy(lines, part)
  {
    accum := 0;
    for k := 0 to |lines|
      invariant accum == SumBy(lines[..k], part)
    {
      assert lines[..k + 1][..k] == lines[..k];
      assert SumBy(lines[..k + 1], part) == SumBy(lines[..k], part) + part(lines[k]);
      accum := accum + part(lines[k]);
    }
    assert lines[..|lines|] == lines;
  }
}
