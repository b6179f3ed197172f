/** Small building blocks shared by the five solvers: an Option type, the
    sequence operations that the solvers take from JavaScript's arrays
    (filter, reduce-to-a-sum, the maximum of a spread), and the string
    operations they take from JavaScript's strings (split, trim, Number,
    parseInt, template-literal conversion of numbers). */
module Common {

  datatype Option<+T> = None | Some(value: T)

  function Min(a: int, b: int): int { if a <= b then a else b }

  // ---------------------------------------------------------------------
  // Sequences

  /** r is s with some elements left out, in the same order. */
  predicate IsSubsequence<T(==)>(r: seq<T>, s: seq<T>)
    decreases |s|
  {
    if |r| == 0 then true
    else if |s| == 0 then false
    else if r[0] == s[0] then IsSubsequence(r[1..], s[1..])
    else IsSubsequence(r, s[1..])
  }

  /** Array.prototype.filter: the elements satisfying p, in order, with
      their multiplicities. */
  function Filter<T(==,!new)>(s: seq<T>, p: T -> bool): (r: seq<T>)
    ensures |r| <= |s|
    ensures forall x :: x in r <==> x in s && p(x)
    ensures IsSubsequence(r, s)
  {
    if |s| == 0 then []
    else
      var rest := Filter(s[1..], p);
      assert s == [s[0]] + s[1..];
      if p(s[0]) then [s[0]] + rest else rest
  }

  /** Filter keeps every occurrence of an element satisfying p and no
      occurrence of any other. */
  lemma {:induction false} FilterMultiset<T(!new)>(s: seq<T>, p: T -> bool)
    ensures forall x :: multiset(Filter(s, p))[x] == if p(x) then multiset(s)[x] else 0
  {
    if |s| > 0 {
      FilterMultiset(s[1..], p);
      assert s == [s[0]] + s[1..];
    }
  }

  lemma {:induction false} FilterConcat<T(!new)>(a: seq<T>, b: seq<T>, p: T -> bool)
    ensures Filter(a + b, p) == Filter(a, p) + Filter(b, p)
  {
    if |a| > 0 {
      assert (a + b)[1..] == a[1..] + b;
      FilterConcat(a[1..], b, p);
    } else {
      assert a + b == b;
    }
  }

  /** reduce((acc, x) => acc + f(x), 0), folded from the left. */
  function SumBy<T>(s: seq<T>, f: T -> int): int
  {
    if |s| == 0 then 0 else SumBy(s[..|s| - 1], f) + f(s[|s| - 1])
  }

  lemma {:induction false} SumByConcat<T>(a: seq<T>, b: seq<T>, f: T -> int)
    ensures SumBy(a + b, f) == SumBy(a, f) + SumBy(b, f)
    decreases |b|
  {
    if |b| == 0 {
      assert a + b == a;
    } else {
      assert (a + b)[..|a + b| - 1] == a + b[..|b| - 1];
      SumByConcat(a, b[..|b| - 1], f);
    }
  }

  /** Summing f over the elements that pass p is summing g over all of them,
      where g is f on the elements that pass and 0 on the others. */
  lemma {:induction false} SumByFilter<T(!new)>(s: seq<T>, p: T -> bool, f: T -> int, g: T -> int)
    requires forall x :: g(x) == if p(x) then f(x) else 0
    ensures SumBy(Filter(s, p), f) == SumBy(s, g)
    decreases |s|
  {
    if |s| > 0 {
      var init, last := s[..|s| - 1], s[|s| - 1];
      assert SumBy(s, g) == SumBy(init, g) + g(last);
      assert s == init + [last];
      FilterConcat(init, [last], p);
      assert SumBy(Filter([last], p), f) == g(last) by {
        assert Filter([last], p) == if p(last) then [last] else [] by {
          assert [last][1..] == [];
        }
        if p(last) {
          assert SumBy([last], f) == SumBy([last][..0], f) + f(last);
        }
      }
      SumByConcat(Filter(init, p), Filter([last], p), f);
      SumByFilter(init, p, f, g);
    }
  }

  /** A sum of terms none of which is negative is not negative, and it is 0
      exactly when every term is. */
  lemma {:induction false} SumByNonNegative<T>(s: seq<T>, f: T -> int)
    requires forall k :: 0 <= k < |s| ==> f(s[k]) >= 0
    ensures SumBy(s, f) >= 0
    ensures SumBy(s, f) == 0 <==> forall k :: 0 <= k < |s| ==> f(s[k]) == 0
    decreases |s|
  {
    if |s| > 0 {
      var init := s[..|s| - 1];
      assert forall k :: 0 <= k < |init| ==> init[k] == s[k];
      SumByNonNegative(init, f);
    }
  }

  /** Concatenation is associative. */
  lemma AppendAssoc<T>(a: seq<T>, b: seq<T>, c: seq<T>)
    ensures a + (b + c) == (a + b) + c
  {
  }

  /** Two sums agree when their terms agree position by position. */
  lemma {:induction false} SumByPointwise<T, U>(a: seq<T>, f: T -> int, b: seq<U>, g: U -> int)
    requires |a| == |b|
    requires forall k :: 0 <= k < |a| ==> f(a[k]) == g(b[k])
    ensures SumBy(a, f) == SumBy(b, g)
    decreases |a|
  {
    if |a| > 0 {
      SumByPointwise(a[..|a| - 1], f, b[..|b| - 1], g);
    }
  }

  /** parts.reduce((a, p) => a.concat(p), []): the parts one after the other. */
  function Concat<T>(parts: seq<seq<T>>): seq<T>
  {
    if |parts| == 0 then [] else Concat(parts[..|parts| - 1]) + parts[|parts| - 1]
  }

  /** The sum of f over each part, part after part. */
  function SumOfSums<T>(parts: seq<seq<T>>, f: T -> int): int
  {
    if |parts| == 0 then 0 else SumOfSums(parts[..|parts| - 1], f) + SumBy(parts[|parts| - 1], f)
  }

  /** Summing over the concatenation is summing part by part. */
  lemma {:induction false} SumByConcatParts<T>(parts: seq<seq<T>>, f: T -> int)
    ensures SumBy(Concat(parts), f) == SumOfSums(parts, f)
    decreases |parts|
  {
    if |parts| > 0 {
      var init := parts[..|parts| - 1];
      SumByConcatParts(init, f);
      SumByConcat(Concat(init), parts[|parts| - 1], f);
    }
  }

  /** An element of the concatenation is an element of one of the parts. */
  lemma {:induction false} ConcatMembers<T>(parts: seq<seq<T>>, x: T)
    ensures x in Concat(parts) <==> exists k :: 0 <= k < |parts| && x in parts[k]
  {
    if |parts| > 0 {
      var init := parts[..|parts| - 1];
      ConcatMembers(init, x);
      if k :| 0 <= k < |init| && x in init[k] {
        assert parts[k] == init[k];
      }
      if k :| 0 <= k < |parts| && x in parts[k] {
        if k < |init| {
          assert init[k] == parts[k];
        }
      }
    }
  }

  /** Math.max(...s.map(f)) for a non-empty s. */
  function MaxBy<T>(s: seq<T>, f: T -> nat): (m: nat)
    requires |s| > 0
    ensures forall k :: 0 <= k < |s| ==> f(s[k]) <= m
    ensures exists k :: 0 <= k < |s| && f(s[k]) == m
  {
    if |s| == 1 then f(s[0])
    else
      var rest := MaxBy(s[1..], f);
      assert forall k :: 1 <= k < |s| ==> s[k] == s[1..][k - 1];
      if f(s[0]) >= rest then f(s[0]) else rest
  }

  /** Parses every line with parse; None as soon as one line does not parse. */
  function ParseAll<T>(lines: seq<string>, parse: string -> Option<T>): (r: Option<seq<T>>)
    ensures r.Some? <==> forall k :: 0 <= k < |lines| ==> parse(lines[k]).Some?
    ensures r.Some? ==> |r.value| == |lines|
    ensures r.Some? ==> forall k :: 0 <= k < |lines| ==> r.value[k] == parse(lines[k]).value
  {
    if |lines| == 0 then Some([])
    else
      match parse(lines[0])
      case None => None
      case Some(x) =>
        var rest := ParseAll(lines[1..], parse);
        assert forall k :: 1 <= k < |lines| ==> lines[k] == lines[1..][k - 1];
        if rest.None? then None else Some([x] + rest.value)
  }

  // ---------------------------------------------------------------------
  // Decimal numerals

  predicate IsDigit(c: char) { '0' <= c <= '9' }

  function DigitValue(c: char): (d: nat)
    requires IsDigit(c)
    ensures d < 10
  {
    (c as int) - ('0' as int)
  }

  function DigitChar(d: nat): (c: char)
    requires d < 10
    ensures IsDigit(c) && DigitValue(c) == d
  {
    (('0' as int) + d) as char
  }

  predicate AllDigits(s: string) { forall i :: 0 <= i < |s| ==> IsDigit(s[i]) }

  function Pow10(n: nat): (p: nat)
    ensures p >= 1
  {
    if n == 0 then 1 else 10 * Pow10(n - 1)
  }

  /** The value of a string of decimal digits, most significant first. */
  function DecimalValue(s: string): (v: nat)
    requires AllDigits(s)
    ensures v < Pow10(|s|)
  {
    if |s| == 0 then 0 else 10 * DecimalValue(s[..|s| - 1]) + DigitValue(s[|s| - 1])
  }

  /** `${n}` for a non-negative integer: the shortest decimal numeral. */
  function NatToString(n: nat): (s: string)
    ensures |s| > 0 && AllDigits(s)
    ensures |s| > 1 ==> s[0] != '0'
  {
    if n < 10 then [DigitChar(n)]
    else NatToString(n / 10) + [DigitChar(n % 10)]
  }

  lemma {:induction false} NatToStringRoundTrip(n: nat)
    ensures DecimalValue(NatToString(n)) == n
  {
    if n >= 10 {
      NatToStringRoundTrip(n / 10);
      var s := NatToString(n);
      assert s[..|s| - 1] == NatToString(n / 10);
    }
  }

  lemma NatToStringInjective(a: nat, b: nat)
    requires NatToString(a) == NatToString(b)
    ensures a == b
  {
    NatToStringRoundTrip(a);
    NatToStringRoundTrip(b);
  }

  /** JavaScript's Number(s), for the strings this model admits: a string of
      decimal digits (the empty string converts to 0). None stands for NaN. */
  function NumberOf(s: string): (r: Option<nat>)
    ensures r.Some? <==> AllDigits(s)
    ensures r.Some? ==> r.value == DecimalValue(s)
  {
    if AllDigits(s) then Some(DecimalValue(s)) else None
  }

  /** JavaScript's parseInt(s), for non-empty strings of decimal digits.
      None stands for NaN. */
  function ParseInt(s: string): (r: Option<nat>)
    ensures r.Some? <==> |s| > 0 && AllDigits(s)
    ensures r.Some? ==> r.value == DecimalValue(s)
  {
    if |s| > 0 && AllDigits(s) then Some(DecimalValue(s)) else None
  }

  lemma ParseIntRoundTrip(n: nat)
    ensures ParseInt(NatToString(n)) == Some(n)
    ensures NumberOf(NatToString(n)) == Some(n)
  {
    NatToStringRoundTrip(n);
  }

  // ---------------------------------------------------------------------
  // Strings

  /** String.prototype.split with a separator that is any one character of
      seps (a one-character string, or a character class such as /[:|]/). */
  function Split(s: string, seps: set<char>): (parts: seq<string>)
    ensures |parts| > 0
  {
    if |s| == 0 then [""]
    else
      var rest := Split(s[1..], seps);
      if s[0] in seps then [""] + rest else [[s[0]] + rest[0]] + rest[1..]
  }

  /** No piece contains a separator. */
  lemma {:induction false} SplitPiecesHaveNoSeparator(s: string, seps: set<char>, k: nat, i: nat)
    requires k < |Split(s, seps)| && i < |Split(s, seps)[k]|
    ensures Split(s, seps)[k][i] !in seps
  {
    if |s| > 0 {
      var rest := Split(s[1..], seps);
      if s[0] in seps {
        if k > 0 {
          SplitPiecesHaveNoSeparator(s[1..], seps, k - 1, i);
        }
      } else if k > 0 {
        SplitPiecesHaveNoSeparator(s[1..], seps, k, i);
      } else if i > 0 {
        SplitPiecesHaveNoSeparator(s[1..], seps, 0, i - 1);
      }
    }
  }

  /** A piece without separators, then a separator: the piece comes first. */
  lemma {:induction false} SplitCons(a: string, sep: char, rest: string, seps: set<char>)
    requires sep in seps && forall i :: 0 <= i < |a| ==> a[i] !in seps
    ensures Split(a + [sep] + rest, seps) == [a] + Split(rest, seps)
  {
    var s := a + [sep] + rest;
    if |a| == 0 {
      assert s[1..] == rest;
    } else {
      assert s[1..] == a[1..] + [sep] + rest;
      SplitCons(a[1..], sep, rest, seps);
      assert [a[0]] + a[1..] == a;
    }
  }

  /** A string without separators is a single piece. */
  lemma {:induction false} SplitWhole(a: string, seps: set<char>)
    requires forall i :: 0 <= i < |a| ==> a[i] !in seps
    ensures Split(a, seps) == [a]
  {
    if |a| > 0 {
      SplitWhole(a[1..], seps);
      assert [a[0]] + a[1..] == a;
    }
  }

  /** There is more than one piece exactly when the separator occurs. */
  lemma {:induction false} SplitMany(s: string, sep: char)
    ensures |Split(s, {sep})| > 1 <==> sep in s
  {
    if |s| > 0 {
      SplitMany(s[1..], sep);
      assert s == [s[0]] + s[1..];
    }
  }

  /** Array.prototype.join with a one-character separator. */
  function Join(parts: seq<string>, sep: char): string
    requires |parts| > 0
  {
    if |parts| == 1 then parts[0] else parts[0] + [sep] + Join(parts[1..], sep)
  }

  lemma {:induction false} SplitJoin(s: string, sep: char)
    ensures Join(Split(s, {sep}), sep) == s
  {
    if |s| > 0 {
      SplitJoin(s[1..], sep);
      var rest := Split(s[1..], {sep});
      if s[0] != sep {
        var parts := Split(s, {sep});
        assert parts[1..] == rest[1..];
        if |rest| == 1 {
        } else {
          assert Join(parts, sep) == [s[0]] + rest[0] + [sep] + Join(rest[1..], sep);
        }
      }
    }
  }

  /** The white-space characters the puzzle inputs can hold: space, tab and
      the line terminators. String.prototype.trim removes these and more. */
  predicate IsSpace(c: char) { c == ' ' || c == '\t' || c == '\n' || c == '\r' }

  function TrimStart(s: string): (t: string)
    ensures |t| <= |s| && t == s[|s| - |t|..]
    ensures forall i :: 0 <= i < |s| - |t| ==> IsSpace(s[i])
    ensures |t| > 0 ==> !IsSpace(t[0])
  {
    if |s| > 0 && IsSpace(s[0]) then TrimStart(s[1..]) else s
  }

  function TrimEnd(s: string): (t: string)
    ensures |t| <= |s| && t == s[..|t|]
    ensures forall i :: |t| <= i < |s| ==> IsSpace(s[i])
    ensures |t| > 0 ==> !IsSpace(t[|t| - 1])
  {
    if |s| > 0 && IsSpace(s[|s| - 1]) then TrimEnd(s[..|s| - 1]) else s
  }

  /** Only white space. */
  predicate AllSpace(s: string) { forall j :: 0 <= j < |s| ==> IsSpace(s[j]) }

  /** String.prototype.trim: s with the white space at both ends cut off. */
  function Trim(s: string): (t: string)
    ensures |t| <= |s|
    ensures |t| > 0 ==> !IsSpace(t[0]) && !IsSpace(t[|t| - 1])
    ensures (|s| == 0 || (!IsSpace(s[0]) && !IsSpace(s[|s| - 1]))) ==> t == s
  {
    TrimEnd(TrimStart(s))
  }

  /** The trimmed string is the slice of s that starts where the leading
      white space stops, and only white space follows it. */
  lemma TrimIsSlice(s: string)
    ensures var t := Trim(s); var i := |s| - |TrimStart(s)|;
      i + |t| <= |s| && t == s[i..][..|t|] && AllSpace(s[..i]) && AllSpace(s[i + |t|..])
  {
    LeadingSpace(s);
    TrailingSpace(TrimStart(s));
    var front := TrimStart(s);
    assert s[|s| - |front|..] == front;
  }

  /** TrimStart cuts only white space. */
  lemma LeadingSpace(s: string)
    ensures AllSpace(s[..|s| - |TrimStart(s)|])
  {
    var cut := |s| - |TrimStart(s)|;
    forall j | 0 <= j < cut
      ensures IsSpace(s[..cut][j])
    {
      assert s[..cut][j] == s[j];
    }
  }

  /** TrimEnd cuts only white space. */
  lemma TrailingSpace(s: string)
    ensures AllSpace(s[|TrimEnd(s)|..])
  {
    var n := |TrimEnd(s)|;
    forall j | 0 <= j < |s| - n
      ensures IsSpace(s[n..][j])
    {
      assert s[n..][j] == s[n + j];
    }
  }

  /** One space before a string that neither starts nor ends with white
      space: trim removes just that space. */
  lemma TrimOneSpace(x: string)
    requires |x| > 0 && !IsSpace(x[0]) && !IsSpace(x[|x| - 1])
    ensures Trim(" " + x) == x
  {
    assert (" " + x)[1..] == x;
    assert TrimStart(" " + x) == TrimStart(x) == x;
  }

  predicate NonEmpty(p: string) { p != "" }

  /** String.prototype.split(/ +/): the pieces between maximal runs of
      spaces. Only the first and the last piece can be empty. */
  function Words(s: string): (words: seq<string>)
    ensures |words| > 0
    ensures |words| > 1 <==> ' ' in s
    ensures forall k :: 0 <= k < |words| ==> words[k] in Split(s, {' '})
    ensures forall k :: 0 < k < |words| - 1 ==> words[k] != ""
    ensures words[0] == Split(s, {' '})[0]
    ensures words[|words| - 1] == Split(s, {' '})[|Split(s, {' '})| - 1]
  {
    SplitMany(s, ' ');
    var parts := Split(s, {' '});
    if |parts| == 1 then parts
    else
      var mid := parts[1..|parts| - 1];
      var inner := Filter(mid, NonEmpty);
      var words := [parts[0]] + inner + [parts[|parts| - 1]];
      forall k | 0 <= k < |words|
        ensures words[k] in parts
        ensures 0 < k < |words| - 1 ==> words[k] != ""
      {
        if 0 < k < |words| - 1 {
          assert words[k] == inner[k - 1] && inner[k - 1] in inner;
          assert inner[k - 1] in mid;
        }
      }
      words
  }

  /** The words drop only empty pieces: the non-empty pieces are kept, in
      order. */
  lemma WordsKeepNonEmptyPieces(s: string)
    ensures Filter(Words(s), NonEmpty) == Filter(Split(s, {' '}), NonEmpty)
  {
    var parts := Split(s, {' '});
    if |parts| == 1 {
      return;
    }
    var mid := parts[1..|parts| - 1];
    var inner := Filter(mid, NonEmpty);
    assert parts == [parts[0]] + mid + [parts[|parts| - 1]];
    FilterConcat([parts[0]] + mid, [parts[|parts| - 1]], NonEmpty);
    FilterConcat([parts[0]], mid, NonEmpty);
    FilterConcat([parts[0]] + inner, [parts[|parts| - 1]], NonEmpty);
    FilterConcat([parts[0]], inner, NonEmpty);
    FilterTwice(mid, NonEmpty);
  }

  /** On a string without two spaces in a row, the runs are single spaces. */
  lemma WordsOfSingleSpaced(s: string)
    requires forall i :: 0 <= i < |s| - 1 ==> !(s[i] == ' ' && s[i + 1] == ' ')
    ensures Words(s) == Split(s, {' '})
  {
    InnerPiecesNonEmpty(s);
    WordsOfNonEmptyPieces(s);
  }

  /** When no inner piece of the single-space split is empty, the words are
      the pieces. */
  lemma WordsOfNonEmptyPieces(s: string)
    requires forall k :: 0 < k < |Split(s, {' '})| - 1 ==> Split(s, {' '})[k] != ""
    ensures Words(s) == Split(s, {' '})
  {
    var parts := Split(s, {' '});
    if |parts| > 1 {
      var mid := parts[1..|parts| - 1];
      assert parts == [parts[0]] + mid + [parts[|parts| - 1]] by {
        assert parts == parts[..1] + parts[1..|parts| - 1] + parts[|parts| - 1..];
      }
      forall k | 0 <= k < |mid| ensures NonEmpty(mid[k]) {
        assert mid[k] == parts[k + 1];
      }
      FilterKeepsAll(mid, NonEmpty);
    }
  }

  /** Filtering a second time removes nothing more. */
  lemma FilterTwice<T(!new)>(s: seq<T>, p: T -> bool)
    ensures Filter(Filter(s, p), p) == Filter(s, p)
  {
    var r := Filter(s, p);
    forall k | 0 <= k < |r| ensures p(r[k]) {
      assert r[k] in r;
    }
    FilterKeepsAll(r, p);
  }

  lemma {:induction false} FilterKeepsAll<T(!new)>(s: seq<T>, p: T -> bool)
    requires forall k :: 0 <= k < |s| ==> p(s[k])
    ensures Filter(s, p) == s
  {
    if |s| > 0 {
      FilterKeepsAll(s[1..], p);
      assert s == [s[0]] + s[1..];
    }
  }

  /** Split on a single space yields no empty inner piece when no two spaces
      are adjacent. */
  lemma {:induction false} InnerPiecesNonEmpty(s: string)
    requires forall i :: 0 <= i < |s| - 1 ==> !(s[i] == ' ' && s[i + 1] == ' ')
    ensures forall k :: 0 < k < |Split(s, {' '})| - 1 ==> Split(s, {' '})[k] != ""
  {
    if |s| > 0 {
      InnerPiecesNonEmpty(s[1..]);
      var rest := Split(s[1..], {' '});
      if s[0] == ' ' && |rest| > 1 {
        assert |s| > 1 && s[1] != ' ';
        assert rest[0] != "";
      }
    }
  }
}
