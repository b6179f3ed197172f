/** Day 4: scratchcards. A line "Card 3: 1 21 53 | 69 82 63 1" holds the
    winning numbers and then the numbers the card has. Part 1 scores each
    card by its matches; part 2 lets each card win copies of the cards that
    follow it, and counts the cards in the end. */
module Day4 {
  import opened Common

  /** A card: its id and its two lists of numbers. None stands for NaN: a
      token that is not a numeral, or an id that is missing. */
  datatype Card = Card(card: Option<nat>, own: seq<Option<nat>>, wining: seq<Option<nat>>)

  /** s.trim().split(/ +/).map(x => Number(x)). */
  function NumbersOf(s: string): (r: seq<Option<nat>>)
    ensures |r| == |Words(Trim(s))| > 0
    ensures forall k :: 0 <= k < |r| ==> r[k] == NumberOf(Words(Trim(s))[k])
  {
    var words := Words(Trim(s));
    seq(|words|, k requires 0 <= k < |words| => NumberOf(words[k]))
  }

  const Separators: set<char> := {':', '|'}

  /** The Card constructor: the line is cut at ':' and '|'; the id is the
      second word of the first piece, the winning numbers are the second
      piece and the card's own numbers the third. Without a second and a
      third piece the constructor throws: there is no card. */
  function ParseCard(line: string): (r: Option<Card>)
    ensures r.Some? <==> |Split(line, Separators)| >= 3
    ensures r.Some? ==>
      var parts := Split(line, Separators);
      var head := Words(Trim(parts[0]));
      r.value.wining == NumbersOf(parts[1]) && r.value.own == NumbersOf(parts[2]) &&
      r.value.card == (if |head| < 2 then None else NumberOf(head[1]))
  {
    var parts := Split(line, Separators);
    if |parts| < 3 then None
    else
      var head := Words(Trim(parts[0]));
      Some(Card(if |head| < 2 then None else NumberOf(head[1]), NumbersOf(parts[2]), NumbersOf(parts[1])))
  }

  /** x == y on JavaScript numbers: NaN equals nothing, itself included. */
  predicate SameNumber(x: Option<nat>, y: Option<nat>)
  {
    x.Some? && y.Some? && x.value == y.value
  }

  /** Whether some winning number equals x. */
  predicate IsWinning(c: Card, x: Option<nat>)
  {
    exists k :: 0 <= k < |c.wining| && SameNumber(x, c.wining[k])
  }

  /** Card.matches: the card's own numbers that are winning numbers, in
      order; a number the card has twice counts twice. */
  function Matches(c: Card): (m: seq<Option<nat>>)
    ensures IsSubsequence(m, c.own)
    ensures forall x :: x in m <==> x in c.own && IsWinning(c, x)
    ensures None !in m
    ensures forall x :: multiset(m)[x] == if IsWinning(c, x) then multiset(c.own)[x] else 0
  {
    FilterMultiset(c.own, (x: Option<nat>) => IsWinning(c, x));
    Filter(c.own, (x: Option<nat>) => IsWinning(c, x))
  }

  function Pow2(n: nat): (p: nat)
    ensures p >= 1
  {
    if n == 0 then 1 else 2 * Pow2(n - 1)
  }

  /** Card.score: no point without a match, one point for the first match
      and double for each further one. */
  function Score(c: Card): (s: nat)
    ensures s == 0 <==> |Matches(c)| == 0
    ensures |Matches(c)| > 0 ==> 2 * s == Pow2(|Matches(c)|)
  {
    var n := |Matches(c)|;
    if n == 0 then 0 else Pow2(n - 1)
  }

  /** Scoring as the puzzle states it: one point per first match, doubled for
      every match after the first, so n matches score 2^(n-1) and a further
      match doubles the score. */
  lemma {:induction false} ScoreOfMatches(c: Card, d: Card)
    requires |Matches(d)| == |Matches(c)| + 1
    ensures Score(c) == 0 <==> |Matches(c)| == 0
    ensures |Matches(c)| > 0 ==> Score(d) == 2 * Score(c)
    ensures |Matches(c)| == 0 ==> Score(d) == 1
  {
  }

  // ---------------------------------------------------------------------
  // Part 2: copies won

  /** The number of cards that card index wins copies of: its matches,
      clamped to the end of the deck. */
  function WonUpTo(index: nat, cards: seq<Card>): (hi: nat)
    requires index < |cards|
    ensures index + 1 <= hi <= |cards|
    ensures hi - (index + 1) <= |Matches(cards[index])|
    ensures hi == |cards| || hi == index + 1 + |Matches(cards[index])|
  {
    Min(index + 1 + |Matches(cards[index])|, |cards|)
  }

  /** Day4.collectCards1: card index, followed by what each card it wins a
      copy of collects in turn; the indices grow strictly, so this ends. */
  function CollectCards1(index: nat, cards: seq<Card>): (r: seq<Card>)
    requires index < |cards|
    ensures |r| > 0 && r[0] == cards[index]
    ensures forall c :: c in r ==> c in cards[index..]
    decreases |cards| - index, 1
  {
    [cards[index]] + CollectRange(index + 1, WonUpTo(index, cards), cards)
  }

  /** What cards lo .. hi - 1 collect, one after the other. */
  function CollectRange(lo: nat, hi: nat, cards: seq<Card>): (r: seq<Card>)
    requires lo <= hi <= |cards|
    ensures forall c :: c in r ==> c in cards[lo..]
    decreases |cards| - lo, 2
  {
    if lo == hi then []
    else
      var first := CollectCards1(lo, cards);
      var rest := CollectRange(lo + 1, hi, cards);
      assert forall c :: c in rest ==> c in cards[lo..] by {
        forall c | c in rest ensures c in cards[lo..] {
          var k :| 0 <= k < |cards[lo + 1..]| && cards[lo + 1..][k] == c;
          assert cards[lo..][k + 1] == c;
        }
      }
      first + rest
  }

  /** Day4.collectCards: what every card collects, card by card; only cards
      of the deck come out. */
  function CollectCards(cards: seq<Card>): (r: seq<Card>)
    ensures forall c :: c in r ==> c in cards
  {
    assert cards[0..] == cards;
    CollectRange(0, |cards|, cards)
  }

  /** Each card of the deck is collected at least once, which is the card
      itself, and so at least as many cards come out as went in. */
  lemma {:induction false} CollectRangeHasEach(lo: nat, hi: nat, cards: seq<Card>)
    requires lo <= hi <= |cards|
    ensures |CollectRange(lo, hi, cards)| >= hi - lo
    ensures forall k :: lo <= k < hi ==> cards[k] in CollectRange(lo, hi, cards)
    decreases hi - lo
  {
    if lo < hi {
      var first := CollectCards1(lo, cards);
      var rest := CollectRange(lo + 1, hi, cards);
      assert CollectRange(lo, hi, cards) == first + rest;
      CollectRangeHasEach(lo + 1, hi, cards);
      assert |first| > 0 && first[0] == cards[lo];
      forall k | lo <= k < hi ensures cards[k] in first + rest {
        if k == lo {
          assert (first + rest)[0] == cards[lo];
        } else {
          assert lo + 1 <= k < hi;
          assert cards[k] in rest;
        }
      }
    }
  }

  lemma CollectCardsHasEach(cards: seq<Card>)
    ensures |CollectCards(cards)| >= |cards|
    ensures forall k :: 0 <= k < |cards| ==> cards[k] in CollectCards(cards)
  {
    CollectRangeHasEach(0, |cards|, cards);
  }

  /** Day4.getCards without the file: one card per line, in order, or none
      when some line is not a card. */
  function GetCards(lines: seq<string>): (r: Option<seq<Card>>)
    ensures r.Some? <==> forall k :: 0 <= k < |lines| ==> ParseCard(lines[k]).Some?
    ensures r.Some? ==> |r.value| == |lines|
    ensures r.Some? ==> forall k :: 0 <= k < |lines| ==> Some(r.value[k]) == ParseCard(lines[k])
  {
    ParseAll(lines, ParseCard)
  }

  /** Day4.part1 without the file: the sum of the scores, which is never
      negative and is 0 exactly when no card has a match. */
  function Part1(cards: seq<Card>): (r: int)
    ensures r >= 0
    ensures r == 0 <==> forall k :: 0 <= k < |cards| ==> |Matches(cards[k])| == 0
  {
    var score := (c: Card) => Score(c) as int;
    SumByNonNegative(cards, score);
    SumBy(cards, score)
  }

  /** Day4.part2 without the file: the number of cards collected, at least
      one per card of the deck. */
  function Part2(cards: seq<Card>): (n: nat)
    ensures n >= |cards|
  {
    CollectCardsHasEach(cards);
    |CollectCards(cards)|
  }
}
