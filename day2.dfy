/** Day 2: games of cubes drawn from a bag. A line "Game 7: 3 blue, 4 red;
    1 red, 2 green" lists handfuls; part 1 keeps the games possible with a
    given number of cubes of each colour, part 2 sums the powers of the
    smallest bags that make each game possible. */
module Day2 {
  import opened Common

  datatype Handful = Handful(red: nat, blue: nat, green: nat)

  datatype Game = Game(game: nat, handfuls: seq<Handful>)

  datatype Colour = Red | Blue | Green

  /** What one "N colour" entry of a handful does. A colour other than red,
      blue and green is stored under another key and leaves the three counts
      alone; a count that is not a numeral would make the count NaN. */
  datatype Entry = Cubes(colour: Colour, count: nat) | Ignored | NotANumber

  function ColourNamed(s: string): Option<Colour>
  {
    if s == "red" then Some(Red)
    else if s == "blue" then Some(Blue)
    else if s == "green" then Some(Green)
    else None
  }

  function ColourName(c: Colour): string
  {
    match c
    case Red => "red"
    case Blue => "blue"
    case Green => "green"
  }

  /** cubes.trim().split(" "): the count is the first piece, the colour the
      second. Only a known colour with a numeral count adds cubes; a known
      colour with any other count is NaN; anything else is ignored. */
  function ParseEntry(cubes: string): (e: Entry)
    ensures var parts := Split(Trim(cubes), {' '});
      e.Cubes? <==> |parts| >= 2 && ColourNamed(parts[1]).Some? && NumberOf(parts[0]).Some?
    ensures var parts := Split(Trim(cubes), {' '});
      e.NotANumber? <==> |parts| >= 2 && ColourNamed(parts[1]).Some? && NumberOf(parts[0]).None?
    ensures var parts := Split(Trim(cubes), {' '});
      e.Cubes? ==> Some(e.colour) == ColourNamed(parts[1]) && Some(e.count) == NumberOf(parts[0])
  {
    var parts := Split(Trim(cubes), {' '});
    if |parts| < 2 then Ignored
    else
      match ColourNamed(parts[1])
      case None => Ignored
      case Some(c) =>
        match NumberOf(parts[0])
        case None => NotANumber
        case Some(n) => Cubes(c, n)
  }

  /** The name of a colour is a single word that names that colour. */
  lemma ColourNameIsWord(c: Colour)
    ensures var name := ColourName(c);
      ColourNamed(name) == Some(c) && |name| > 0 && !IsSpace(name[0]) && !IsSpace(name[|name| - 1]) &&
      forall i :: 0 <= i < |name| ==> name[i] !in {' '}
  {
  }

  /** " N colour" trims and splits into the numeral and the name. */
  lemma EntryPieces(n: nat, c: Colour)
    ensures Split(Trim(" " + NatToString(n) + " " + ColourName(c)), {' '}) == [NatToString(n), ColourName(c)]
  {
    var digits := NatToString(n);
    ColourNameIsWord(c);
    assert forall i :: 0 <= i < |digits| ==> digits[i] !in {' '};
    TwoWords(digits, ColourName(c));
  }

  /** Two words, each without spaces, after a leading space: trim drops
      the space and the split gives back the two words. */
  lemma TwoWords(a: string, b: string)
    requires |a| > 0 && |b| > 0 && !IsSpace(a[0]) && !IsSpace(b[|b| - 1])
    requires forall i :: 0 <= i < |a| ==> a[i] !in {' '}
    requires forall i :: 0 <= i < |b| ==> b[i] !in {' '}
    ensures Split(Trim(" " + a + " " + b), {' '}) == [a, b]
  {
    Regroup(a, b);
    TrimOneSpace(a + " " + b);
    SplitAtSpace(a, b);
  }

  lemma Regroup(a: string, b: string)
    requires |a| > 0 && |b| > 0
    ensures " " + a + " " + b == " " + (a + " " + b)
    ensures (a + " " + b)[0] == a[0] && (a + " " + b)[|a| + |b|] == b[|b| - 1]
  {
  }

  lemma SplitAtSpace(a: string, b: string)
    requires forall i :: 0 <= i < |a| ==> a[i] !in {' '}
    requires forall i :: 0 <= i < |b| ==> b[i] !in {' '}
    ensures Split(a + " " + b, {' '}) == [a, b]
  {
    SplitWhole(b, {' '});
    SplitCons(a, ' ', b, {' '});
    assert a + " " + b == a + [' '] + b;
  }

  /** An entry as the input writes it, " N colour", reads back as N cubes of
      that colour. */
  lemma ParseEntryRoundTrip(n: nat, c: Colour)
    ensures ParseEntry(" " + NatToString(n) + " " + ColourName(c)) == Cubes(c, n)
  {
    EntryPieces(n, c);
    ColourNameIsWord(c);
    ParseIntRoundTrip(n);
  }

  function CountOf(e: Entry, c: Colour): nat
  {
    if e.Cubes? && e.colour == c then e.count else 0
  }

  /** The entries of a ", "-separated list, in order. */
  function Entries(line: string): (es: seq<Entry>)
    ensures |es| == |Split(line, {','})|
    ensures forall k :: 0 <= k < |es| ==> es[k] == ParseEntry(Split(line, {','})[k])
  {
    var parts := Split(line, {','});
    seq(|parts|, k requires 0 <= k < |parts| => ParseEntry(parts[k]))
  }

  /** The number of cubes of colour c over all entries: a colour named more
      than once adds up. */
  function Total(es: seq<Entry>, c: Colour): nat
  {
    if |es| == 0 then 0
    else Total(es[..|es| - 1], c) + CountOf(es[|es| - 1], c)
  }

  predicate AllNumbers(es: seq<Entry>)
  {
    forall k :: 0 <= k < |es| ==> !es[k].NotANumber?
  }

  /** The handful a ", "-separated list of entries describes: each colour's
      total, starting from 0, or nothing when a count is not a numeral. */
  function HandfulOf(line: string): (h: Option<Handful>)
  {
    var es := Entries(line);
    if AllNumbers(es) then Some(Handful(Total(es, Red), Total(es, Blue), Total(es, Green)))
    else None
  }

  function Add(h: Handful, e: Entry): Handful
  {
    match e
    case Cubes(Red, n) => h.(red := h.red + n)
    case Cubes(Blue, n) => h.(blue := h.blue + n)
    case Cubes(Green, n) => h.(green := h.green + n)
    case _ => h
  }

  /** The loop of Day2.parseHandful: adds each entry to its colour. */
  method Tally(es: seq<Entry>) returns (handful: Handful, numbers: bool)
    ensures handful == Handful(Total(es, Red), Total(es, Blue), Total(es, Green))
    ensures numbers <==> AllNumbers(es)
  {
    handful := Handful(0, 0, 0);
    numbers := true;
    for k := 0 to |es|
      invariant handful == Handful(Total(es[..k], Red), Total(es[..k], Blue), Total(es[..k], Green))
      invariant numbers <==> AllNumbers(es[..k])
    {
      assert es[..k + 1][..k] == es[..k];
      assert es[..k + 1][k] == es[k];
      handful := Add(handful, es[k]);
      numbers := numbers && !es[k].NotANumber?;
    }
    assert es[..|es|] == es;
  }

  /** Day2.parseHandful. */
  method ParseHandful(line: string) returns (h: Option<Handful>)
    ensures h == HandfulOf(line)
  {
    var handful, numbers := Tally(Entries(line));
    h := if numbers then Some(handful) else None;
  }

  /** Day2.parseHandfuls: one handful per ';'-separated segment, in order. */
  function ParseHandfuls(line: string): (r: Option<seq<Handful>>)
    ensures r.Some? ==> forall k :: 0 <= k < |Split(line, {';'})| ==> HandfulOf(Split(line, {';'})[k]).Some?
    ensures r.Some? <== forall k :: 0 <= k < |Split(line, {';'})| ==> HandfulOf(Split(line, {';'})[k]).Some?
    ensures r.Some? ==> |r.value| == |Split(line, {';'})| > 0
    ensures r.Some? ==> forall k :: 0 <= k < |r.value| ==> Some(r.value[k]) == HandfulOf(Split(line, {';'})[k])
  {
    ParseAll(Split(line, {';'}), HandfulOf)
  }

  /** Day2.parseGame: the id is the second space-separated piece before the
      ':', the handfuls are read from the piece after it. There is no game
      without a ':' (the source throws), nor when the id is not a numeral;
      otherwise there is one exactly when the handfuls parse. */
  function ParseGame(line: string): (r: Option<Game>)
    ensures r.Some? ==> |Split(line, {':'})| >= 2 && |Split(Split(line, {':'})[0], {' '})| >= 2
    ensures r.Some? ==>
      Some(r.value.game) == NumberOf(Split(Split(line, {':'})[0], {' '})[1]) &&
      Some(r.value.handfuls) == ParseHandfuls(Split(line, {':'})[1])
    ensures r.Some? ==> |r.value.handfuls| > 0
    ensures r.Some? <== (
      |Split(line, {':'})| >= 2 && |Split(Split(line, {':'})[0], {' '})| >= 2 &&
      NumberOf(Split(Split(line, {':'})[0], {' '})[1]).Some? &&
      ParseHandfuls(Split(line, {':'})[1]).Some?)
  {
    var game := Split(line, {':'});
    if |game| < 2 then None
    else
      var head := Split(game[0], {' '});
      if |head| < 2 then None
      else
        match NumberOf(head[1])
        case None => None
        case Some(id) =>
          match ParseHandfuls(game[1])
          case None => None
          case Some(hs) => Some(Game(id, hs))
  }

  /** Day2.getGames without the file: one game per line. */
  function GetGames(lines: seq<string>): Option<seq<Game>>
  {
    ParseAll(lines, ParseGame)
  }

  // ---------------------------------------------------------------------
  // Part 1: possible games

  predicate Within(h: Handful, red: int, blue: int, green: int)
  {
    h.red <= red && h.blue <= blue && h.green <= green
  }

  predicate IsPossible(g: Game, red: int, blue: int, green: int)
  {
    forall k :: 0 <= k < |g.handfuls| ==> Within(g.handfuls[k], red, blue, green)
  }

  /** Day2.selectPossibleGamesFor: the possible games, in order. */
  function SelectPossibleGamesFor(games: seq<Game>, red: int, blue: int, green: int): (r: seq<Game>)
    ensures forall g :: g in r ==> IsPossible(g, red, blue, green)
    ensures forall g :: multiset(r)[g] == if IsPossible(g, red, blue, green) then multiset(games)[g] else 0
    ensures IsSubsequence(r, games)
  {
    FilterMultiset(games, (g: Game) => IsPossible(g, red, blue, green));
    Filter(games, (g: Game) => IsPossible(g, red, blue, green))
  }

  // ---------------------------------------------------------------------
  // Part 2: the fewest cubes of each colour

  function MinimumHandful(hs: seq<Handful>): (m: Handful)
    requires |hs| > 0
    ensures forall k :: 0 <= k < |hs| ==> Within(hs[k], m.red, m.blue, m.green)
    ensures exists k :: 0 <= k < |hs| && hs[k].red == m.red
    ensures exists k :: 0 <= k < |hs| && hs[k].blue == m.blue
    ensures exists k :: 0 <= k < |hs| && hs[k].green == m.green
  {
    Handful(MaxBy(hs, (h: Handful) => h.red), MaxBy(hs, (h: Handful) => h.blue), MaxBy(hs, (h: Handful) => h.green))
  }

  predicate HasHandfuls(games: seq<Game>)
  {
    forall k :: 0 <= k < |games| ==> |games[k].handfuls| > 0
  }

  function MinimumGame(g: Game): Game
    requires |g.handfuls| > 0
  {
    Game(g.game, [MinimumHandful(g.handfuls)])
  }

  /** Day2.calcMinimumGames: each game keeps its id and gets the single
      handful of per-colour maxima. */
  function CalcMinimumGames(games: seq<Game>): (r: seq<Game>)
    requires HasHandfuls(games)
    ensures |r| == |games|
    ensures forall k :: 0 <= k < |r| ==>
      r[k].game == games[k].game && r[k].handfuls == [MinimumHandful(games[k].handfuls)]
  {
    if |games| == 0 then []
    else CalcMinimumGames(games[..|games| - 1]) + [MinimumGame(games[|games| - 1])]
  }

  /** A game is possible with a bag exactly when its minimum handful fits in
      the bag: the minimum handful is the smallest bag for the game. */
  lemma PossibleIffMinimumWithin(g: Game, red: int, blue: int, green: int)
    requires |g.handfuls| > 0
    ensures IsPossible(g, red, blue, green) <==> Within(MinimumHandful(g.handfuls), red, blue, green)
  {
    var m := MinimumHandful(g.handfuls);
    if IsPossible(g, red, blue, green) {
      var kr :| 0 <= kr < |g.handfuls| && g.handfuls[kr].red == m.red;
      var kb :| 0 <= kb < |g.handfuls| && g.handfuls[kb].blue == m.blue;
      var kg :| 0 <= kg < |g.handfuls| && g.handfuls[kg].green == m.green;
      assert Within(g.handfuls[kr], red, blue, green);
      assert Within(g.handfuls[kb], red, blue, green);
      assert Within(g.handfuls[kg], red, blue, green);
    }
  }

  /** The power of a handful: the product of its three counts, so 0 as soon
      as one colour is missing. */
  function Power(h: Handful): (p: nat)
    ensures p == 0 <==> h.red == 0 || h.blue == 0 || h.green == 0
  {
    var rb := h.red * h.blue;
    assert rb == 0 <==> h.red == 0 || h.blue == 0;
    rb * h.green
  }

  lemma PowerMonotone(h: Handful, m: Handful)
    requires Within(h, m.red, m.blue, m.green)
    ensures Power(h) <= Power(m)
  {
    assert h.red * h.blue <= m.red * h.blue <= m.red * m.blue;
    assert h.red * h.blue * h.green <= m.red * m.blue * h.green <= m.red * m.blue * m.green;
  }

  /** The minimum handful's power is at least that of every handful drawn. */
  lemma MinimumPowerDominates(hs: seq<Handful>, k: nat)
    requires k < |hs|
    ensures Power(hs[k]) <= Power(MinimumHandful(hs))
  {
    PowerMonotone(hs[k], MinimumHandful(hs));
  }

  // ---------------------------------------------------------------------
  // The two answers over the lines of a file

  function GameId(g: Game): int { g.game }

  function FirstPower(g: Game): int { if |g.handfuls| > 0 then Power(g.handfuls[0]) else 0 }

  /** Day2.part1: the sum of the ids of the possible games. */
  function Part1(lines: seq<string>, red: int, blue: int, green: int): (r: Option<int>)
    ensures r.Some? <==> GetGames(lines).Some?
    ensures r.Some? ==> r.value == SumBy(GetGames(lines).value, (g: Game) => IdIfPossible(g, red, blue, green))
  {
    match GetGames(lines)
    case None => None
    case Some(games) =>
      SumOfSelected(games, red, blue, green);
      Some(SumBy(SelectPossibleGamesFor(games, red, blue, green), GameId))
  }

  /** Day2.part2: the sum of the powers of the minimum handfuls. */
  function Part2(lines: seq<string>): (r: Option<int>)
    ensures r.Some? <==> GetGames(lines).Some?
    ensures r.Some? ==>
      r.value == SumBy(GetGames(lines).value, (g: Game) => if |g.handfuls| > 0 then Power(MinimumHandful(g.handfuls)) else 0)
  {
    match GetGames(lines)
    case None => None
    case Some(games) =>
      assert HasHandfuls(games) by {
        forall k | 0 <= k < |games| ensures |games[k].handfuls| > 0 {
          assert Some(games[k]) == ParseGame(lines[k]);
        }
      }
      SumOfPowers(games);
      if HasHandfuls(games) then Some(SumBy(CalcMinimumGames(games), FirstPower)) else None
  }

  function IdIfPossible(g: Game, red: int, blue: int, green: int): int
  {
    if IsPossible(g, red, blue, green) then g.game else 0
  }

  /** Summing the ids of the selected games is summing, over all games, the
      id of each possible game and 0 for the others. */
  lemma SumOfSelected(games: seq<Game>, red: int, blue: int, green: int)
    ensures SumBy(SelectPossibleGamesFor(games, red, blue, green), GameId) ==
            SumBy(games, (g: Game) => IdIfPossible(g, red, blue, green))
  {
    var p := (g: Game) => IsPossible(g, red, blue, green);
    assert SelectPossibleGamesFor(games, red, blue, green) == Filter(games, p);
    SumByFilter(games, p, GameId, (g: Game) => IdIfPossible(g, red, blue, green));
  }

  /** Every line always yields at least one handful, so part 2 is defined
      whenever every line parses. */
  lemma ParsedGamesHaveHandfuls(lines: seq<string>)
    requires GetGames(lines).Some?
    ensures HasHandfuls(GetGames(lines).value)
    ensures Part2(lines).Some?
  {
    var games := GetGames(lines).value;
    forall k | 0 <= k < |games| ensures |games[k].handfuls| > 0 {
      assert Some(games[k]) == ParseGame(lines[k]);
    }
  }

  /** Part 2 is the sum, over the games, of the power of each game's
      minimum handful. */
  lemma SumOfPowers(games: seq<Game>)
    requires HasHandfuls(games)
    ensures SumBy(CalcMinimumGames(games), FirstPower) ==
            SumBy(games, (g: Game) => if |g.handfuls| > 0 then Power(MinimumHandful(g.handfuls)) else 0)
  {
    var r := CalcMinimumGames(games);
    var power := (g: Game) => if |g.handfuls| > 0 then Power(MinimumHandful(g.handfuls)) else 0;
    forall k | 0 <= k < |r| ensures FirstPower(r[k]) == power(games[k]) {
      assert r[k].handfuls == [MinimumHandful(games[k].handfuls)];
    }
    SumByPointwise(r, FirstPower, games, power);
  }
}
