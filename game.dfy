/** A recorded play of a game, its construction from command-line tokens, and the `Games` collection. */
module Game {
  import opened Wrappers
  import opened Strings

  /** A calendar date (`chrono::NaiveDate`), compared chronologically. */
  datatype Date = Date(year: int, month: nat, day: nat)

  /** `a` is on or before `b`. */
  predicate DateLe(a: Date, b: Date) {
    || a.year < b.year
    || (a.year == b.year && (a.month < b.month || (a.month == b.month && a.day <= b.day)))
  }

  /** A game identifier (`uuid::Uuid`), a 128-bit number. */
  datatype Uuid = Uuid(value: nat)

  /** One play of a game: its name, each player's score, and the day it was played. */
  datatype Game = Game(gameName: string, scores: map<string, nat>, time: Date)

  const SCORE_SEPARATOR := "::"
  const SCORES_FORMAT_ERROR := "Error parsing scores. The input format is player::score."
  const NO_SCORES_ERROR := "No scores provided."
  const DATE_FORMAT_ERROR := "Error parsing date. The input format is YYYY-MM-DD."

  // ---------------------------------------------------------------------------
  // Score tokens
  // ---------------------------------------------------------------------------

  /**
   * One `player::score` token: it must split on "::" into exactly two parts,
   * and the second must parse as a `usize`.
   */
  function ScoreToken(token: string): (r: Option<(string, nat)>)
    ensures r.Some? ==> r.value.1 <= USIZE_MAX
  {
    var parts := Split(token, SCORE_SEPARATOR);
    if |parts| != 2 then None
    else match ParseUsize(parts[1])
      case None => None
      case Some(n) => Some((parts[0], n))
  }

  /** A token without "::" (a single colon, say) is refused. */
  lemma TokenWithoutSeparator(token: string)
    requires !Contains(token, SCORE_SEPARATOR)
    ensures ScoreToken(token).None?
  {
    SplitSingleIff(token, SCORE_SEPARATOR);
  }

  /** A token is accepted only if it is `player + "::" + digits`, with no "::" inside the player. */
  lemma TokenAccepted(token: string)
    requires ScoreToken(token).Some?
    ensures token == ScoreToken(token).value.0 + SCORE_SEPARATOR + Split(token, SCORE_SEPARATOR)[1]
    ensures !Contains(ScoreToken(token).value.0, SCORE_SEPARATOR)
    ensures ParseUsize(Split(token, SCORE_SEPARATOR)[1]) == Some(ScoreToken(token).value.1)
  {
    var parts := Split(token, SCORE_SEPARATOR);
    SplitJoin(token, SCORE_SEPARATOR);
    assert parts[1..] == [parts[1]];
    SplitPartsFree(token, SCORE_SEPARATOR);
    assert !Contains(parts[0], SCORE_SEPARATOR);
  }

  /** A player without "::" that does not end in ':' stays free of "::" when a ':' follows it. */
  lemma {:induction false} PlayerThenColon(player: string)
    requires !Contains(player, SCORE_SEPARATOR)
    requires player == [] || player[|player| - 1] != ':'
    ensures !Contains(player + ":", SCORE_SEPARATOR)
    decreases |player|
  {
    var x := player + ":";
    if |player| == 1 {
      assert x[..2][0] == player[0] != ':' == SCORE_SEPARATOR[0];
      assert |x[1..]| < |SCORE_SEPARATOR|;
    } else if |player| >= 2 {
      assert x[..2] == player[..2];
      assert x[1..] == player[1..] + ":";
      PlayerThenColon(player[1..]);
    }
  }

  /**
   * Rendering a player and a `usize` score as `player::score` parses back to
   * both, for any player without "::" that does not end in ':' (so "a:b" is
   * a valid player, while "a:" is not: "a:::5" splits as "a" and ":5").
   */
  lemma TokenRoundTrip(player: string, score: nat)
    requires !Contains(player, SCORE_SEPARATOR)
    requires player == [] || player[|player| - 1] != ':'
    requires score <= USIZE_MAX
    ensures ScoreToken(player + SCORE_SEPARATOR + Decimal(score)) == Some((player, score))
  {
    var digits := Decimal(score);
    PlayerThenColon(player);
    assert SCORE_SEPARATOR[..|SCORE_SEPARATOR| - 1] == ":";
    SplitAfterPart(player, digits, SCORE_SEPARATOR);
    NoFirstCharNoContains(digits, SCORE_SEPARATOR);
    SplitWithout(digits, SCORE_SEPARATOR);
    ParseDecimal(score);
  }

  /** The unit tests' well-formed token. */
  lemma TokenExampleValid()
    ensures ScoreToken("alice::10") == Some(("alice", 10))
  {
    SmallDecimals();
    NoFirstCharNoContains("alice", SCORE_SEPARATOR);
    TokenRoundTrip("alice", 10);
    assert "alice" + SCORE_SEPARATOR + "10" == "alice::10";
  }

  /** The renderings of the scores the unit tests use. */
  lemma SmallDecimals()
    ensures Decimal(10) == "10" && Decimal(20) == "20"
  {
    assert Decimal(1) == "1" && Decimal(2) == "2";
  }

  /** A single colon is not the separator. */
  lemma TokenExampleSingleColon()
    ensures ScoreToken("alice:10").None?
  {
    var s := "alice:10";
    assert s[5..] == ":" + "10";
    NoFirstCharNoContains("10", SCORE_SEPARATOR);
    assert !Contains(s[5..], SCORE_SEPARATOR) by {
      assert s[5..][1..] == "10";
    }
    ContainsFromSuffix(s, 5);
    TokenWithoutSeparator(s);
  }

  /** `s` contains `sep` no more than its suffix from `k` when no occurrence starts before `k`. */
  lemma {:induction false} ContainsFromSuffix(s: string, k: nat)
    requires k <= |s|
    requires forall i :: 0 <= i < k ==> s[i] != ':'
    ensures Contains(s, SCORE_SEPARATOR) == Contains(s[k..], SCORE_SEPARATOR)
    decreases k
  {
    if k > 0 {
      assert s[1..][k - 1..] == s[k..];
      ContainsFromSuffix(s[1..], k - 1);
      if 2 <= |s| {
        assert s[..2][0] == s[0];
      }
    }
  }

  /** A score that is not a number is refused. */
  lemma TokenExampleNotANumber()
    ensures ScoreToken("alice::ten").None?
  {
    assert "alice::ten" == "alice" + SCORE_SEPARATOR + "ten";
    SplitAfterPrefix("alice", "ten", SCORE_SEPARATOR);
    NoFirstCharNoContains("ten", SCORE_SEPARATOR);
    SplitWithout("ten", SCORE_SEPARATOR);
    assert !IsDigit("ten"[0]);
  }

  /** A second "::" makes three parts, which is refused. */
  lemma TokenExampleTwoSeparators()
    ensures ScoreToken("alice::10::bonus").None?
  {
    assert "alice::10::bonus" == "alice" + SCORE_SEPARATOR + ("10" + SCORE_SEPARATOR + "bonus");
    SplitAfterPrefix("alice", "10" + SCORE_SEPARATOR + "bonus", SCORE_SEPARATOR);
    SplitAfterPrefix("10", "bonus", SCORE_SEPARATOR);
  }

  // ---------------------------------------------------------------------------
  // Parsing a list of tokens (`Game::parse_scores`)
  // ---------------------------------------------------------------------------

  /** Every token is accepted. */
  predicate AllAccepted(tokens: seq<string>) {
    forall i :: 0 <= i < |tokens| ==> ScoreToken(tokens[i]).Some?
  }

  /** The (player, score) entries of tokens that are all accepted, in token order. */
  function Entries(tokens: seq<string>): (es: seq<(string, nat)>)
    requires AllAccepted(tokens)
    ensures |es| == |tokens|
    ensures forall i :: 0 <= i < |tokens| ==> es[i] == ScoreToken(tokens[i]).value
  {
    seq(|tokens|, i requires 0 <= i < |tokens| => ScoreToken(tokens[i]).value)
  }

  /** Entries inserted one after another into a map, each overwriting an earlier entry for its player. */
  function FoldScores(entries: seq<(string, nat)>): map<string, nat> {
    if entries == [] then map[]
    else FoldScores(entries[..|entries| - 1])[entries[|entries| - 1].0 := entries[|entries| - 1].1]
  }

  /**
   * What `Game::parse_scores` computes: the format error if any token is
   * refused, otherwise the entries folded into a map.
   */
  function ScoresOf(tokens: seq<string>): (r: Result<map<string, nat>>)
    ensures r.Err? <==> exists i :: 0 <= i < |tokens| && ScoreToken(tokens[i]).None?
    ensures r.Err? ==> r.error == SCORES_FORMAT_ERROR
  {
    if AllAccepted(tokens) then Ok(FoldScores(Entries(tokens))) else Err(SCORES_FORMAT_ERROR)
  }

  /** The fold has one key per distinct player among the entries. */
  lemma {:induction false} FoldScoresKeys(entries: seq<(string, nat)>)
    ensures forall i :: 0 <= i < |entries| ==> entries[i].0 in FoldScores(entries)
    ensures forall p :: p in FoldScores(entries) ==> exists i :: 0 <= i < |entries| && entries[i].0 == p
    decreases |entries|
  {
    if entries != [] {
      var n := |entries| - 1;
      var init := entries[..n];
      FoldScoresKeys(init);
      assert forall i :: 0 <= i < n ==> init[i] == entries[i];
      forall p | p in FoldScores(entries) ensures exists i :: 0 <= i < |entries| && entries[i].0 == p {
        if p != entries[n].0 {
          var i :| 0 <= i < n && init[i].0 == p;
          assert entries[i].0 == p;
        }
      }
    }
  }

  /** A player's score in the fold is the one in that player's last entry. */
  lemma {:induction false} FoldScoresLastWins(entries: seq<(string, nat)>, i: nat)
    requires i < |entries|
    requires forall j :: i < j < |entries| ==> entries[j].0 != entries[i].0
    ensures entries[i].0 in FoldScores(entries) && FoldScores(entries)[entries[i].0] == entries[i].1
    decreases |entries|
  {
    var n := |entries| - 1;
    if i < n {
      var init := entries[..n];
      assert forall j :: i < j < n ==> init[j] == entries[j];
      FoldScoresLastWins(init, i);
    }
  }

  /**
   * A successful parse has one entry per distinct player named in the tokens,
   * and each player's score is the one in that player's last token: a later
   * token for the same player overwrites an earlier one.
   */
  lemma ScoresOfEntries(tokens: seq<string>, i: nat)
    requires ScoresOf(tokens).Ok? && i < |tokens|
    ensures ScoreToken(tokens[i]).Some?
    ensures ScoreToken(tokens[i]).value.0 in ScoresOf(tokens).value
    ensures (forall j :: i < j < |tokens| ==> ScoreToken(tokens[j]).value.0 != ScoreToken(tokens[i]).value.0)
            ==> ScoresOf(tokens).value[ScoreToken(tokens[i]).value.0] == ScoreToken(tokens[i]).value.1
  {
    var es := Entries(tokens);
    FoldScoresKeys(es);
    if forall j :: i < j < |tokens| ==> ScoreToken(tokens[j]).value.0 != ScoreToken(tokens[i]).value.0 {
      FoldScoresLastWins(es, i);
    }
  }

  /** Every key of a successful parse is the player of some token. */
  lemma ScoresOfKeysNamed(tokens: seq<string>, p: string)
    requires ScoresOf(tokens).Ok? && p in ScoresOf(tokens).value
    ensures exists i :: 0 <= i < |tokens| && ScoreToken(tokens[i]).Some? && ScoreToken(tokens[i]).value.0 == p
  {
    var es := Entries(tokens);
    FoldScoresKeys(es);
    var i :| 0 <= i < |es| && es[i].0 == p;
    assert ScoreToken(tokens[i]).value.0 == p;
  }

  /** Appending an accepted token to accepted tokens appends its entry. */
  lemma EntriesSnoc(tokens: seq<string>, k: nat)
    requires k < |tokens| && AllAccepted(tokens[..k + 1])
    ensures AllAccepted(tokens[..k])
    ensures Entries(tokens[..k + 1]) == Entries(tokens[..k]) + [ScoreToken(tokens[k]).value]
  {
    assert forall i :: 0 <= i < k ==> tokens[..k][i] == tokens[..k + 1][i];
  }

  /** One more accepted token writes its entry over the scores parsed so far. */
  lemma ParseStep(tokens: seq<string>, k: nat)
    requires k < |tokens| && AllAccepted(tokens[..k]) && ScoreToken(tokens[k]).Some?
    ensures AllAccepted(tokens[..k + 1])
    ensures FoldScores(Entries(tokens[..k + 1]))
            == FoldScores(Entries(tokens[..k]))[ScoreToken(tokens[k]).value.0 := ScoreToken(tokens[k]).value.1]
  {
    assert tokens[..k + 1] == tokens[..k] + [tokens[k]];
    EntriesSnoc(tokens, k);
    FoldScoresSnoc(Entries(tokens[..k]), ScoreToken(tokens[k]).value);
  }

  /** Folding one more entry writes it over the fold so far. */
  lemma FoldScoresSnoc(entries: seq<(string, nat)>, e: (string, nat))
    ensures FoldScores(entries + [e]) == FoldScores(entries)[e.0 := e.1]
  {
    assert (entries + [e])[..|entries|] == entries;
  }

  /** `Game::parse_scores`: the loop that fills a hash map from the tokens, returning early on a bad one. */
  method ParseScores(tokens: seq<string>) returns (r: Result<map<string, nat>>)
    ensures r == ScoresOf(tokens)
  {
    var hashedScores: map<string, nat> := map[];
    var i := 0;
    while i < |tokens|
      invariant 0 <= i <= |tokens|
      invariant AllAccepted(tokens[..i])
      invariant hashedScores == FoldScores(Entries(tokens[..i]))
    {
      var parts := Split(tokens[i], SCORE_SEPARATOR);
      if |parts| != 2 {
        assert ScoreToken(tokens[i]).None?;
        return Err(SCORES_FORMAT_ERROR);
      }
      var score := ParseUsize(parts[1]);
      if score.None? {
        assert ScoreToken(tokens[i]).None?;
        return Err(SCORES_FORMAT_ERROR);
      }
      assert ScoreToken(tokens[i]) == Some((parts[0], score.value));
      ParseStep(tokens, i);
      hashedScores := hashedScores[parts[0] := score.value];
      i := i + 1;
    }
    assert tokens[..i] == tokens;
    return Ok(hashedScores);
  }

  /** Two accepted tokens fold into the second's entry written over the first's. */
  lemma ScoresOfPair(t1: string, t2: string)
    requires ScoreToken(t1).Some? && ScoreToken(t2).Some?
    ensures ScoresOf([t1, t2]) == Ok(map[ScoreToken(t1).value.0 := ScoreToken(t1).value.1][
      ScoreToken(t2).value.0 := ScoreToken(t2).value.1])
  {
    var es: seq<(string, nat)> := Entries([t1, t2]);
    assert es == [] + [es[0]] + [es[1]];
    FoldScoresSnoc([] + [es[0]], es[1]);
    FoldScoresSnoc([], es[0]);
  }

  /** The unit tests' lists: no tokens give an empty map; two distinct players give both scores. */
  lemma ScoresOfExamples()
    ensures ScoresOf([]) == Ok(map[])
    ensures ScoresOf(["alice::10", "bob::20"]) == Ok(map["alice" := 10, "bob" := 20])
  {
    TokenExampleValid();
    TokenExampleBob();
    ScoresOfPair("alice::10", "bob::20");
  }

  lemma TokenExampleBob()
    ensures ScoreToken("bob::20") == Some(("bob", 20))
  {
    SmallDecimals();
    NoFirstCharNoContains("bob", SCORE_SEPARATOR);
    TokenRoundTrip("bob", 20);
    assert "bob" + SCORE_SEPARATOR + "20" == "bob::20";
  }

  // ---------------------------------------------------------------------------
  // `Game::build` and `Game::get_name`
  // ---------------------------------------------------------------------------

  /**
   * `Game::build`: parse the scores (their error comes first), refuse an empty
   * score map, then take the date from `time` through `parseDate` (chrono's
   * `%Y-%m-%d` parser) or, without one, `today` (the clock's date).
   */
  function Build(gameName: string, tokens: seq<string>, time: Option<string>,
                 parseDate: string -> Option<Date>, today: Date): (r: Result<Game>)
    ensures ScoresOf(tokens).Err? ==> r == Err(SCORES_FORMAT_ERROR)
    ensures ScoresOf(tokens) == Ok(map[]) ==> r == Err(NO_SCORES_ERROR)
    ensures ScoresOf(tokens).Ok? && |ScoresOf(tokens).value| > 0 && time.Some? && parseDate(time.value).None?
            ==> r == Err(DATE_FORMAT_ERROR)
    ensures r.Ok? <==> ScoresOf(tokens).Ok? && |ScoresOf(tokens).value| > 0
                       && (time.None? || parseDate(time.value).Some?)
    ensures r.Ok? ==> && r.value.gameName == gameName
                      && r.value.scores == ScoresOf(tokens).value
                      && r.value.time == (if time.Some? then parseDate(time.value).value else today)
  {
    match ScoresOf(tokens)
    case Err(e) => Err(e)
    case Ok(scores) =>
      if |scores| == 0 then Err(NO_SCORES_ERROR)
      else match time
        case None => Ok(Game(gameName, scores, today))
        case Some(t) => match parseDate(t)
          case None => Err(DATE_FORMAT_ERROR)
          case Some(d) => Ok(Game(gameName, scores, d))
  }

  /** The two unit tests of `Game::build`: a bad date is refused, a good one stored with name and scores. */
  lemma BuildExamples(parseDate: string -> Option<Date>, today: Date, jan1: Date)
    requires parseDate("impossible-to-parse").None?
    requires parseDate("2025-01-01") == Some(jan1)
    ensures Build("game-name", ["player1::10", "player2::20"], Some("impossible-to-parse"), parseDate, today)
            == Err(DATE_FORMAT_ERROR)
    ensures Build("game-name", ["player1::10", "player2::20"], Some("2025-01-01"), parseDate, today)
            == Ok(Game("game-name", map["player1" := 10, "player2" := 20], jan1))
  {
    TestScores();
  }

  /** The score tokens of the `Game::build` unit tests. */
  lemma TestScores()
    ensures ScoresOf(["player1::10", "player2::20"]) == Ok(map["player1" := 10, "player2" := 20])
  {
    TestTokens();
    ScoresOfPair("player1::10", "player2::20");
  }

  lemma TestTokens()
    ensures ScoreToken("player1::10") == Some(("player1", 10))
    ensures ScoreToken("player2::20") == Some(("player2", 20))
  {
    SmallDecimals();
    NoFirstCharNoContains("player1", SCORE_SEPARATOR);
    TokenRoundTrip("player1", 10);
    NoFirstCharNoContains("player2", SCORE_SEPARATOR);
    TokenRoundTrip("player2", 20);
    assert "player1" + SCORE_SEPARATOR + "10" == "player1::10";
    assert "player2" + SCORE_SEPARATOR + "20" == "player2::20";
  }

  /** `Game::get_name`. */
  function GetName(g: Game): string {
    g.gameName
  }

  /** A built game is known by the name it was built with, whatever its scores and date. */
  lemma BuildNamed(gameName: string, tokens: seq<string>, time: Option<string>,
                   parseDate: string -> Option<Date>, today: Date)
    requires Build(gameName, tokens, time, parseDate, today).Ok?
    ensures GetName(Build(gameName, tokens, time, parseDate, today).value) == gameName
  {
  }

  // ---------------------------------------------------------------------------
  // Ordering and deleting by id
  // ---------------------------------------------------------------------------

  /** Games listed in chronological order of their dates. */
  predicate SortedByDate(games: seq<Game>) {
    forall i, j :: 0 <= i < j < |games| ==> DateLe(games[i].time, games[j].time)
  }

  /** Insert `g` before the first game dated on or after it. */
  function InsertByDate(g: Game, sorted: seq<Game>): (r: seq<Game>)
    requires SortedByDate(sorted)
    ensures SortedByDate(r)
    ensures multiset(r) == multiset(sorted) + multiset{g}
    ensures r[0] == g || (|sorted| > 0 && r[0] == sorted[0])
  {
    if sorted == [] then [g]
    else if DateLe(g.time, sorted[0].time) then
      SortedCons(g, sorted);
      [g] + sorted
    else
      var rest := InsertByDate(g, sorted[1..]);
      assert sorted == [sorted[0]] + sorted[1..];
      SortedCons(sorted[0], rest);
      [sorted[0]] + rest
  }

  /** A game dated on or before the head of a sorted list can go in front of it. */
  lemma SortedCons(x: Game, s: seq<Game>)
    requires SortedByDate(s)
    requires |s| > 0 ==> DateLe(x.time, s[0].time)
    ensures SortedByDate([x] + s)
  {
    var r := [x] + s;
    forall i, j | 0 <= i < j < |r| ensures DateLe(r[i].time, r[j].time) {
      if i == 0 && j > 1 {
        assert DateLe(s[0].time, s[j - 1].time);
      }
    }
  }

  /** Insertion sort by date; games of equal date keep their relative order. */
  function SortByDate(games: seq<Game>): (r: seq<Game>)
    ensures SortedByDate(r)
    ensures multiset(r) == multiset(games)
  {
    if games == [] then []
    else
      assert games == [games[0]] + games[1..];
      InsertByDate(games[0], SortByDate(games[1..]))
  }

  /** The position of the first game whose id is `id`, if any. */
  function IndexOfId(games: seq<Game>, id: Uuid, gameId: Game -> Uuid): (r: Option<nat>)
    ensures r.None? <==> forall i :: 0 <= i < |games| ==> gameId(games[i]) != id
    ensures r.Some? ==> r.value < |games| && gameId(games[r.value]) == id
                        && forall j :: 0 <= j < r.value ==> gameId(games[j]) != id
  {
    if games == [] then None
    else if gameId(games[0]) == id then Some(0)
    else match IndexOfId(games[1..], id, gameId)
      case None => None
      case Some(k) => Some(k + 1)
  }

  /**
   * What `Games::delete` does: the first game with that id is taken out and
   * returned together with the remaining games, in their order.
   */
  function Deleted(games: seq<Game>, id: Uuid, gameId: Game -> Uuid): (r: Option<(Game, seq<Game>)>)
    ensures r.None? <==> forall i :: 0 <= i < |games| ==> gameId(games[i]) != id
    ensures r.Some? ==> gameId(r.value.0) == id && |r.value.1| == |games| - 1
                        && multiset(r.value.1) + multiset{r.value.0} == multiset(games)
  {
    match IndexOfId(games, id, gameId)
    case None => None
    case Some(i) =>
      assert games == games[..i] + [games[i]] + games[i + 1..];
      Some((games[i], games[..i] + games[i + 1..]))
  }

  // ---------------------------------------------------------------------------
  // The `Games` collection
  // ---------------------------------------------------------------------------

  /**
   * `Games`, a vector of games updated in place. Only `from_games` and
   * `add_game` are in the modelled revision; `create_empy`, `extend`,
   * `delete` and `order_by_date` are modelled by the behaviour the handlers
   * and command-line tests rely on.
   */
  class Games {
    var games: seq<Game>

    /** `Games::from_games`. */
    constructor FromGames(games: seq<Game>)
      ensures this.games == games
    {
      this.games := games;
    }

    /** `Games::create_empy`. */
    constructor CreateEmpty()
      ensures games == []
    {
      games := [];
    }

    /** `Games::add_game`: push at the end; the earlier games stay as they were. */
    method AddGame(game: Game)
      modifies this
      ensures games == old(games) + [game]
      ensures |games| == |old(games)| + 1 && games[..|old(games)|] == old(games)
    {
      games := games + [game];
    }

    /** `Games::extend`: the other collection's games are appended after these. */
    method Extend(other: Games)
      modifies this
      ensures games == old(games) + old(other.games)
    {
      games := games + other.games;
    }

    /** `Games::delete`: removes and returns the game with that id; fails, changing nothing, when there is none. */
    method Delete(id: Uuid, gameId: Game -> Uuid) returns (r: Option<Game>)
      modifies this
      ensures r.None? <==> forall i :: 0 <= i < |old(games)| ==> gameId(old(games)[i]) != id
      ensures r.None? ==> games == old(games)
      ensures r.Some? ==> Deleted(old(games), id, gameId) == Some((r.value, games))
    {
      var deleted := Deleted(games, id, gameId);
      if deleted.None? {
        return None;
      }
      games := deleted.value.1;
      return Some(deleted.value.0);
    }

    /** `Games::order_by_date`: the same games, in chronological order. */
    function OrderByDate(): (r: seq<Game>)
      reads this
      ensures SortedByDate(r)
      ensures multiset(r) == multiset(games)
    {
      SortByDate(games)
    }
  }
}
