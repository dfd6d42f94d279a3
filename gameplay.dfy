/**
 * The game (class Game): the secret code, the board of scored guesses, the
 * remaining turns and the outcome.
 */
module Gameplay {

  import opened Pins
  import opened Scoring
  import opened Parsing

  /** The observable state of a game, as a value. */
  datatype Board = Board(rows: seq<Row>, turns: int, finished: bool, won: bool)

  /**
   * submit_guess exactly as written: it scores the guess, appends the row,
   * spends a turn and updates the outcome flags, without looking at whether
   * the game is already over.
   */
  function SubmitUnguarded(code: Combination, b: Board, guess: Combination): (r: Board)
    ensures r.rows == b.rows + [Row(guess, Score(code, guess))]
    ensures r.turns == b.turns - 1
    ensures r.won <==> Score(code, guess).blacks == Slots || (b.won && r.turns != 0)
    ensures r.finished <==> Score(code, guess).blacks == Slots || r.turns == 0 || b.finished
  {
    var marking := Score(code, guess);
    var rows := b.rows + [Row(guess, marking)];
    var turns := b.turns - 1;
    if marking.blacks == 4 then Board(rows, turns, true, true)
    else if turns == 0 then Board(rows, turns, true, false)
    else Board(rows, turns, b.finished, b.won)
  }

  /** Submitting a sequence of guesses with the unguarded transition. */
  function PlayUnguarded(code: Combination, b: Board, guesses: seq<Combination>): Board
    decreases |guesses|
  {
    if guesses == [] then b else PlayUnguarded(code, SubmitUnguarded(code, b, guesses[0]), guesses[1..])
  }

  /**
   * Misses submitted without a guard: the turns keep falling, and if they pass
   * through zero the game is marked finished and lost, whatever it was before.
   */
  lemma {:induction false} UnguardedMisses(code: Combination, b: Board, miss: Combination, n: nat)
    requires Score(code, miss).blacks != Slots
    ensures var r := PlayUnguarded(code, b, seq(n, _ => miss));
      && r.turns == b.turns - n
      && (r.won <==> b.won && !(1 <= b.turns <= n))
      && (r.finished <==> b.finished || 1 <= b.turns <= n)
    decreases n
  {
    if n > 0 {
      var misses := seq(n, _ => miss);
      assert misses[0] == miss && misses[1..] == seq(n - 1, _ => miss);
      UnguardedMisses(code, SubmitUnguarded(code, b, miss), miss, n - 1);
    }
  }

  /**
   * Without a guard, a game won on the first of twelve turns is still open to
   * misses: after n of them the turns are 11 - n, and it stays won only while
   * the turns have not reached zero.
   */
  lemma WinThenMisses(code: Combination, miss: Combination, n: nat)
    requires Score(code, miss).blacks != Slots
    ensures var r := PlayUnguarded(code, Board([], 12, false, false), [code] + seq(n, _ => miss));
      && r.finished && r.turns == 11 - n
      && (r.won <==> n < 11)
  {
    ScoreSelf(code);
    var start := Board([], 12, false, false);
    var afterWin := SubmitUnguarded(code, start, code);
    assert afterWin.won && afterWin.finished && afterWin.turns == 11;
    assert ([code] + seq(n, _ => miss))[1..] == seq(n, _ => miss);
    UnguardedMisses(code, afterWin, miss, n);
  }

  /**
   * The case of the test suite's code 0031: win with the first of twelve turns,
   * then miss eleven times with 0000, and the eleventh miss brings the turns to
   * zero and resets won.  One more miss drives the turns negative.
   */
  lemma UnguardedLosesWonGame()
    ensures var code: Combination := [Black, Black, Blue, Red];
      var won := PlayUnguarded(code, Board([], 12, false, false), [code]);
      won.finished && won.won && won.turns == 11
    ensures var code: Combination := [Black, Black, Blue, Red];
      var miss: Combination := [Black, Black, Black, Black];
      var lost := PlayUnguarded(code, Board([], 12, false, false), [code] + seq(11, _ => miss));
      lost.finished && !lost.won && lost.turns == 0
    ensures var code: Combination := [Black, Black, Blue, Red];
      var miss: Combination := [Black, Black, Black, Black];
      PlayUnguarded(code, Board([], 12, false, false), [code] + seq(12, _ => miss)).turns == -1
  {
    var code: Combination := [Black, Black, Blue, Red];
    var miss: Combination := [Black, Black, Black, Black];
    ScoreWin(code, miss);
    WinThenMisses(code, miss, 0);
    assert [code] + seq(0, _ => miss) == [code];
    WinThenMisses(code, miss, 11);
    WinThenMisses(code, miss, 12);
  }

  /**
   * The game invariant: every turn spent left a row scored against the code,
   * only the last row can be a winning one, the game is won exactly when it
   * is, and it is over exactly when it is won or the last turn was spent.
   */
  ghost predicate Consistent(code: Combination, budget: int, b: Board) {
    && b.turns + |b.rows| == budget
    && (forall i :: 0 <= i < |b.rows| ==> b.rows[i].marking == Score(code, b.rows[i].guess))
    && (forall i :: 0 <= i < |b.rows| - 1 ==> b.rows[i].marking.blacks != Slots)
    && (b.won <==> b.rows != [] && b.rows[|b.rows| - 1].marking.blacks == Slots)
    && (b.finished <==> b.won || (b.rows != [] && b.turns == 0))
    && (budget >= 1 ==> b.turns >= 0)
  }

  /**
   * A guess submitted to a game in progress keeps the invariant, wins exactly
   * when it is the code, and ends the game exactly when it wins or spends the
   * last turn.
   */
  lemma SubmitKeepsConsistent(code: Combination, budget: int, b: Board, guess: Combination)
    requires Consistent(code, budget, b) && !b.finished
    ensures var r := SubmitUnguarded(code, b, guess);
      && Consistent(code, budget, r)
      && (r.won <==> guess == code)
      && (r.finished <==> r.won || r.turns == 0)
  {
    var m := Score(code, guess);
    ScoreWin(code, guess);
    var r := SubmitUnguarded(code, b, guess);
    assert r.rows == b.rows + [Row(guess, m)];
    forall i | 0 <= i < |r.rows|
      ensures r.rows[i].marking == Score(code, r.rows[i].guess)
      ensures i < |r.rows| - 1 ==> r.rows[i].marking.blacks != Slots
    {
      if i < |b.rows| {
        assert r.rows[i] == b.rows[i];
      }
    }
  }

  class Game {
    const code: Combination
    var rows: seq<Row>
    var turns: int
    var finished: bool
    var won: bool
    /** The number of turns the game started with. */
    ghost const budget: int

    /** The game invariant, on the fields of this game; see Consistent. */
    ghost predicate Valid()
      reads this
    {
      Consistent(code, budget, Snapshot())
    }

    function Snapshot(): Board
      reads this
    {
      Board(rows, turns, finished, won)
    }

    /** A new game with the given code: an empty board, all turns left, not over. */
    constructor (turns: int := 12, code: Combination)
      ensures Valid()
      ensures this.code == code && this.turns == turns && budget == turns
      ensures rows == [] && !finished && !won
    {
      this.code := code;
      this.rows := [];
      this.turns := turns;
      this.finished := false;
      this.won := false;
      this.budget := turns;
    }

    /**
     * submit_guess on a game that is still in progress: one more row with
     * the guess and its marking, one turn fewer, and the outcome updated.
     */
    method SubmitGuess(guess: Combination)
      requires Valid() && !finished
      modifies this
      ensures Valid()
      ensures rows == old(rows) + [Row(guess, Score(code, guess))]
      ensures turns == old(turns) - 1
      ensures won <==> guess == code
      ensures finished <==> won || turns == 0
      ensures Snapshot() == SubmitUnguarded(code, old(Snapshot()), guess)
    {
      ghost var before := Snapshot();
      var marking := CalcMarking(code, guess);
      rows := rows + [Row(guess, marking)];
      turns := turns - 1;
      if marking.blacks == 4 {
        finished := true;
        won := true;
      } else if turns == 0 {
        finished := true;
        won := false;
      }
      assert Snapshot() == SubmitUnguarded(code, before, guess);
      SubmitKeepsConsistent(code, budget, before, guess);
    }

    /** is_finished: the game is over once it is won or its last turn is spent. */
    function IsFinished(): (r: bool)
      reads this
      requires Valid()
      ensures r <==> won || (rows != [] && turns == 0)
      ensures !r && budget >= 1 ==> turns >= 1
    {
      finished
    }

    /** is_won: the game is won exactly when the last guess was the code. */
    function IsWon(): (r: bool)
      reads this
      requires Valid()
      ensures r <==> rows != [] && rows[|rows| - 1].guess == code
      ensures r ==> finished
    {
      if rows == [] then won else ScoreWin(code, rows[|rows| - 1].guess); won
    }
  }

  // The game scenarios of the test suite, all with code BLACK, BLACK, BLUE, RED (0031).

  /** A game with a supplied code starts with that code, an empty board and twelve turns. */
  method NewGameScenario() returns (g: Game)
    ensures g.code == [Black, Black, Blue, Red] && g.rows == [] && g.turns == 12
    ensures !g.finished && !g.won
  {
    g := new Game(code := [Black, Black, Blue, Red]);
  }

  /** Guessing 0000, 1111 and 0031 wins the game with nine turns left. */
  method WinInThreeScenario() returns (g: Game)
    ensures g.Valid() && g.IsFinished() && g.IsWon() && g.turns == 9
  {
    var code: Combination := [Black, Black, Blue, Red];
    g := new Game(code := code);
    var blacks := Parse("0000").value;
    var reds := Parse("1111").value;
    var winner := Parse("0031").value;
    assert winner == code;
    g.SubmitGuess(blacks);
    g.SubmitGuess(reds);
    g.SubmitGuess(winner);
  }

  /** Guessing 0000 twelve times loses the game with no turns left. */
  method LoseScenario() returns (g: Game)
    ensures g.Valid() && g.IsFinished() && !g.IsWon() && g.turns == 0
  {
    var code: Combination := [Black, Black, Blue, Red];
    g := new Game(code := code);
    var blacks := Parse("0000").value;
    for k := 0 to 12
      invariant g.Valid() && g.code == code && g.budget == 12
      invariant g.turns == 12 - k && !g.won
      invariant k < 12 ==> !g.finished
    {
      g.SubmitGuess(blacks);
    }
  }
}
