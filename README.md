# Mastermind in Dafny

A verified model of the logic layer of a console Mastermind game
(`mastermind.py`): four-slot combinations of six colour pins, scoring a
guess against the secret code with black and white marks, reading a guess
typed as four digits, and the game object that keeps the board of scored
guesses, the turns left and the outcome.

- `wrappers.dfy`, module `Wrappers`: `Option` and a failure-compatible `Result`.
- `pins.dfy`, module `Pins`: `Pin` (six colours with ordinals 0..5), `Combination`
  (a sequence of exactly four pins), `Marking` (blacks, whites, blanks), `Row`.
- `scoring.dfy`, module `Scoring`: `Score`, the specification of a marking
  (blacks are the pegs that agree in place; whites are, summed over the six
  colours, the smaller of the unmatched code count and the unmatched guess
  count), and `CalcMarking`, the two-pass algorithm of `calc_marking` with its
  list removal, proved to compute `Score`. The lemmas give the properties of
  markings: they always add up to four, the blacks count agreeing positions,
  the greedy removal pass does not depend on visiting order, blacks plus
  whites is the colour overlap of code and guess, and four blacks means the
  guess is the code.
- `parsing.dfy`, module `Parsing`: `Parse` (`str2combination`) with its three
  failure reasons, and `Format`, the typed form of a combination, as its inverse.
- `gameplay.dfy`, module `Gameplay`: the class `Game` with the source's fields,
  its invariant `Valid`, the constructor, `SubmitGuess`, `IsFinished` and
  `IsWon`; the unguarded transition as written (`SubmitUnguarded`); and the
  three game scenarios of the test suite as client methods.

## Model

| member | source | states |
|---|---|---|
| `Pins.Pin.Ordinal` | mastermind.py:18-26 | every pin has an ordinal below six |
| `Pins.PinOf` | mastermind.py:18-26 | `Pin(n)` gives a pin exactly when 0 <= n < 6, and that pin has ordinal n |
| `Pins.PinOfOrdinal` | mastermind.py:18-26 | looking a pin up by its own ordinal gives that pin back |
| `Scoring.CalcMarking` | mastermind.py:56-79 | the two loops (exact matches with collection of the leftovers, then colour matches with removal of one code peg each) return exactly the marking `Score(code, guess)` |
| `Scoring.RemoveFirst` | mastermind.py:77 | `list.remove` drops the first occurrence of the pin and keeps the rest in order; the length falls by one and each colour count falls by one for that pin only |
| `Scoring.PassesSnoc` | mastermind.py:68-73 | one step of the first loop appends the slot to the matched pegs when code and guess agree there and to both leftover lists otherwise |
| `Scoring.SplitPegs` | mastermind.py:68-73 | every peg goes either to the exact matches or to the leftovers, per colour and in number |
| `Scoring.MatchedCountsPositions` | mastermind.py:68-70 | the number of matched pegs is the number of positions where code and guess hold the same pin |
| `Scoring.GreedyIsCommon` | mastermind.py:74-77 | the removal pass credits, per colour, the smaller of the leftover guess count and leftover code count, so no code peg is counted twice and repeated guess pegs are capped |
| `Scoring.GreedyOrderIndependent` | mastermind.py:74-77 | the count of the removal pass depends only on the multisets of leftovers, not on their order |
| `Scoring.ScoreWellFormed` | mastermind.py:64-79 | blacks, whites and blanks are non-negative and sum to four, and whites never exceed the slots left unmatched by the blacks |
| `Scoring.ScoreBlacks` | mastermind.py:68-70 | blacks equal the number of positions i with code[i] == guess[i] |
| `Scoring.ScoreTotal` | mastermind.py:64-79 | blacks plus whites equal the per-colour overlap of the whole code and the whole guess |
| `Scoring.ScoreGuessPermutation` | mastermind.py:64-79 | permuting the guess leaves blacks plus whites unchanged |
| `Scoring.ScoreWin` | mastermind.py:64-79 | a guess scores four blacks exactly when it equals the code |
| `Scoring.ScoreSelf` | mastermind.py:64-79 | the code scored against itself is four blacks, no whites, no blanks |
| `Scoring.ScoreAllBlanks` | test_mastermind.py:46-53 | 0123 against 4444 scores 0 blacks, 0 whites, 4 blanks |
| `Scoring.ScoreAllWhites` | test_mastermind.py:55-60 | 0123 against 3012 scores 0 blacks, 4 whites, 0 blanks |
| `Scoring.ScoreTwoBlacksTwoWhites` | test_mastermind.py:62-67 | 0123 against 3120 scores 2 blacks, 2 whites, 0 blanks |
| `Scoring.ScoreAllBlacks` | test_mastermind.py:69-74 | 0123 against 0123 scores 4 blacks, 0 whites, 0 blanks |
| `Parsing.PinOfChar` | mastermind.py:105-108 | `Pin(int(c))` succeeds exactly for the characters 0 to 5, giving the pin with that ordinal; a non-digit fails in `int`, a digit 6 to 9 fails in `Pin` |
| `Parsing.Parse` | mastermind.py:92-110 | a token is accepted exactly when it has four characters, each 0 to 5; slot i is then the pin with ordinal digit(s[i]); a wrong length is reported before any character, and otherwise the first bad character decides the error |
| `Parsing.ParseFormat` | mastermind.py:92-110 | every combination typed as its four digits is read back unchanged |
| `Parsing.FormatParse` | mastermind.py:92-110 | every accepted token is the typed form of the combination it was read as |
| `Parsing.ParseExamples` | test_mastermind.py:23-41 | "0125" reads as BLACK, RED, GREEN, WHITE; "012" and "01255" fail on length, "xxxx" on a non-digit, "6789" on a digit with no pin |
| `Gameplay.SubmitUnguarded` | mastermind.py:142-158 | the transition as written: one more row with the guess and its marking, one turn fewer, won afterwards exactly when the guess scored four blacks or the game was already won and the turns did not reach zero, and finished afterwards exactly when the guess scored four blacks, the turns reached zero or the game was already finished |
| `Gameplay.UnguardedMisses` | mastermind.py:152-158 | misses submitted without a guard keep lowering the turns, and passing zero marks the game finished and lost whatever it was before |
| `Gameplay.WinThenMisses` | mastermind.py:142-158 | without a guard, a game won with the first of twelve turns and then given n misses is finished with 11 - n turns, and is still won only while n < 11 |
| `Gameplay.UnguardedLosesWonGame` | mastermind.py:142-158 | with code 0031, a winning first guess then eleven misses ends finished, not won, with zero turns; a twelfth miss leaves -1 turns |
| `Gameplay.Game.constructor` | mastermind.py:118-127 | a new game stores the supplied code, has an empty board, the given turns (12 by default) and is neither finished nor won, and satisfies the game invariant |
| `Gameplay.SubmitKeepsConsistent` | mastermind.py:142-158 | on a board in progress, a submission keeps the game invariant (turns plus rows equal the initial turns, every row scored against the code, only the last row a win, won and finished set as the source sets them), wins exactly when the guess is the code and ends the game exactly when it wins or spends the last turn |
| `Gameplay.Game.SubmitGuess` | mastermind.py:142-158 | on a game in progress: appends exactly the row (guess, marking of the guess against the code), spends one turn, leaves the code and earlier rows unchanged; won holds exactly when the guess is the code and finished exactly when won or no turns are left; the invariant (turns + rows = initial turns, rows scored against the code, won implies finished) is kept |
| `Gameplay.Game.IsFinished` | mastermind.py:160-163 | the game is over exactly when it is won or its last turn has been spent; a game started with at least one turn that is not over has a turn left |
| `Gameplay.Game.IsWon` | mastermind.py:165-168 | the game is won exactly when the last guess on the board was the code, and a won game is finished |
| `Gameplay.NewGameScenario` | test_mastermind.py:76-83 | a game made with code 0031 holds that code, no rows, twelve turns, and is neither finished nor won |
| `Gameplay.WinInThreeScenario` | test_mastermind.py:85-93 | guesses 0000, 1111, 0031 against code 0031 end finished and won with nine turns left |
| `Gameplay.LoseScenario` | test_mastermind.py:95-103 | twelve guesses 0000 against code 0031 end finished and not won with zero turns left |

## Left out

- `get_code` (mastermind.py:81-90) draws the code with `random.choice`; randomness is not modelled, so a game is always made with a supplied code.
- `Gameplay.Game.constructor`: the code argument is required; the source's default of `None`, which calls `get_code`, is not modelled for the reason above.
- `print_board` (mastermind.py:129-140) and the `DEBUG` flag (mastermind.py:16) only format text for the console.
- `main` (mastermind.py:170-194) is console input and output and the play-again loop.
- The `Mark` enumeration (mastermind.py:28-33) is not used by the game logic.
- `Parsing.PinOfChar`: only the ASCII digits are digits; Python's `int` also accepts other Unicode decimal digits, which are not modelled.
- `Gameplay.Game.SubmitGuess`: requires a game that is not finished; the source has no such guard (see Findings) and `SubmitUnguarded` models it as written.
- `is_finished` and `is_won` are reads of a field; as functions of the object they cannot change it, which is how the model states that repeated queries leave the game unchanged.

## Findings

| source | as written | input that shows it | evidently intended | confidence | as-written member | corrected member |
|---|---|---|---|---|---|---|
| mastermind.py:142-158 | `submit_guess` does not check whether the game is already finished (`Gameplay.SubmitUnguarded`, with the general case in `Gameplay.WinThenMisses`) | code 0031 with 12 turns: guess 0031 (won, 11 turns), then eleven guesses 0000: the last one brings the turns to 0 and sets won back to false; a further 0000 leaves -1 turns | a finished game accepts no more guesses, so won and finished never reset and, for a game started with at least one turn, the turns never go below zero | not executed | `Gameplay.UnguardedLosesWonGame` | `Gameplay.Game.SubmitGuess` |
