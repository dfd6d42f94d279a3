/**
 * Scoring a guess against the code (calc_marking).
 *
 * The specification, Score, says what the marking is: the blacks are the
 * pegs where code and guess agree in place, and the whites are, summed over
 * the six colours, the smaller of the number of unmatched code pegs and of
 * unmatched guess pegs of that colour.  The method CalcMarking computes the
 * marking the way the game does, with two passes over the pegs and removal
 * from a list, and is proved to agree with Score.
 */
module Scoring {

  import opened Pins

  // Counting pegs

  /** Number of occurrences of pin p in s. */
  function Count(s: seq<Pin>, p: Pin): nat {
    if s == [] then 0 else (if s[0] == p then 1 else 0) + Count(s[1..], p)
  }

  /** Count is the multiplicity of p in the multiset of pegs s. */
  lemma {:induction false} CountIsMultiplicity(s: seq<Pin>, p: Pin)
    ensures Count(s, p) == multiset(s)[p]
  {
    if s != [] {
      CountIsMultiplicity(s[1..], p);
      assert s == [s[0]] + s[1..];
      assert multiset(s) == multiset{s[0]} + multiset(s[1..]);
    }
  }

  lemma {:induction false} CountAppend(s: seq<Pin>, t: seq<Pin>, p: Pin)
    ensures Count(s + t, p) == Count(s, p) + Count(t, p)
  {
    if s != [] {
      CountAppend(s[1..], t, p);
      assert (s + t)[0] == s[0] && (s + t)[1..] == s[1..] + t;
    } else {
      assert s + t == t;
    }
  }

  /** Summing the colour counts of a collection gives its size. */
  lemma {:induction false} CountTotal(s: seq<Pin>)
    ensures Count(s, Black) + Count(s, Red) + Count(s, Green)
            + Count(s, Blue) + Count(s, Yellow) + Count(s, White) == |s|
  {
    if s != [] {
      CountTotal(s[1..]);
    }
  }

  function Min(x: int, y: int): int {
    if x <= y then x else y
  }

  /** How many pegs of colour p the two collections have in common. */
  function MinCount(a: seq<Pin>, b: seq<Pin>, p: Pin): nat {
    Min(Count(a, p), Count(b, p))
  }

  /** Sum over the six colours of the pegs the two collections have in common. */
  function Common(a: seq<Pin>, b: seq<Pin>): nat {
    MinCount(a, b, Black) + MinCount(a, b, Red) + MinCount(a, b, Green)
    + MinCount(a, b, Blue) + MinCount(a, b, Yellow) + MinCount(a, b, White)
  }

  // The specification of the marking

  /** The pegs of a at the positions where a and b agree, in order. */
  function Matched(a: seq<Pin>, b: seq<Pin>): seq<Pin>
    requires |a| == |b|
  {
    if a == [] then [] else (if a[0] == b[0] then [a[0]] else []) + Matched(a[1..], b[1..])
  }

  /** The pegs of a at the positions where a and b differ, in order. */
  function Unmatched(a: seq<Pin>, b: seq<Pin>): seq<Pin>
    requires |a| == |b|
  {
    if a == [] then [] else (if a[0] != b[0] then [a[0]] else []) + Unmatched(a[1..], b[1..])
  }

  /** The marking a guess earns against the code. */
  function Score(code: Combination, guess: Combination): Marking {
    var blacks := |Matched(code, guess)|;
    var whites := Common(Unmatched(code, guess), Unmatched(guess, code));
    Marking(blacks, whites, Slots - blacks - whites)
  }

  // The algorithm

  /** Index of the first occurrence of x in s. */
  function FirstIndex(s: seq<Pin>, x: Pin): (k: nat)
    requires x in s
    ensures k < |s| && s[k] == x && x !in s[..k]
  {
    if s[0] == x then 0
    else
      assert x in s[1..] by { assert s == [s[0]] + s[1..]; }
      var k := 1 + FirstIndex(s[1..], x);
      assert s[..k] == [s[0]] + s[1..][..k - 1];
      k
  }

  /** list.remove: drop the first occurrence of x, keeping the order of the rest. */
  function RemoveFirst(s: seq<Pin>, x: Pin): (r: seq<Pin>)
    requires x in s
    ensures |r| == |s| - 1
    ensures multiset(r) == multiset(s) - multiset{x}
    ensures forall p :: Count(r, p) == Count(s, p) - (if p == x then 1 else 0)
    ensures exists k :: 0 <= k < |s| && s[k] == x && x !in s[..k] && r == s[..k] + s[k + 1..]
  {
    var k := FirstIndex(s, x);
    assert s == s[..k] + [s[k]] + s[k + 1..];
    forall p ensures Count(s[..k] + s[k + 1..], p) == Count(s, p) - (if p == x then 1 else 0) {
      CountAppend(s[..k], s[k + 1..], p);
      CountAppend(s[..k], [s[k]], p);
      CountAppend(s[..k] + [s[k]], s[k + 1..], p);
    }
    s[..k] + s[k + 1..]
  }

  /**
   * The second pass of the scoring loop: each guess peg, in order, that is
   * still among the code pegs scores a white and consumes one such code peg.
   */
  function GreedyWhites(guessRest: seq<Pin>, codeRest: seq<Pin>): nat
    decreases |guessRest|
  {
    if guessRest == [] then 0
    else if guessRest[0] in codeRest then
      1 + GreedyWhites(guessRest[1..], RemoveFirst(codeRest, guessRest[0]))
    else
      GreedyWhites(guessRest[1..], codeRest)
  }

  /**
   * calc_marking: a first pass counts exact matches and collects the unmatched
   * pegs of code and guess, a second pass counts colour matches, removing each
   * matched code peg so that it is not counted twice.
   */
  method CalcMarking(code: Combination, guess: Combination) returns (m: Marking)
    ensures m == Score(code, guess)
  {
    var blacks := 0;
    var whites := 0;
    var codeRemains: seq<Pin> := [];
    var guessRemains: seq<Pin> := [];
    for i := 0 to Slots
      invariant blacks == |Matched(code[..i], guess[..i])|
      invariant codeRemains == Unmatched(code[..i], guess[..i])
      invariant guessRemains == Unmatched(guess[..i], code[..i])
    {
      assert code[..i + 1] == code[..i] + [code[i]] && guess[..i + 1] == guess[..i] + [guess[i]];
      PassesSnoc(code[..i], guess[..i], code[i], guess[i]);
      PassesSnoc(guess[..i], code[..i], guess[i], code[i]);
      if code[i] == guess[i] {
        blacks := blacks + 1;
      } else {
        codeRemains := codeRemains + [code[i]];
        guessRemains := guessRemains + [guess[i]];
      }
    }
    assert code[..Slots] == code && guess[..Slots] == guess;
    ghost var codeUnmatched := codeRemains;
    for j := 0 to |guessRemains|
      invariant whites + GreedyWhites(guessRemains[j..], codeRemains)
             == GreedyWhites(guessRemains, codeUnmatched)
    {
      assert guessRemains[j..][1..] == guessRemains[j + 1..];
      if guessRemains[j] in codeRemains {
        whites := whites + 1;
        codeRemains := RemoveFirst(codeRemains, guessRemains[j]);
      }
    }
    assert whites == Common(codeUnmatched, guessRemains) by {
      assert guessRemains[|guessRemains|..] == [];
      GreedyIsCommon(guessRemains, codeUnmatched);
      CommonSymmetric(guessRemains, codeUnmatched);
    }
    var blanks := Slots - blacks - whites;
    m := Marking(blacks, whites, blanks);
  }

  /** Extending both combinations by one slot extends the matched and unmatched pegs by that slot. */
  lemma {:induction false} PassesSnoc(a: seq<Pin>, b: seq<Pin>, x: Pin, y: Pin)
    requires |a| == |b|
    ensures Matched(a + [x], b + [y]) == Matched(a, b) + (if x == y then [x] else [])
    ensures Unmatched(a + [x], b + [y]) == Unmatched(a, b) + (if x != y then [x] else [])
  {
    if a != [] {
      PassesSnoc(a[1..], b[1..], x, y);
      assert (a + [x])[1..] == a[1..] + [x] && (b + [y])[1..] == b[1..] + [y];
    }
  }

  // The second pass computes the per-colour minimum

  lemma CommonSymmetric(a: seq<Pin>, b: seq<Pin>)
    ensures Common(a, b) == Common(b, a)
  {
    assert forall p :: MinCount(a, b, p) == MinCount(b, a, p);
  }

  lemma CountPresent(s: seq<Pin>, x: Pin)
    ensures x in s <==> Count(s, x) > 0
  {
    CountIsMultiplicity(s, x);
  }

  /** A guess peg matched by a code peg adds one to the overlap and consumes that code peg. */
  lemma CommonRemove(rest: seq<Pin>, g: Pin, codeRest: seq<Pin>)
    requires g in codeRest
    ensures Common([g] + rest, codeRest) == 1 + Common(rest, RemoveFirst(codeRest, g))
  {
    var r := RemoveFirst(codeRest, g);
    assert ([g] + rest)[1..] == rest;
    CountPresent(codeRest, g);
    assert forall p :: p != g ==> MinCount([g] + rest, codeRest, p) == MinCount(rest, r, p);
    assert MinCount([g] + rest, codeRest, g) == 1 + MinCount(rest, r, g);
  }

  /** A guess peg that no code peg matches adds nothing to the overlap. */
  lemma CommonAbsent(rest: seq<Pin>, g: Pin, codeRest: seq<Pin>)
    requires g !in codeRest
    ensures Common([g] + rest, codeRest) == Common(rest, codeRest)
  {
    assert ([g] + rest)[1..] == rest;
    CountPresent(codeRest, g);
    assert forall p :: MinCount([g] + rest, codeRest, p) == MinCount(rest, codeRest, p);
  }

  /**
   * The greedy remove-one-occurrence pass credits each colour exactly
   * min(unmatched guess count, unmatched code count) times.
   */
  lemma {:induction false} GreedyIsCommon(guessRest: seq<Pin>, codeRest: seq<Pin>)
    ensures GreedyWhites(guessRest, codeRest) == Common(guessRest, codeRest)
    decreases |guessRest|
  {
    if guessRest != [] {
      var g, rest := guessRest[0], guessRest[1..];
      assert guessRest == [g] + rest;
      if g in codeRest {
        GreedyIsCommon(rest, RemoveFirst(codeRest, g));
        CommonRemove(rest, g, codeRest);
      } else {
        GreedyIsCommon(rest, codeRest);
        CommonAbsent(rest, g, codeRest);
      }
    }
  }

  /**
   * The colour pass does not depend on the order in which the pegs are
   * visited or removed: only how many of each colour there are matters.
   */
  lemma GreedyOrderIndependent(guessRest: seq<Pin>, codeRest: seq<Pin>, guessOther: seq<Pin>, codeOther: seq<Pin>)
    requires multiset(guessRest) == multiset(guessOther)
    requires multiset(codeRest) == multiset(codeOther)
    ensures GreedyWhites(guessRest, codeRest) == GreedyWhites(guessOther, codeOther)
  {
    GreedyIsCommon(guessRest, codeRest);
    GreedyIsCommon(guessOther, codeOther);
    forall p ensures MinCount(guessRest, codeRest, p) == MinCount(guessOther, codeOther, p) {
      CountIsMultiplicity(guessRest, p);
      CountIsMultiplicity(guessOther, p);
      CountIsMultiplicity(codeRest, p);
      CountIsMultiplicity(codeOther, p);
    }
  }

  // Properties of the first pass

  /** Every peg is either matched in place or left over for the colour pass. */
  lemma {:induction false} SplitPegs(a: seq<Pin>, b: seq<Pin>, p: Pin)
    requires |a| == |b|
    ensures Count(a, p) == Count(Matched(a, b), p) + Count(Unmatched(a, b), p)
    ensures |Matched(a, b)| + |Unmatched(a, b)| == |a|
  {
    if a != [] {
      SplitPegs(a[1..], b[1..], p);
      var hm: seq<Pin> := if a[0] == b[0] then [a[0]] else [];
      var hu: seq<Pin> := if a[0] != b[0] then [a[0]] else [];
      CountAppend(hm, Matched(a[1..], b[1..]), p);
      CountAppend(hu, Unmatched(a[1..], b[1..]), p);
    }
  }

  /** An exact match consumes the same colour on both sides. */
  lemma {:induction false} MatchedSymmetric(a: seq<Pin>, b: seq<Pin>)
    requires |a| == |b|
    ensures Matched(a, b) == Matched(b, a)
  {
    if a != [] {
      MatchedSymmetric(a[1..], b[1..]);
    }
  }

  /** The positions where two combinations hold the same pin. */
  function AgreeingPositions(a: seq<Pin>, b: seq<Pin>): set<nat>
    requires |a| == |b|
  {
    set i: nat | i < |a| && a[i] == b[i]
  }

  /** The first n slots hold one matched peg per agreeing position among them. */
  lemma {:induction false} MatchedCountsPrefix(a: seq<Pin>, b: seq<Pin>, n: nat)
    requires |a| == |b| && n <= |a|
    ensures |Matched(a[..n], b[..n])| == |set i: nat | i < n && a[i] == b[i]|
  {
    if n > 0 {
      var k := n - 1;
      MatchedCountsPrefix(a, b, k);
      assert a[..n] == a[..k] + [a[k]] && b[..n] == b[..k] + [b[k]];
      PassesSnoc(a[..k], b[..k], a[k], b[k]);
      var before := set i: nat | i < k && a[i] == b[i];
      if a[k] == b[k] {
        assert (set i: nat | i < n && a[i] == b[i]) == before + {k};
      } else {
        assert (set i: nat | i < n && a[i] == b[i]) == before;
      }
    }
  }

  lemma MatchedCountsPositions(a: seq<Pin>, b: seq<Pin>)
    requires |a| == |b|
    ensures |Matched(a, b)| == |AgreeingPositions(a, b)|
  {
    MatchedCountsPrefix(a, b, |a|);
    assert a[..|a|] == a && b[..|b|] == b;
  }

  /** Agreeing everywhere leaves nothing unmatched. */
  lemma {:induction false} MatchedSelf(a: seq<Pin>)
    ensures Matched(a, a) == a && Unmatched(a, a) == []
  {
    if a != [] {
      MatchedSelf(a[1..]);
    }
  }

  /** All pegs match in place exactly when the two combinations are equal. */
  lemma {:induction false} MatchedAll(a: seq<Pin>, b: seq<Pin>)
    requires |a| == |b|
    ensures |Matched(a, b)| <= |a|
    ensures |Matched(a, b)| == |a| <==> a == b
  {
    if a != [] {
      MatchedAll(a[1..], b[1..]);
      if a[0] == b[0] && a[1..] == b[1..] {
        assert a == [a[0]] + a[1..] && b == [b[0]] + b[1..];
      }
    }
  }

  // Properties of the marking

  /** The colour overlap of two collections never exceeds either of them. */
  lemma CommonBound(a: seq<Pin>, b: seq<Pin>)
    ensures Common(a, b) <= |a| && Common(a, b) <= |b|
  {
    CountTotal(a);
    CountTotal(b);
  }

  /**
   * A marking always accounts for the four slots: the three counts are
   * non-negative and add up to four, and the whites fit in the slots that
   * the blacks left unmatched.
   */
  lemma ScoreWellFormed(code: Combination, guess: Combination)
    ensures var m := Score(code, guess);
      && m.blacks >= 0 && m.whites >= 0 && m.blanks >= 0
      && m.blacks + m.whites + m.blanks == Slots
      && m.whites <= |Unmatched(code, guess)| == Slots - m.blacks
  {
    SplitPegs(code, guess, Black);
    SplitPegs(guess, code, Black);
    CommonBound(Unmatched(code, guess), Unmatched(guess, code));
  }

  /** The blacks are the number of positions where code and guess hold the same pin. */
  lemma ScoreBlacks(code: Combination, guess: Combination)
    ensures Score(code, guess).blacks == |AgreeingPositions(code, guess)|
  {
    MatchedCountsPositions(code, guess);
  }

  /** A guess scores four blacks exactly when it is the code. */
  lemma ScoreWin(code: Combination, guess: Combination)
    ensures Score(code, guess).blacks == Slots <==> guess == code
  {
    MatchedAll(code, guess);
  }

  /** The code scores four blacks against itself. */
  lemma ScoreSelf(code: Combination)
    ensures Score(code, code) == Marking(4, 0, 0)
  {
    MatchedSelf(code);
  }

  /** Per colour, the overlap of code and guess is the exact matches plus the overlap of the rest. */
  lemma MinCountSplit(code: seq<Pin>, guess: seq<Pin>, p: Pin)
    requires |code| == |guess|
    ensures MinCount(code, guess, p)
         == Count(Matched(code, guess), p) + MinCount(Unmatched(code, guess), Unmatched(guess, code), p)
  {
    SplitPegs(code, guess, p);
    SplitPegs(guess, code, p);
    MatchedSymmetric(code, guess);
  }

  /**
   * Blacks and whites together are the per-colour overlap of the whole code
   * and the whole guess.
   */
  lemma ScoreTotal(code: Combination, guess: Combination)
    ensures Score(code, guess).blacks + Score(code, guess).whites == Common(code, guess)
  {
    var mc := Matched(code, guess);
    var cu, gu := Unmatched(code, guess), Unmatched(guess, code);
    CountTotal(mc);
    forall p | true
      ensures MinCount(code, guess, p) == Count(mc, p) + MinCount(cu, gu, p)
    {
      MinCountSplit(code, guess, p);
    }
  }

  /**
   * Reordering the guess may move pegs between black and white, but never
   * changes how many of them score.
   */
  lemma ScoreGuessPermutation(code: Combination, guess: Combination, other: Combination)
    requires multiset(guess) == multiset(other)
    ensures Score(code, guess).blacks + Score(code, guess).whites
         == Score(code, other).blacks + Score(code, other).whites
  {
    ScoreTotal(code, guess);
    ScoreTotal(code, other);
    forall p ensures Count(guess, p) == Count(other, p) {
      CountIsMultiplicity(guess, p);
      CountIsMultiplicity(other, p);
    }
  }

  // The scoring examples of the test suite, all against code 0123 (BLACK, RED, GREEN, BLUE)

  lemma ScoreAllBlanks()
    ensures Score([Black, Red, Green, Blue], [Yellow, Yellow, Yellow, Yellow]) == Marking(0, 0, 4)
  {
  }

  lemma ScoreAllWhites()
    ensures Score([Black, Red, Green, Blue], [Blue, Black, Red, Green]) == Marking(0, 4, 0)
  {
  }

  lemma ScoreTwoBlacksTwoWhites()
    ensures Score([Black, Red, Green, Blue], [Blue, Red, Green, Black]) == Marking(2, 2, 0)
  {
  }

  lemma ScoreAllBlacks()
    ensures Score([Black, Red, Green, Blue], [Black, Red, Green, Blue]) == Marking(4, 0, 0)
  {
  }
}
