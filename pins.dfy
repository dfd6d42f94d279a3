/** The data model of the game: pins, combinations, markings and board rows. */
module Pins {

  import opened Wrappers

  /** The six pin colours; each has a stable ordinal 0..5. */
  datatype Pin = Black | Red | Green | Blue | Yellow | White {

    function Ordinal(): (n: nat)
      ensures n < 6
    {
      match this
      case Black => 0
      case Red => 1
      case Green => 2
      case Blue => 3
      case Yellow => 4
      case White => 5
    }
  }

  /** The pin with a given ordinal, or None where constructing the enum member would fail. */
  function PinOf(n: int): (r: Option<Pin>)
    ensures r.Some? <==> 0 <= n < 6
    ensures r.Some? ==> r.value.Ordinal() == n
  {
    if n == 0 then Some(Black)
    else if n == 1 then Some(Red)
    else if n == 2 then Some(Green)
    else if n == 3 then Some(Blue)
    else if n == 4 then Some(Yellow)
    else if n == 5 then Some(White)
    else None
  }

  /** Every pin is found again from its ordinal, so the ordinal is a bijection onto 0..5. */
  lemma PinOfOrdinal(p: Pin)
    ensures PinOf(p.Ordinal()) == Some(p)
  {
  }

  /** The fixed number of slots of a combination. */
  const Slots: nat := 4

  /** A code or a guess: exactly four pins, repetitions allowed. */
  type Combination = c: seq<Pin> | |c| == Slots witness [Black, Black, Black, Black]

  /** The feedback for one guess: exact matches, colour-only matches, and the rest. */
  datatype Marking = Marking(blacks: int, whites: int, blanks: int)

  /** One line of the board: a guess and the marking it received. */
  datatype Row = Row(guess: Combination, marking: Marking)
}
