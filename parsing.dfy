/**
 * Reading a guess typed as text (str2combination): four characters, each
 * the decimal ordinal of a pin.
 */
module Parsing {

  import opened Wrappers
  import opened Pins

  /**
   * Why a token was rejected.  In the game all three are raised as ValueError:
   * by the length check, by int() on a non-digit, and by Pin() on a digit
   * that names no pin.
   */
  datatype ParseError = BadNumberOfPins | NotADigit(c: char) | NoSuchPin(digit: nat)

  predicate IsDigit(c: char) {
    '0' <= c <= '9'
  }

  /** The characters that name a pin: the digits 0 to 5. */
  predicate IsPinChar(c: char) {
    '0' <= c <= '5'
  }

  function DigitValue(c: char): (n: nat)
    requires IsDigit(c)
    ensures n < 10
  {
    c as int - '0' as int
  }

  /** Pin(int(c)) for a one-character string c. */
  function PinOfChar(c: char): (r: Result<Pin, ParseError>)
    ensures r.Success? <==> IsPinChar(c)
    ensures r.Success? ==> r.value.Ordinal() == DigitValue(c)
    ensures !IsDigit(c) ==> r == Failure(NotADigit(c))
    ensures IsDigit(c) && !IsPinChar(c) ==> r == Failure(NoSuchPin(DigitValue(c)))
  {
    if !IsDigit(c) then Failure(NotADigit(c))
    else
      match PinOf(DigitValue(c))
      case None => Failure(NoSuchPin(DigitValue(c)))
      case Some(p) => Success(p)
  }

  /**
   * str2combination: a token of exactly four pin characters becomes the
   * combination of those pins in order; anything else is rejected as a whole.
   * The length is checked first, then the characters from left to right, and
   * the first bad one decides the error.
   */
  function Parse(s: string): (r: Result<Combination, ParseError>)
    ensures r.Success? <==> |s| == Slots && forall i :: 0 <= i < |s| ==> IsPinChar(s[i])
    ensures r.Success? ==> forall i :: 0 <= i < Slots ==> r.value[i].Ordinal() == DigitValue(s[i])
    ensures |s| != Slots ==> r == Failure(BadNumberOfPins)
    ensures r.Failure? && |s| == Slots ==>
      exists k :: 0 <= k < Slots && (forall i :: 0 <= i < k ==> IsPinChar(s[i]))
        && PinOfChar(s[k]) == Failure(r.error)
  {
    if |s| != Slots then Failure(BadNumberOfPins)
    else
      var p0 :- PinOfChar(s[0]);
      var p1 :- PinOfChar(s[1]);
      var p2 :- PinOfChar(s[2]);
      var p3 :- PinOfChar(s[3]);
      Success([p0, p1, p2, p3])
  }

  /** The character naming a pin: its ordinal as a decimal digit. */
  function PinChar(p: Pin): (c: char)
    ensures IsPinChar(c) && DigitValue(c) == p.Ordinal()
  {
    ('0' as int + p.Ordinal()) as char
  }

  /** The token a player types for a combination. */
  function Format(c: Combination): (s: string)
    ensures |s| == Slots && forall i :: 0 <= i < Slots ==> s[i] == PinChar(c[i])
  {
    [PinChar(c[0]), PinChar(c[1]), PinChar(c[2]), PinChar(c[3])]
  }

  /** Every combination can be typed in and is read back unchanged. */
  lemma ParseFormat(c: Combination)
    ensures Parse(Format(c)) == Success(c)
  {
    var s := Format(c);
    assert forall i :: 0 <= i < |s| ==> IsPinChar(s[i]);
    var r := Parse(s);
    assert r.Success?;
    forall i | 0 <= i < Slots ensures r.value[i] == c[i] {
      PinOfOrdinal(r.value[i]);
      PinOfOrdinal(c[i]);
    }
    assert r.value == c;
  }

  /** Every accepted token is the typed form of the combination it was read as. */
  lemma FormatParse(s: string)
    requires Parse(s).Success?
    ensures Format(Parse(s).value) == s
  {
    var c := Parse(s).value;
    forall i | 0 <= i < Slots ensures Format(c)[i] == s[i] {
      assert DigitValue(PinChar(c[i])) == DigitValue(s[i]);
    }
  }

  /** The parser examples of the test suite. */
  lemma ParseExamples()
    ensures Parse("0125") == Success([Black, Red, Green, White])
    ensures Parse("012") == Failure(BadNumberOfPins)
    ensures Parse("01255") == Failure(BadNumberOfPins)
    ensures Parse("xxxx") == Failure(NotADigit('x'))
    ensures Parse("6789") == Failure(NoSuchPin(6))
  {
  }
}
