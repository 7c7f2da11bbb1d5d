/** Character classification used by the two input parsers (ship placement
and target selection). Only ASCII letters and digits are modelled.
 */
module Text {

  predicate IsLetter(ch: char) {
    'A' <= ch <= 'Z' || 'a' <= ch <= 'z'
  }

  predicate IsDigit(ch: char) {
    '0' <= ch <= '9'
  }

  /** `char.ToUpper` on ASCII: lower-case letters move to upper case, anything else stays. */
  function ToUpper(ch: char): (u: char)
    ensures IsLetter(ch) ==> 'A' <= u <= 'Z'
    ensures 'a' <= ch <= 'z' ==> u as int == ch as int - 32
    ensures !('a' <= ch <= 'z') ==> u == ch
  {
    if 'a' <= ch <= 'z' then (ch as int - 32) as char else ch
  }

  /** `int.Parse` of a single digit. */
  function DigitValue(ch: char): (n: int)
    requires IsDigit(ch)
    ensures 0 <= n <= 9
  {
    ch as int - '0' as int
  }

  /** The column index read from a letter: `char.ToUpper(letter) - 'A'`. */
  function LetterIndex(ch: char): (n: int)
    ensures IsLetter(ch) ==> 0 <= n < 26
  {
    ToUpper(ch) as int - 'A' as int
  }
}
