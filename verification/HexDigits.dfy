/** Hexadecimal digits as they are written, in either case, and the numbers they stand for. */
module HexDigits {
  const LOWER_DIGITS := "0123456789abcdef"
  const UPPER_DIGITS := "0123456789ABCDEF"

  type Nibble = v: nat | v < 16

  datatype Digit = Digit(value: Nibble, upper: bool)
  {
    function Text(): char { if upper then UPPER_DIGITS[value] else LOWER_DIGITS[value] }
  }

  function DigitsText(ds: seq<Digit>): (t: string)
    ensures |t| == |ds|
  {
    seq(|ds|, i requires 0 <= i < |ds| => ds[i].Text())
  }

  /** The last digit counts ones, the one before it sixteens, and so on. */
  function HexNumber(ds: seq<Digit>): nat
  {
    if ds == [] then 0 else 16 * HexNumber(ds[..|ds| - 1]) + ds[|ds| - 1].value
  }
}
