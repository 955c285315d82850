/** UTF-8 as its definition has it (RFC 3629, section 4): which byte strings encode a character, and which one. */
module Utf8Definition {
  import opened Options

  predicate In(c: char, lo: int, hi: int) { lo <= c as int <= hi }

  predicate Tail(c: char) { In(c, 0x80, 0xBF) }

  /** A code point that is a character: no surrogate. */
  predicate IsScalar(cp: nat) { cp < 0x110000 && !(0xD800 <= cp <= 0xDFFF) }

  /** The well-formed byte sequences; the ranges of the second byte rule out overlong forms and surrogates. */
  predicate WellFormed(b: string)
  {
    if |b| == 1 then In(b[0], 0, 0x7F)
    else if |b| == 2 then In(b[0], 0xC2, 0xDF) && Tail(b[1])
    else if |b| == 3 then
      && Tail(b[2])
      && (|| (In(b[0], 0xE0, 0xE0) && In(b[1], 0xA0, 0xBF))
          || (In(b[0], 0xE1, 0xEC) && Tail(b[1]))
          || (In(b[0], 0xED, 0xED) && In(b[1], 0x80, 0x9F))
          || (In(b[0], 0xEE, 0xEF) && Tail(b[1])))
    else if |b| == 4 then
      && Tail(b[2]) && Tail(b[3])
      && (|| (In(b[0], 0xF0, 0xF0) && In(b[1], 0x90, 0xBF))
          || (In(b[0], 0xF1, 0xF3) && Tail(b[1]))
          || (In(b[0], 0xF4, 0xF4) && In(b[1], 0x80, 0x8F)))
    else false
  }

  /** The bits of a byte below its marking ones. */
  function Payload(c: char, mark: nat): int { c as int - mark }

  /** The code point of a byte sequence, six bits from every byte but the first. */
  function CodePoint(b: string): Option<int>
  {
    if !WellFormed(b) then None
    else if |b| == 1 then Some(b[0] as int)
    else if |b| == 2 then Some(64 * Payload(b[0], 0xC0) + Payload(b[1], 0x80))
    else if |b| == 3 then Some(64 * (64 * Payload(b[0], 0xE0) + Payload(b[1], 0x80)) + Payload(b[2], 0x80))
    else
      Some(64 * (64 * (64 * Payload(b[0], 0xF0) + Payload(b[1], 0x80)) + Payload(b[2], 0x80)) + Payload(b[3], 0x80))
  }

  /** The two surrogates of a code point beyond the first plane (RFC 2781, section 2.1). */
  function HighSurrogate(cp: nat): nat
    requires 0x10000 <= cp < 0x110000
  {
    0xD800 + (cp - 0x10000) / 0x400
  }

  function LowSurrogate(cp: nat): nat
    requires 0x10000 <= cp < 0x110000
  {
    0xDC00 + (cp - 0x10000) % 0x400
  }
}
