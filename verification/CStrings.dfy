/** Strings as C code sees them. */
module CStrings {

  /** The character at `i`; the terminator past the end. */
  function At(s: string, i: nat): char
  {
    if i < |s| then s[i] else '\0'
  }
}
