/** ASCII character helpers shared by the pattern compiler and the HTTP-verb
    normalisation. */
module Ascii {

  predicate IsUpper(c: char) {
    'A' <= c <= 'Z'
  }

  predicate IsLower(c: char) {
    'a' <= c <= 'z'
  }

  predicate IsDigit(c: char) {
    '0' <= c <= '9'
  }

  /** ASCII lower-casing of one character; every other character is kept. */
  function LowerChar(c: char): (d: char)
    ensures !IsUpper(d)
    ensures IsUpper(c) ==> IsLower(d) && d as int == c as int + 32
    ensures !IsUpper(c) ==> d == c
  {
    if IsUpper(c) then (c as int + 32) as char else c
  }

  /** `s` begins with `word` when letters are compared without regard to case
      (the `i` flag of a JavaScript regular expression, on ASCII). `word` is
      written in lower case. */
  predicate StartsWithCI(s: string, word: string) {
    |word| <= |s| && forall i | 0 <= i < |word| :: LowerChar(s[i]) == word[i]
  }
}
