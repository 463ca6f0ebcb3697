/** Letter case of ASCII text. */
module Ascii {
  function LowerChar(c: char): char {
    if 'A' <= c <= 'Z' then 'a' + (c - 'A') else c
  }
}
