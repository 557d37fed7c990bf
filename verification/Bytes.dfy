/** Octets and the ASCII codes the line protocol gives a meaning to. */
module Bytes {
  newtype byte = x: int | 0 <= x < 256

  type bytes = seq<byte>

  const NEWLINE: byte := 10
  const CARRIAGE_RETURN: byte := 13
  const SPACE: byte := 32
  const QUOTE: byte := 34
  const COMMA: byte := 44
  const MINUS: byte := 45
  const DOT: byte := 46
  const DIGIT_0: byte := 48
  const DIGIT_9: byte := 57
  const EQUALS: byte := 61
  const BACKSLASH: byte := 92
  const LETTER_A: byte := 97
  const LETTER_E: byte := 101
  const LETTER_F: byte := 102
  const LETTER_I: byte := 105
  const LETTER_T: byte := 116
  const LETTER_X: byte := 120

  // ----- Regrouping concatenations -----

  lemma Assoc<T>(a: seq<T>, b: seq<T>, c: seq<T>)
    ensures (a + b) + c == a + (b + c)
  {
  }

  lemma DropHead<T>(x: T, s: seq<T>)
    ensures ([x] + s)[1..] == s
  {
  }
}
