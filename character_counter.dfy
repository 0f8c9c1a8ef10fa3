/**
 * The character counter page: the count shown is the text area's length,
 * whitespace and line breaks included. The page counts UTF-16 code units; the
 * model counts the characters of its string, which is the same number unless
 * the text holds characters outside the Basic Multilingual Plane.
 */
module CharacterCounter {

  /** The number shown by `updateCharCount`. */
  function CharCount(text: string): nat {
    |text|
  }

  /** Every character counts, one each: the count splits over a concatenation. */
  lemma {:induction false} CharCountAppend(a: string, b: string)
    ensures CharCount(a + b) == CharCount(a) + CharCount(b)
  {
  }

  /** Only the empty text counts zero. */
  lemma CharCountZeroIff(text: string)
    ensures CharCount(text) == 0 <==> text == []
  {
  }

  /** `clearText`: the new text area value, whose count is zero. */
  function ClearText(): (text: string)
    ensures text == [] && CharCount(text) == 0
  {
    ""
  }
}
