/**
 * The word counter page: the count shown for the text area's value, and the
 * clear button.
 */
module WordCounter {
  import opened Text
  import opened Words

  /** The number shown by `updateWordCount` for the text area's value. */
  function WordCount(text: string): nat {
    if Trim(text) == "" then 0 else CountNonEmpty(SplitWhitespace(Trim(text)))
  }

  /** The count is the number of maximal runs of non-whitespace characters. */
  lemma WordCountIsRuns(text: string)
    ensures WordCount(text) == Runs(text)
  {
    RunsOfTrim(text);
    TrimEmptyIff(text);
    RunsZeroIff(text);
    SplitWhitespaceCountsRuns(Trim(text));
  }

  /** Empty or whitespace-only text counts zero words, and only such text does. */
  lemma WordCountZeroIff(text: string)
    ensures WordCount(text) == 0 <==> AllSpace(text)
  {
    WordCountIsRuns(text);
    RunsZeroIff(text);
  }

  /** Adding or removing whitespace at either end does not change the count. */
  lemma WordCountPadding(p: string, text: string, q: string)
    requires AllSpace(p) && AllSpace(q)
    ensures WordCount(p + text + q) == WordCount(text)
  {
    WordCountIsRuns(p + text + q);
    WordCountIsRuns(text);
    RunsPadding(p, text, q);
  }

  /** The count never exceeds the number of non-whitespace characters. */
  lemma WordCountBound(text: string)
    ensures WordCount(text) <= NonSpaceCount(text)
  {
    WordCountIsRuns(text);
    RunsAtMostNonSpace(text);
  }

  /** `clearText`: the new text area value, whose count is zero. */
  function ClearText(): (text: string)
    ensures text == [] && WordCount(text) == 0
  {
    ""
  }
}
