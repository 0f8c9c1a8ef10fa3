/**
 * The text case converter page: `convertCase` rewrites the text area's value
 * in one of four cases, and `clearText` empties it.
 */
module TextCaseConverter {
  import opened Text

  /* ---------- Upper and lower case ---------- */

  /** Upper case keeps the length, leaves no lower-case letter and is idempotent. */
  lemma UpperProperties(s: string)
    ensures |Upper(s)| == |s|
    ensures forall i :: 0 <= i < |s| ==> !('a' <= Upper(s)[i] <= 'z')
    ensures Upper(Upper(s)) == Upper(s)
  {
    forall i | 0 <= i < |s| ensures Upper(Upper(s))[i] == Upper(s)[i] {
      CaseChar(s[i]);
    }
  }

  /** Lower case keeps the length, leaves no upper-case letter and is idempotent. */
  lemma LowerProperties(s: string)
    ensures |Lower(s)| == |s|
    ensures forall i :: 0 <= i < |s| ==> !('A' <= Lower(s)[i] <= 'Z')
    ensures Lower(Lower(s)) == Lower(s)
  {
    forall i | 0 <= i < |s| ensures Lower(Lower(s))[i] == Lower(s)[i] {
      CaseChar(s[i]);
    }
  }

  /* ---------- Title case ---------- */

  /** `word.charAt(0).toUpperCase() + word.slice(1)`. */
  function Capitalize(w: string): (r: string)
    ensures |r| == |w|
  {
    if w == [] then [] else [UpperChar(w[0])] + w[1..]
  }

  /** Capitalises every piece, in order. */
  function CapitalizeEach(parts: seq<string>): (r: seq<string>)
    ensures |r| == |parts|
  {
    if parts == [] then [] else [Capitalize(parts[0])] + CapitalizeEach(parts[1..])
  }

  /** The "titlecase" branch: lower-case, split on " ", capitalise each piece, join on " ". */
  function TitleCase(s: string): string {
    JoinOn(CapitalizeEach(SplitOn(Lower(s), ' ')), ' ')
  }

  /**
   * Reference definition of the capitalising step, one character at a time:
   * the first character and every character right after a space is
   * upper-cased, the others are kept.
   */
  function CapAfterSpace(t: string): (r: string)
    ensures |r| == |t|
  {
    seq(|t|, j requires 0 <= j < |t| => if j == 0 || t[j - 1] == ' ' then UpperChar(t[j]) else t[j])
  }

  lemma CapAfterSpaceNoSpace(t: string)
    requires ' ' !in t
    ensures CapAfterSpace(t) == Capitalize(t)
  {
    forall j | 0 <= j < |t| ensures CapAfterSpace(t)[j] == Capitalize(t)[j] {
      if j > 0 { assert t[j - 1] in t; }
    }
  }

  lemma CapAfterSpaceSplit(t: string, k: int)
    requires 0 <= k < |t| && t[k] == ' ' && ' ' !in t[..k]
    ensures CapAfterSpace(t) == Capitalize(t[..k]) + [' '] + CapAfterSpace(t[k + 1..])
  {
    var r := Capitalize(t[..k]) + [' '] + CapAfterSpace(t[k + 1..]);
    forall j | 0 <= j < |t| ensures CapAfterSpace(t)[j] == r[j] {
      CapAfterSpaceSplitAt(t, k, j);
    }
    assert CapAfterSpace(t) == r;
  }

  /** One position of `CapAfterSpaceSplit`. */
  lemma CapAfterSpaceSplitAt(t: string, k: int, j: int)
    requires 0 <= k < |t| && t[k] == ' ' && ' ' !in t[..k]
    requires 0 <= j < |t|
    ensures CapAfterSpace(t)[j] == (Capitalize(t[..k]) + [' '] + CapAfterSpace(t[k + 1..]))[j]
  {
    var rest := t[k + 1..];
    var r := Capitalize(t[..k]) + [' '] + CapAfterSpace(rest);
    if j < k {
      assert r[j] == Capitalize(t[..k])[j];
      if j > 0 { assert t[..k][j - 1] == t[j - 1]; assert t[j - 1] in t[..k]; }
    } else if j > k {
      assert r[j] == CapAfterSpace(rest)[j - k - 1];
      assert rest[j - k - 1] == t[j];
      if j > k + 1 { assert rest[j - k - 2] == t[j - 1]; }
    }
  }

  /** Splitting on spaces, capitalising each piece and joining is the character-wise step. */
  lemma {:induction false} CapitalizePiecesIsCapAfterSpace(t: string)
    ensures JoinOn(CapitalizeEach(SplitOn(t, ' ')), ' ') == CapAfterSpace(t)
    decreases |t|
  {
    var k := IndexOf(t, ' ');
    if k < 0 {
      assert SplitOn(t, ' ') == [t];
      assert CapitalizeEach([t]) == [Capitalize(t)];
      CapAfterSpaceNoSpace(t);
    } else {
      var rest := t[k + 1..];
      var tail := SplitOn(rest, ' ');
      var first := Capitalize(t[..k]);
      assert SplitOn(t, ' ') == [t[..k]] + tail by { SplitOnStep(t, ' ', k); }
      assert CapitalizeEach([t[..k]] + tail) == [first] + CapitalizeEach(tail) by {
        assert ([t[..k]] + tail)[1..] == tail;
      }
      assert JoinOn([first] + CapitalizeEach(tail), ' ') == first + [' '] + JoinOn(CapitalizeEach(tail), ' ') by {
        assert ([first] + CapitalizeEach(tail))[1..] == CapitalizeEach(tail);
      }
      assert JoinOn(CapitalizeEach(tail), ' ') == CapAfterSpace(rest) by { CapitalizePiecesIsCapAfterSpace(rest); }
      CapAfterSpaceSplit(t, k);
    }
  }

  /**
   * Reference definition of title case, one character at a time: a character
   * at the start or right after a space is upper-cased, every other is
   * lower-cased.
   */
  function TitleRef(s: string): (r: string)
    ensures |r| == |s|
  {
    seq(|s|, j requires 0 <= j < |s| =>
      if j == 0 || s[j - 1] == ' ' then UpperChar(LowerChar(s[j])) else LowerChar(s[j]))
  }

  /** Title case is the character-wise reference. */
  lemma {:induction false} TitleCaseIsRef(s: string)
    ensures TitleCase(s) == TitleRef(s)
  {
    var l := Lower(s);
    assert TitleCase(s) == CapAfterSpace(l) by { CapitalizePiecesIsCapAfterSpace(l); }
    forall j | 0 <= j < |s| ensures CapAfterSpace(l)[j] == TitleRef(s)[j] {
      TitleRefAt(s, j);
    }
    assert CapAfterSpace(l) == TitleRef(s);
  }

  /** One character of the reference: lower-casing first keeps spaces where they were. */
  lemma TitleRefAt(s: string, j: int)
    requires 0 <= j < |s|
    ensures CapAfterSpace(Lower(s))[j] == TitleRef(s)[j]
  {
    var l := Lower(s);
    assert l[j] == LowerChar(s[j]);
    if j > 0 {
      assert l[j - 1] == LowerChar(s[j - 1]);
      CaseChar(s[j - 1]);
    }
  }

  /**
   * Title case keeps the length and the position of every space, upper-cases
   * the first character of each space-separated piece and lower-cases the rest.
   */
  lemma TitleCaseShape(s: string)
    ensures |TitleCase(s)| == |s|
    ensures forall j :: 0 <= j < |s| ==> (TitleCase(s)[j] == ' ' <==> s[j] == ' ')
    ensures forall j :: 0 <= j < |s| ==>
      TitleCase(s)[j] == if j == 0 || s[j - 1] == ' ' then UpperChar(LowerChar(s[j])) else LowerChar(s[j])
  {
    TitleCaseIsRef(s);
    forall j | 0 <= j < |s| ensures TitleCase(s)[j] == ' ' <==> s[j] == ' ' {
      CaseChar(s[j]);
      CaseChar(LowerChar(s[j]));
    }
  }

  /** Applying title case twice is applying it once. */
  lemma TitleCaseIdempotent(s: string)
    ensures TitleCase(TitleCase(s)) == TitleCase(s)
  {
    var r := TitleCase(s);
    TitleCaseShape(s);
    TitleCaseShape(r);
    forall j | 0 <= j < |s| ensures TitleCase(r)[j] == r[j] {
      CaseChar(s[j]);
      CaseChar(LowerChar(s[j]));
      CaseChar(UpperChar(LowerChar(s[j])));
      if j > 0 {
        assert r[j - 1] == ' ' <==> s[j - 1] == ' ';
      }
    }
  }

  /* ---------- Sentence case ---------- */

  /**
   * How the pattern `(^\s*\w|[.!?]\s*\w)` moves between characters: after a
   * word character no match is pending, after one of `.!?` a match is pending,
   * whitespace keeps the pending state and any other character drops it.
   */
  function Step(c: char, pending: bool): bool {
    if IsWordChar(c) then false
    else if c in ".!?" then true
    else if IsSpace(c) then pending
    else false
  }

  /**
   * The global replacement scanned left to right: a word character is
   * upper-cased when it completes a match, that is when a match is pending.
   */
  function Scan(t: string, pending: bool): (r: string)
    ensures |r| == |t|
  {
    if t == [] then []
    else [if IsWordChar(t[0]) && pending then UpperChar(t[0]) else t[0]] + Scan(t[1..], Step(t[0], pending))
  }

  /** The "sentencecase" branch: lower-case, then upper-case each completed match. */
  function SentenceCase(s: string): string {
    Scan(Lower(s), true)
  }

  /** Whether a match is pending before position `j`, starting in state `p`. */
  function PendingAt(t: string, j: nat, p: bool): bool
    requires j <= |t|
  {
    if j == 0 then p else Step(t[j - 1], PendingAt(t, j - 1, p))
  }

  /**
   * The pattern's own meaning at position `j`: only whitespace precedes it
   * since the start of the text, or since one of `.!?`.
   */
  ghost predicate AtSentenceStart(t: string, j: nat)
    requires j <= |t|
  {
    AllSpace(t[..j]) || exists i :: 0 <= i < j && t[i] in ".!?" && AllSpace(t[i + 1..j])
  }

  lemma {:induction false} PendingShift(t: string, j: nat, p: bool)
    requires 1 <= j <= |t|
    ensures PendingAt(t[1..], j - 1, Step(t[0], p)) == PendingAt(t, j, p)
  {
    if j > 1 {
      PendingShift(t, j - 1, p);
      assert t[1..][j - 2] == t[j - 1];
    }
  }

  /** The scan upper-cases exactly the word characters at which a match is pending. */
  lemma {:induction false} ScanAt(t: string, p: bool)
    ensures forall j :: 0 <= j < |t| ==>
      Scan(t, p)[j] == if IsWordChar(t[j]) && PendingAt(t, j, p) then UpperChar(t[j]) else t[j]
  {
    if t != [] {
      ScanAt(t[1..], Step(t[0], p));
      forall j | 1 <= j < |t|
        ensures Scan(t, p)[j] == if IsWordChar(t[j]) && PendingAt(t, j, p) then UpperChar(t[j]) else t[j]
      {
        PendingShift(t, j, p);
        assert t[1..][j - 1] == t[j];
      }
    }
  }

  lemma AllSpaceSnoc(t: string, i: nat, j: nat)
    requires i < j <= |t|
    ensures AllSpace(t[i..j]) <==> AllSpace(t[i..j - 1]) && IsSpace(t[j - 1])
  {
    var u, v := t[i..j - 1], t[i..j];
    assert v == u + [t[j - 1]];
    assert v[|u|] == t[j - 1];
    if AllSpace(v) {
      forall m | 0 <= m < |u| ensures IsSpace(u[m]) {
        assert u[m] == v[m];
      }
    }
  }

  /** A sentence starts after one of `.!?`, or after whitespace where one started. */
  lemma SentenceStartStep(t: string, j: nat)
    requires 0 < j <= |t|
    ensures AtSentenceStart(t, j) <==> t[j - 1] in ".!?" || (IsSpace(t[j - 1]) && AtSentenceStart(t, j - 1))
  {
    var c := t[j - 1];
    assert t[..j] == t[0..j] && t[..j - 1] == t[0..j - 1];
    AllSpaceSnoc(t, 0, j);
    if AtSentenceStart(t, j) && !AllSpace(t[..j]) && c !in ".!?" {
      var i :| 0 <= i < j && t[i] in ".!?" && AllSpace(t[i + 1..j]);
      AllSpaceSnoc(t, i + 1, j);
    }
    if c in ".!?" {
      assert t[j..j] == [];
    } else if IsSpace(c) && AtSentenceStart(t, j - 1) && !AllSpace(t[..j - 1]) {
      var i :| 0 <= i < j - 1 && t[i] in ".!?" && AllSpace(t[i + 1..j - 1]);
      AllSpaceSnoc(t, i + 1, j);
    }
  }

  /** A match is pending at `j` exactly when `j` starts a sentence. */
  lemma {:induction false} PendingIsSentenceStart(t: string, j: nat)
    requires j <= |t|
    ensures PendingAt(t, j, true) <==> AtSentenceStart(t, j)
  {
    if j > 0 {
      PendingIsSentenceStart(t, j - 1);
      SentenceStartStep(t, j);
    }
  }

  /**
   * Sentence case keeps the length and lower-cases every character, except
   * that a word character preceded only by whitespace back to the start of the
   * text or back to one of `.!?` is upper-cased.
   */
  lemma SentenceCaseShape(s: string)
    ensures |SentenceCase(s)| == |s|
    ensures forall j :: 0 <= j < |s| ==>
      SentenceCase(s)[j] == if IsWordChar(s[j]) && AtSentenceStart(Lower(s), j)
        then UpperChar(LowerChar(s[j])) else LowerChar(s[j])
  {
    var t := Lower(s);
    ScanAt(t, true);
    forall j | 0 <= j < |s|
      ensures SentenceCase(s)[j] == if IsWordChar(s[j]) && AtSentenceStart(t, j)
        then UpperChar(LowerChar(s[j])) else LowerChar(s[j])
    {
      CaseChar(s[j]);
      PendingIsSentenceStart(t, j);
    }
  }

  /** Applying sentence case twice is applying it once. */
  lemma SentenceCaseIdempotent(s: string)
    ensures SentenceCase(SentenceCase(s)) == SentenceCase(s)
  {
    var t := Lower(s);
    ScanAt(t, true);
    assert Lower(SentenceCase(s)) == t by {
      forall j | 0 <= j < |s| ensures Lower(SentenceCase(s))[j] == t[j] {
        CaseChar(s[j]);
        CaseChar(t[j]);
      }
    }
  }

  /* ---------- The page ---------- */

  /**
   * `convertCase`: the new text area value. The switch has no default branch,
   * so an unrecognised case type leaves the text as it was.
   */
  function ConvertCase(caseType: string, text: string): (r: string)
    ensures caseType !in {"uppercase", "lowercase", "titlecase", "sentencecase"} ==> r == text
    ensures |r| == |text|
  {
    LowerProperties(text);
    TitleCaseShape(text);
    match caseType
    case "uppercase" => Upper(text)
    case "lowercase" => Lower(text)
    case "titlecase" => TitleCase(text)
    case "sentencecase" => SentenceCase(text)
    case _ => text
  }

  /** Every conversion is idempotent: converting the result again changes nothing. */
  lemma ConvertCaseIdempotent(caseType: string, text: string)
    ensures ConvertCase(caseType, ConvertCase(caseType, text)) == ConvertCase(caseType, text)
  {
    match caseType
    case "uppercase" => UpperProperties(text);
    case "lowercase" => LowerProperties(text);
    case "titlecase" => TitleCaseIdempotent(text);
    case "sentencecase" => SentenceCaseIdempotent(text);
    case _ =>
  }

  /** `clearText`: the new text area value. */
  function ClearText(): (text: string)
    ensures text == [] && ConvertCase("uppercase", text) == []
  {
    ""
  }
}
