/**
 * Word splitting as both word counts do it: `s.split(/\s+/)` followed by
 * `.filter(w => w.length > 0).length`, and the count it is proved against,
 * the number of maximal runs of non-whitespace characters.
 */
module Words {
  import opened Text

  /** `s` holds no whitespace. */
  predicate NoSpace(s: string) {
    forall i :: 0 <= i < |s| ==> !IsSpace(s[i])
  }

  /** First whitespace position in `s`, or -1. */
  function FirstSpace(s: string): (k: int)
    ensures -1 <= k < |s|
    ensures k >= 0 ==> IsSpace(s[k]) && NoSpace(s[..k])
    ensures k < 0 ==> NoSpace(s)
  {
    if s == [] then -1
    else if IsSpace(s[0]) then 0
    else
      var k := FirstSpace(s[1..]);
      assert k >= 0 ==> s[..k + 1] == [s[0]] + s[1..][..k];
      if k < 0 then -1 else k + 1
  }

  /** `s.split(/\s+/)`: the pieces between maximal whitespace runs. */
  function SplitWhitespace(s: string): (parts: seq<string>)
    ensures |parts| >= 1
    decreases |s|
  {
    var k := FirstSpace(s);
    if k < 0 then [s] else [s[..k]] + SplitWhitespace(TrimStart(s[k..]))
  }

  /** `parts.filter(w => w.length > 0).length`. */
  function CountNonEmpty(parts: seq<string>): nat {
    if parts == [] then 0 else (if parts[0] != [] then 1 else 0) + CountNonEmpty(parts[1..])
  }

  /** Number of maximal non-whitespace runs, each counted at its last character. */
  function Runs(s: string): nat {
    if s == [] then 0
    else Runs(s[1..]) + (if !IsSpace(s[0]) && (|s| == 1 || IsSpace(s[1])) then 1 else 0)
  }

  /** Number of non-whitespace characters. */
  function NonSpaceCount(s: string): nat {
    if s == [] then 0 else (if IsSpace(s[0]) then 0 else 1) + NonSpaceCount(s[1..])
  }

  lemma {:induction false} RunsWithoutSpace(s: string)
    requires NoSpace(s)
    ensures Runs(s) == if s == [] then 0 else 1
  {
    if |s| > 1 {
      RunsWithoutSpace(s[1..]);
    }
  }

  lemma {:induction false} RunsLeadingSpace(p: string, t: string)
    requires AllSpace(p)
    ensures Runs(p + t) == Runs(t)
  {
    if p == [] {
      assert p + t == t;
    } else {
      assert (p + t)[1..] == p[1..] + t;
      RunsLeadingSpace(p[1..], t);
    }
  }

  lemma {:induction false} RunsTrailingSpace(t: string, q: string)
    requires AllSpace(q)
    ensures Runs(t + q) == Runs(t)
  {
    if t == [] {
      assert t + q == q;
      RunsLeadingSpace(q, []);
      assert q + [] == q;
    } else {
      assert (t + q)[1..] == t[1..] + q;
      RunsTrailingSpace(t[1..], q);
      if |t| > 1 {
        assert (t + q)[1] == t[1];
      }
    }
  }

  lemma {:induction false} RunsWordThenSpace(a: string, b: string)
    requires NoSpace(a)
    requires b != [] && IsSpace(b[0])
    ensures Runs(a + b) == (if a == [] then 0 else 1) + Runs(b)
  {
    if a == [] {
      assert a + b == b;
    } else {
      assert (a + b)[1..] == a[1..] + b;
      RunsWordThenSpace(a[1..], b);
    }
  }

  /** One step of the split: the piece before the first whitespace run, then the rest. */
  lemma SplitWhitespaceStep(s: string, k: int)
    requires k == FirstSpace(s) >= 0
    ensures CountNonEmpty(SplitWhitespace(s))
      == (if k == 0 then 0 else 1) + CountNonEmpty(SplitWhitespace(TrimStart(s[k..])))
  {
    var parts := SplitWhitespace(s);
    assert parts[1..] == SplitWhitespace(TrimStart(s[k..]));
  }

  /** The same step on runs: the piece before the first whitespace is one run, if any. */
  lemma RunsStep(s: string, k: int)
    requires k == FirstSpace(s) >= 0
    ensures Runs(s) == (if k == 0 then 0 else 1) + Runs(TrimStart(s[k..]))
  {
    var a, b := s[..k], s[k..];
    assert s == a + b;
    RunsWordThenSpace(a, b);
    var p := TrimStartSplit(b);
    RunsLeadingSpace(p, TrimStart(b));
  }

  /** Splitting on whitespace runs and dropping empty pieces counts the runs. */
  lemma {:induction false} SplitWhitespaceCountsRuns(s: string)
    ensures CountNonEmpty(SplitWhitespace(s)) == Runs(s)
    decreases |s|
  {
    var k := FirstSpace(s);
    if k < 0 {
      RunsWithoutSpace(s);
      assert [s][1..] == [];
    } else {
      SplitWhitespaceCountsRuns(TrimStart(s[k..]));
      SplitWhitespaceStep(s, k);
      RunsStep(s, k);
    }
  }

  /** Whitespace around a text adds no run. */
  lemma RunsPadding(p: string, s: string, q: string)
    requires AllSpace(p) && AllSpace(q)
    ensures Runs(p + s + q) == Runs(s)
  {
    assert p + s + q == p + (s + q);
    RunsLeadingSpace(p, s + q);
    RunsTrailingSpace(s, q);
  }

  /** Trimming adds or removes no run. */
  lemma RunsOfTrim(s: string)
    ensures Runs(Trim(s)) == Runs(s)
  {
    var p, q := TrimSplit(s);
    RunsPadding(p, Trim(s), q);
  }

  /** Every run holds at least one non-whitespace character. */
  lemma {:induction false} RunsAtMostNonSpace(s: string)
    ensures Runs(s) <= NonSpaceCount(s)
  {
    if s != [] {
      RunsAtMostNonSpace(s[1..]);
    }
  }

  /** There is no run exactly when the text is whitespace only. */
  lemma {:induction false} RunsZeroIff(s: string)
    ensures Runs(s) == 0 <==> AllSpace(s)
  {
    if s != [] {
      RunsZeroIff(s[1..]);
      if AllSpace(s[1..]) && IsSpace(s[0]) {
        assert AllSpace(s) by {
          forall i | 0 <= i < |s| ensures IsSpace(s[i]) {
            if i > 0 { assert s[i] == s[1..][i - 1]; }
          }
        }
      }
      if AllSpace(s) {
        assert AllSpace(s[1..]) by {
          forall i | 0 <= i < |s| - 1 ensures IsSpace(s[1..][i]) {
            assert s[1..][i] == s[i + 1];
          }
        }
      }
    }
  }
}
