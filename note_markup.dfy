/**
 * The text transforms of the note taker: HTML escaping of what the note
 * list shows, and the two edits the toolbar makes to the content text
 * (wrapping the selection in markup, inserting a bullet list).
 */
module NoteMarkup {

  /** `s.replace(/c/g, rep)` for a single character `c`. */
  function ReplaceAll(s: string, c: char, rep: string): string {
    if s == [] then [] else (if s[0] == c then rep else [s[0]]) + ReplaceAll(s[1..], c, rep)
  }

  /** `escapeHtml`: five global replacements, `&` first. */
  function EscapeHtml(s: string): string {
    ReplaceAll(ReplaceAll(ReplaceAll(ReplaceAll(ReplaceAll(
      s, '&', "&amp;"), '<', "&lt;"), '>', "&gt;"), '"', "&quot;"), '\'', "&#039;")
  }

  /** What one character becomes in escaped text. */
  function EscapeChar(c: char): string {
    match c
    case '&' => "&amp;"
    case '<' => "&lt;"
    case '>' => "&gt;"
    case '"' => "&quot;"
    case '\'' => "&#039;"
    case _ => [c]
  }

  /** Escaping character by character: the reference the replacement chain is proved against. */
  function EscapeEach(s: string): string {
    if s == [] then [] else EscapeChar(s[0]) + EscapeEach(s[1..])
  }

  /** Decoding of the five entities `escapeHtml` produces. */
  function UnescapeHtml(s: string): string
    decreases |s|
  {
    if s == [] then []
    else if "&amp;" <= s then "&" + UnescapeHtml(s[5..])
    else if "&lt;" <= s then "<" + UnescapeHtml(s[4..])
    else if "&gt;" <= s then ">" + UnescapeHtml(s[4..])
    else if "&quot;" <= s then "\"" + UnescapeHtml(s[6..])
    else if "&#039;" <= s then "'" + UnescapeHtml(s[6..])
    else [s[0]] + UnescapeHtml(s[1..])
  }

  predicate IsHtmlSpecial(c: char) {
    c == '<' || c == '>' || c == '"' || c == '\''
  }

  lemma {:induction false} ReplaceAllAppend(a: string, b: string, c: char, rep: string)
    ensures ReplaceAll(a + b, c, rep) == ReplaceAll(a, c, rep) + ReplaceAll(b, c, rep)
  {
    if a == [] {
      assert a + b == b;
    } else {
      assert (a + b)[1..] == a[1..] + b;
      ReplaceAllAppend(a[1..], b, c, rep);
    }
  }

  lemma {:induction false} ReplaceAllAbsent(s: string, c: char, rep: string)
    requires c !in s
    ensures ReplaceAll(s, c, rep) == s
  {
    if s != [] {
      ReplaceAllAbsent(s[1..], c, rep);
    }
  }

  lemma EscapeHtmlAppend(a: string, b: string)
    ensures EscapeHtml(a + b) == EscapeHtml(a) + EscapeHtml(b)
  {
    var a1, b1 := ReplaceAll(a, '&', "&amp;"), ReplaceAll(b, '&', "&amp;");
    ReplaceAllAppend(a, b, '&', "&amp;");
    var a2, b2 := ReplaceAll(a1, '<', "&lt;"), ReplaceAll(b1, '<', "&lt;");
    ReplaceAllAppend(a1, b1, '<', "&lt;");
    var a3, b3 := ReplaceAll(a2, '>', "&gt;"), ReplaceAll(b2, '>', "&gt;");
    ReplaceAllAppend(a2, b2, '>', "&gt;");
    var a4, b4 := ReplaceAll(a3, '"', "&quot;"), ReplaceAll(b3, '"', "&quot;");
    ReplaceAllAppend(a3, b3, '"', "&quot;");
    ReplaceAllAppend(a4, b4, '\'', "&#039;");
  }

  lemma ReplaceAllOne(c: char, target: char, rep: string)
    ensures ReplaceAll([c], target, rep) == if c == target then rep else [c]
  {
    assert [c][1..] == [];
  }

  /** The steps of the chain after the one that produced entity `e` leave it alone. */
  lemma EntityKept(e: string, c: char, rep: string)
    requires e in {"&amp;", "&lt;", "&gt;", "&quot;", "&#039;"}
    requires c in "<>\"'" && c != e[1] && !(e == "&#039;" && c == '\'')
    ensures ReplaceAll(e, c, rep) == e
  {
    assert c !in e;
    ReplaceAllAbsent(e, c, rep);
  }

  lemma EscapeHtmlChar(c: char)
    ensures EscapeHtml([c]) == EscapeChar(c)
  {
    var e := EscapeChar(c);
    ReplaceAllOne(c, '&', "&amp;");
    ReplaceAllOne(c, '<', "&lt;");
    ReplaceAllOne(c, '>', "&gt;");
    ReplaceAllOne(c, '"', "&quot;");
    ReplaceAllOne(c, '\'', "&#039;");
    if c == '&' {
      EntityKept(e, '<', "&lt;");
    }
    if c in "&<" {
      EntityKept(e, '>', "&gt;");
    }
    if c in "&<>" {
      EntityKept(e, '"', "&quot;");
    }
    if c in "&<>\"" {
      EntityKept(e, '\'', "&#039;");
    }
    var s1 := ReplaceAll([c], '&', "&amp;");
    assert s1 == if c == '&' then e else [c];
    var s2 := ReplaceAll(s1, '<', "&lt;");
    assert s2 == if c in "&<" then e else [c];
    var s3 := ReplaceAll(s2, '>', "&gt;");
    assert s3 == if c in "&<>" then e else [c];
    var s4 := ReplaceAll(s3, '"', "&quot;");
    assert s4 == if c in "&<>\"" then e else [c];
  }

  /**
   * Replacing `&` before the other four makes the chain a one-pass
   * character map: no entity produced by one step is rewritten by a later one.
   */
  lemma {:induction false} EscapeHtmlIsEscapeEach(s: string)
    ensures EscapeHtml(s) == EscapeEach(s)
  {
    if s != [] {
      assert s == [s[0]] + s[1..];
      EscapeHtmlAppend([s[0]], s[1..]);
      EscapeHtmlChar(s[0]);
      EscapeHtmlIsEscapeEach(s[1..]);
    } else {
      assert EscapeHtml(s) == [];
    }
  }

  lemma {:induction false} EscapeEachNoSpecials(s: string)
    ensures forall i :: 0 <= i < |EscapeEach(s)| ==> !IsHtmlSpecial(EscapeEach(s)[i])
  {
    if s != [] {
      EscapeEachNoSpecials(s[1..]);
      var head, tail := EscapeChar(s[0]), EscapeEach(s[1..]);
      assert EscapeEach(s) == head + tail;
      forall i | 0 <= i < |head + tail| ensures !IsHtmlSpecial((head + tail)[i]) {
        if i >= |head| { assert (head + tail)[i] == tail[i - |head|]; }
      }
    }
  }

  /** Escaped text holds none of `<`, `>`, `"` and `'`. */
  lemma EscapeHtmlNoSpecials(s: string)
    ensures forall i :: 0 <= i < |EscapeHtml(s)| ==> !IsHtmlSpecial(EscapeHtml(s)[i])
  {
    EscapeHtmlIsEscapeEach(s);
    EscapeEachNoSpecials(s);
  }

  lemma {:induction false} UnescapeEscapeChar(c: char, rest: string)
    ensures UnescapeHtml(EscapeChar(c) + rest) == [c] + UnescapeHtml(rest)
  {
    var s := EscapeChar(c) + rest;
    assert s[|EscapeChar(c)|..] == rest;
    if c == '&' {
      assert "&amp;" <= s;
    } else if c == '<' {
      assert s[1] == 'l';
      assert "&lt;" <= s;
    } else if c == '>' {
      assert s[1] == 'g';
      assert "&gt;" <= s;
    } else if c == '"' {
      assert s[1] == 'q';
      assert "&quot;" <= s;
    } else if c == '\'' {
      assert s[1] == '#';
      assert "&#039;" <= s;
    } else {
      assert s[0] == c;
      assert s[1..] == rest;
    }
  }

  lemma {:induction false} UnescapeEscapeEach(s: string, rest: string)
    ensures UnescapeHtml(EscapeEach(s) + rest) == s + UnescapeHtml(rest)
  {
    if s == [] {
      assert EscapeEach(s) + rest == rest;
    } else {
      var tail := EscapeEach(s[1..]) + rest;
      calc {
        UnescapeHtml(EscapeEach(s) + rest);
        { assert EscapeEach(s) + rest == EscapeChar(s[0]) + tail; }
        UnescapeHtml(EscapeChar(s[0]) + tail);
        { UnescapeEscapeChar(s[0], tail); }
        [s[0]] + UnescapeHtml(tail);
        { UnescapeEscapeEach(s[1..], rest); }
        [s[0]] + (s[1..] + UnescapeHtml(rest));
        { assert s == [s[0]] + s[1..]; }
        s + UnescapeHtml(rest);
      }
    }
  }

  /** Escaping loses nothing: the escaped text decodes back to the original. */
  lemma EscapeHtmlRoundTrip(s: string)
    ensures UnescapeHtml(EscapeHtml(s)) == s
  {
    EscapeHtmlIsEscapeEach(s);
    UnescapeEscapeEach(s, []);
    assert EscapeEach(s) + [] == EscapeEach(s);
  }

  /** Decoding stops at the end of escaped text: whatever follows it decodes on its own. */
  lemma EscapeHtmlThenDecode(s: string, rest: string)
    ensures UnescapeHtml(EscapeHtml(s) + rest) == s + UnescapeHtml(rest)
  {
    EscapeHtmlIsEscapeEach(s);
    UnescapeEscapeEach(s, rest);
  }

  /** The markers `formatText` wraps around the selection for a toolbar command. */
  function Marker(command: string): string {
    if command == "bold" then "**"
    else if command == "italic" then "*"
    else if command == "underline" then "_"
    else ""
  }

  datatype FormatResult =
    | NothingSelected
    | Formatted(value: string, selectionStart: nat, selectionEnd: nat)

  /**
   * `formatText(command)` on the content text `value` with the selection
   * `[start, end)`: an empty selection only raises a warning; otherwise the
   * selection is replaced by itself wrapped in the command's markers and the
   * wrapped text becomes the new selection.
   */
  function FormatSelection(value: string, start: nat, end: nat, command: string): (r: FormatResult)
    requires start <= end <= |value|
    ensures r.NothingSelected? <==> start == end
    ensures r.Formatted? ==>
      var m := Marker(command);
      && r.selectionStart == start
      && r.selectionEnd == start + |m| + (end - start) + |m|
      && r.selectionEnd <= |r.value|
      && r.value[..start] == value[..start]
      && r.value[r.selectionStart..r.selectionEnd] == m + value[start..end] + m
      && r.value[r.selectionEnd..] == value[end..]
  {
    var selected := value[start..end];
    if selected == [] then NothingSelected
    else
      var m := Marker(command);
      var formatted := m + selected + m;
      var v := value[..start] + formatted + value[end..];
      assert v[start..start + |formatted|] == formatted;
      assert v[start + |formatted|..] == value[end..];
      Formatted(v, start, start + |formatted|)
  }

  /** The middle part of a three-part concatenation, sliced back out. */
  lemma MiddleOf<T>(a: seq<T>, b: seq<T>, c: seq<T>)
    ensures (a + b + c)[|a|..|a| + |b|] == b
  {
  }

  /** Stripping the markers off the new selection gives back the text before the edit. */
  lemma {:induction false} FormatSelectionUndo(value: string, start: nat, end: nat, command: string)
    requires start <= end <= |value|
    ensures var r := FormatSelection(value, start, end, command);
      var m := |Marker(command)|;
      r.Formatted? ==>
        value == r.value[..start] + r.value[start + m..r.selectionEnd - m] + r.value[r.selectionEnd..]
  {
    var r := FormatSelection(value, start, end, command);
    if r.Formatted? {
      var m := Marker(command);
      var sel := value[start..end];
      var pre, post := value[..start], value[end..];
      assert r.value == (pre + m) + sel + (m + post) by {
        assert r.value == r.value[..start] + r.value[start..r.selectionEnd] + r.value[r.selectionEnd..];
      }
      assert r.value[start + |m|..r.selectionEnd - |m|] == sel by { MiddleOf(pre + m, sel, m + post); }
      assert value == pre + sel + post;
    }
  }

  /** The three bullet lines `insertList` inserts. */
  const ListItems: string := "\n• Item 1\n• Item 2\n• Item 3\n"

  datatype Insertion = Insertion(value: string, selectionStart: nat, selectionEnd: nat)

  /**
   * `insertList` as written: inserts the list at the cursor and selects
   * `[cursor + 9, cursor + 10)`, which is the line break after "Item 1"
   * rather than the "1" the code's comment names.
   */
  function InsertListAsWritten(value: string, cursor: nat): (r: Insertion)
    requires cursor <= |value|
    ensures r.value == value[..cursor] + ListItems + value[cursor..]
    ensures cursor <= r.selectionStart < r.selectionEnd <= |r.value|
    ensures r.value[cursor..r.selectionStart] == "\n• Item 1"
    ensures r.value[r.selectionStart..r.selectionEnd] == "\n"
  {
    var v := value[..cursor] + ListItems + value[cursor..];
    assert v[cursor..cursor + 9] == ListItems[..9];
    assert v[cursor + 9..cursor + 10] == ListItems[9..10];
    Insertion(v, cursor + 9, cursor + 10)
  }

  /**
   * `insertList` as intended: the same insertion, with the "1" of the first
   * item selected so that typing replaces it.
   */
  function InsertList(value: string, cursor: nat): (r: Insertion)
    requires cursor <= |value|
    ensures |r.value| == |value| + |ListItems|
    ensures r.value[..cursor] == value[..cursor]
    ensures r.value[cursor..cursor + |ListItems|] == ListItems
    ensures cursor <= r.selectionStart < r.selectionEnd <= cursor + |ListItems|
    ensures r.value[cursor + |ListItems|..] == value[cursor..]
    ensures r.value[cursor..r.selectionEnd] == "\n• Item 1"
    ensures r.value[r.selectionStart..r.selectionEnd] == "1"
  {
    var v := value[..cursor] + ListItems + value[cursor..];
    assert v[cursor..cursor + |ListItems|] == ListItems;
    assert v[cursor..cursor + 9] == ListItems[..9];
    assert v[cursor + 8..cursor + 9] == ListItems[8..9];
    Insertion(v, cursor + 8, cursor + 9)
  }
}
