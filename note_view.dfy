/**
 * The pure rules of the note taker: which notes a search keeps, what a card
 * in the note list shows, the note count and editor statistics lines, the
 * values a save stores, and how an entry of an imported file becomes a note.
 */
module NoteView {
  import opened Wrappers
  import opened Text
  import opened Decimal
  import opened Words
  import opened NoteMarkup

  /* ---------- Search ---------- */

  /** `s.includes(t)`. */
  function Includes(s: string, t: string): bool
    decreases |s|
  {
    if |t| > |s| then false else s[..|t|] == t || (s != [] && Includes(s[1..], t))
  }

  /** `t` sits in `s` at position `k`. */
  ghost predicate OccursAt(s: string, t: string, k: int) {
    0 <= k <= |s| - |t| && s[k..k + |t|] == t
  }

  /** `t` occurs in `s` exactly when some slice of `s` equals it. */
  lemma {:induction false} IncludesIff(s: string, t: string)
    ensures Includes(s, t) <==> exists k :: OccursAt(s, t, k)
    decreases |s|
  {
    if |t| <= |s| && s != [] {
      IncludesIff(s[1..], t);
      if Includes(s[1..], t) && s[..|t|] != t {
        var k :| OccursAt(s[1..], t, k);
        assert s[k + 1..k + 1 + |t|] == s[1..][k..k + |t|];
        assert OccursAt(s, t, k + 1);
      }
      if s[..|t|] == t {
        assert OccursAt(s, t, 0);
      }
      if s[..|t|] != t && exists k :: OccursAt(s, t, k) {
        var k :| OccursAt(s, t, k);
        assert k > 0;
        assert s[1..][k - 1..k - 1 + |t|] == s[k..k + |t|];
        assert OccursAt(s[1..], t, k - 1);
      }
    } else if |t| <= |s| {
      assert OccursAt(s, t, 0);
    }
  }

  /** A one-character term is included exactly when that character occurs. */
  lemma {:induction false} IncludesChar(s: string, c: char)
    ensures Includes(s, [c]) <==> c in s
  {
    if s != [] {
      IncludesChar(s[1..], c);
      assert s[..1] == [s[0]];
      assert s == [s[0]] + s[1..];
    }
  }

  /**
   * The term `filterNotes` searches for: the search box lower-cased, then
   * trimmed. It is empty, so that every note passes the search, exactly when
   * the box holds only whitespace.
   */
  function SearchTerm(raw: string): (t: string)
    ensures t == [] <==> AllSpace(raw)
  {
    TrimEmptyIff(Lower(raw));
    assert AllSpace(Lower(raw)) <==> AllSpace(raw) by {
      forall i | 0 <= i < |raw| ensures IsSpace(Lower(raw)[i]) == IsSpace(raw[i]) {
        CaseChar(raw[i]);
      }
    }
    Trim(Lower(raw))
  }

  /**
   * The search half of the filter: a note passes when there is no term, or
   * when the term occurs somewhere in its lower-cased title, content or
   * category.
   */
  function MatchesSearch(title: string, content: string, category: string, term: string): (r: bool)
    ensures r <==> (term == [] || (exists k :: OccursAt(Lower(title), term, k))
      || (exists k :: OccursAt(Lower(content), term, k)) || (exists k :: OccursAt(Lower(category), term, k)))
  {
    IncludesIff(Lower(title), term);
    IncludesIff(Lower(content), term);
    IncludesIff(Lower(category), term);
    term == [] || Includes(Lower(title), term) || Includes(Lower(content), term) || Includes(Lower(category), term)
  }

  /**
   * The category half of the filter: with no category chosen every note
   * passes; with one chosen, only the notes of exactly that category, case
   * included.
   */
  function MatchesCategory(category: string, filter: string): (r: bool)
    ensures filter == [] ==> r
    ensures filter != [] ==> (r <==> category == filter)
  {
    filter == [] || category == filter
  }

  lemma LowerUpperLower(s: string)
    ensures Lower(Upper(s)) == Lower(s)
  {
    forall i | 0 <= i < |s| ensures Lower(Upper(s))[i] == Lower(s)[i] {
      CaseChar(s[i]);
    }
  }

  /** The search ignores case, both in what is typed and in the notes. */
  lemma SearchIgnoresCase(raw: string, title: string, content: string, category: string)
    ensures SearchTerm(Upper(raw)) == SearchTerm(raw)
    ensures MatchesSearch(Upper(title), Upper(content), Upper(category), SearchTerm(raw))
        == MatchesSearch(title, content, category, SearchTerm(raw))
  {
    LowerUpperLower(raw);
    LowerUpperLower(title);
    LowerUpperLower(content);
    LowerUpperLower(category);
  }

  /**
   * Whether the list shows the filtered notes: a raw (untrimmed) search or
   * category value is present. Without one, every note passes both halves of
   * the filter; a search box holding only spaces still counts as a filter,
   * although it searches for nothing.
   */
  function HasFilters(rawSearch: string, rawCategory: string): (r: bool)
    ensures !r ==> SearchTerm(rawSearch) == [] && forall c :: MatchesCategory(c, rawCategory)
    ensures rawSearch != [] && AllSpace(rawSearch) ==> r && SearchTerm(rawSearch) == []
  {
    rawSearch != [] || rawCategory != []
  }

  /* ---------- The note list ---------- */

  /** `.replace(/\n/g, " ")`. */
  function Flatten(s: string): (r: string)
    ensures |r| == |s| && '\n' !in r
  {
    seq(|s|, i requires 0 <= i < |s| => if s[i] == '\n' then ' ' else s[i])
  }

  /** The number of content characters a card previews. */
  const PreviewLength := 120

  /**
   * The preview line of a card, before escaping: "No content" for empty
   * content, otherwise its first 120 characters (all of a shorter one) with
   * each line break turned into a space.
   */
  function PreviewText(content: string): (r: string)
    ensures content == [] ==> r == "No content"
    ensures content != [] ==> |r| == (if |content| < PreviewLength then |content| else PreviewLength)
    ensures content != [] ==> forall i :: 0 <= i < |r| ==> r[i] == (if content[i] == '\n' then ' ' else content[i])
    ensures '\n' !in r
  {
    var cut := if |content| < PreviewLength then content else content[..PreviewLength];
    var flat := Flatten(cut);
    if flat == [] then "No content" else flat
  }

  /** What one card of the note list shows, as text. */
  datatype Card = Card(id: nat, active: bool, title: string, preview: string, category: string)

  /**
   * The card of one note: escaped title (or "Untitled Note"), escaped preview
   * with "..." when the content was cut, escaped category, and whether it is
   * the note being edited.
   */
  function CardOf(id: nat, title: string, content: string, category: string, current: Option<nat>): (c: Card)
    ensures c.id == id && (c.active <==> current == Some(id))
    ensures forall i :: 0 <= i < |c.title| ==> !IsHtmlSpecial(c.title[i])
    ensures forall i :: 0 <= i < |c.preview| ==> !IsHtmlSpecial(c.preview[i])
    ensures forall i :: 0 <= i < |c.category| ==> !IsHtmlSpecial(c.category[i])
    ensures UnescapeHtml(c.title) == (if title == [] then "Untitled Note" else title)
    ensures UnescapeHtml(c.category) == category
    ensures UnescapeHtml(c.preview) == PreviewText(content) + (if |content| > PreviewLength then "..." else "")
  {
    var t := if title == [] then "Untitled Note" else title;
    EscapedIsSafe(t);
    EscapedIsSafe(category);
    Card(id, current == Some(id), EscapeHtml(t), CardPreview(content), EscapeHtml(category))
  }

  /**
   * The escaped preview, followed by "..." when the content was cut. It holds
   * no HTML special character and decodes to the preview and its ellipsis.
   */
  function CardPreview(content: string): (p: string)
    ensures forall i :: 0 <= i < |p| ==> !IsHtmlSpecial(p[i])
    ensures UnescapeHtml(p) == PreviewText(content) + (if |content| > PreviewLength then "..." else "")
  {
    var e := EscapeHtml(PreviewText(content));
    var dots := if |content| > PreviewLength then "..." else "";
    EscapeHtmlNoSpecials(PreviewText(content));
    assert forall i :: 0 <= i < |e + dots| ==> !IsHtmlSpecial((e + dots)[i]) by {
      forall i | 0 <= i < |e + dots| ensures !IsHtmlSpecial((e + dots)[i]) {
        if i >= |e| { assert (e + dots)[i] == dots[i - |e|]; }
      }
    }
    EscapeHtmlThenDecode(PreviewText(content), dots);
    assert UnescapeHtml(dots) == dots by {
      assert UnescapeHtml("") == "";
      assert UnescapeHtml(".") == "." by { assert "."[1..] == ""; }
      assert UnescapeHtml("..") == ".." by { assert ".."[1..] == "."; }
      assert UnescapeHtml("...") == "..." by { assert "..."[1..] == ".."; }
    }
    e + dots
  }

  lemma EscapedIsSafe(s: string)
    ensures forall i :: 0 <= i < |EscapeHtml(s)| ==> !IsHtmlSpecial(EscapeHtml(s)[i])
    ensures UnescapeHtml(EscapeHtml(s)) == s
  {
    EscapeHtmlNoSpecials(s);
    EscapeHtmlRoundTrip(s);
  }

  const NoMatchMessage := "No notes match your search criteria."
  const NoNotesMessage := "No notes yet. Click \"New Note\" to create your first note."

  /** The empty-state line of the note list. */
  function EmptyMessage(hasFilters: bool): (m: string)
    ensures m == (if hasFilters then NoMatchMessage else NoNotesMessage)
    ensures m != NoMatchMessage <==> !hasFilters
  {
    if hasFilters then NoMatchMessage else NoNotesMessage
  }

  /* ---------- The note count ---------- */

  const NotesSuffix := " notes)"
  const OfSeparator := " of "

  /**
   * `updateNoteCount(filtered, total)`: "(n notes)" or "(k of n notes)". The
   * line states both numbers exactly: reading it back gives them.
   */
  function NoteCountText(shown: nat, total: nat): (r: string)
    ensures ParseNoteCount(r) == Some((shown, total))
  {
    DigitsRoundTrip(shown);
    DigitsRoundTrip(total);
    var d1, d2 := NatToString(shown), NatToString(total);
    if shown == total then
      ConcatAssoc("(", d2, NotesSuffix);
      ParseNoteCountStep(d2, NotesSuffix);
      "(" + d2 + NotesSuffix
    else
      var tail := OfSeparator + d2 + NotesSuffix;
      ConcatAssoc("(" + d1, OfSeparator, d2);
      ConcatAssoc("(" + d1, OfSeparator + d2, NotesSuffix);
      ConcatAssoc("(", d1, tail);
      ParseNoteCountStep(d1, tail);
      ParseCountTailTotal(shown, d2);
      "(" + d1 + OfSeparator + d2 + NotesSuffix
  }

  /** Reads the two numbers back from a note count line. */
  function ParseNoteCount(s: string): Option<(nat, nat)> {
    if s == [] || s[0] != '(' then None
    else
      var d := LeadingDigits(s[1..]);
      if d == [] then None else ParseCountTail(DigitsToNat(d), s[1 + |d|..])
  }

  /** What follows the first number: the suffix alone, or " of ", the total and the suffix. */
  function ParseCountTail(shown: nat, tail: string): Option<(nat, nat)> {
    if tail == NotesSuffix then Some((shown, shown))
    else if |tail| < |OfSeparator| || tail[..|OfSeparator|] != OfSeparator then None
    else
      var rest := tail[|OfSeparator|..];
      var d := LeadingDigits(rest);
      if d != [] && rest[|d|..] == NotesSuffix then Some((shown, DigitsToNat(d))) else None
  }

  lemma ParseNoteCountStep(d: string, tail: string)
    requires |d| >= 1 && AllDigits(d)
    requires tail == [] || !IsDigit(tail[0])
    ensures ParseNoteCount(['('] + (d + tail)) == ParseCountTail(DigitsToNat(d), tail)
  {
    var u := d + tail;
    var s := ['('] + u;
    assert s[1..] == u;
    LeadingDigitsOf(d, tail);
    assert u[|d|..] == tail;
  }

  lemma {:induction false} ParseCountTailTotal(shown: nat, d: string)
    requires |d| >= 1 && AllDigits(d)
    ensures ParseCountTail(shown, OfSeparator + d + NotesSuffix) == Some((shown, DigitsToNat(d)))
  {
    var tail := OfSeparator + d + NotesSuffix;
    assert tail != NotesSuffix by { assert tail[1] == 'o' != NotesSuffix[1]; }
    assert tail[..|OfSeparator|] == OfSeparator;
    var rest := tail[|OfSeparator|..];
    assert rest == d + NotesSuffix;
    LeadingDigitsOf(d, NotesSuffix);
    assert rest[|d|..] == NotesSuffix;
  }

  lemma ConcatAssoc(a: string, b: string, c: string)
    ensures a + b + c == a + (b + c)
  {
  }

  /* ---------- Editor statistics ---------- */

  datatype Stats = Stats(words: nat, characters: nat, lines: nat)

  /**
   * The three numbers of `updateWordCount` for the content text: words are
   * the maximal non-whitespace runs, characters the string's length, and
   * lines one more than the line breaks.
   */
  function ContentStats(content: string): (s: Stats)
    ensures s.words == Runs(content)
    ensures s.characters == |content|
    ensures s.lines == Occurrences(content, '\n') + 1
  {
    RunsOfTrim(content);
    SplitWhitespaceCountsRuns(Trim(content));
    SplitOnCount(content, '\n');
    Stats(CountNonEmpty(SplitWhitespace(Trim(content))), |content|, |SplitOn(content, '\n')|)
  }

  const WordsLabel := " words • "
  const CharactersLabel := " characters • "
  const LinesLabel := " lines"

  /**
   * The statistics line under the editor: words, characters and lines, each
   * in decimal with its label. Reading the line back gives all three numbers.
   */
  function StatsText(s: Stats): (t: string)
    ensures LeadingDigits(t) == NatToString(s.words) && DigitsToNat(LeadingDigits(t)) == s.words
    ensures ParseStatsText(t) == Some(s)
  {
    var d1, d2, d3 := NatToString(s.words), NatToString(s.characters), NatToString(s.lines);
    var tail3 := d3 + LinesLabel;
    var tail2 := d2 + CharactersLabel + tail3;
    ReadNumberOf(s.words, WordsLabel, tail2);
    ReadNumberOf(s.characters, CharactersLabel, tail3);
    ReadNumberOf(s.lines, LinesLabel, []);
    assert d3 + LinesLabel + [] == tail3;
    LeadingDigitsOf(d1, WordsLabel + tail2);
    ConcatAssoc(d1, WordsLabel, tail2);
    DigitsRoundTrip(s.words);
    d1 + WordsLabel + tail2
  }

  /** Reads the three numbers back from a statistics line. */
  function ParseStatsText(t: string): Option<Stats> {
    match ReadNumber(t, WordsLabel)
    case None => None
    case Some((words, r1)) =>
      match ReadNumber(r1, CharactersLabel)
      case None => None
      case Some((characters, r2)) =>
        match ReadNumber(r2, LinesLabel)
        case None => None
        case Some((lines, r3)) => if r3 == [] then Some(Stats(words, characters, lines)) else None
  }

  /** A leading decimal number followed by `tag`: the number and what follows the tag. */
  function ReadNumber(s: string, tag: string): Option<(nat, string)> {
    var d := LeadingDigits(s);
    if d == [] then None
    else
      var rest := s[|d|..];
      if tag <= rest then Some((DigitsToNat(d), rest[|tag|..])) else None
  }

  lemma {:induction false} ReadNumberOf(n: nat, tag: string, tail: string)
    requires tag != [] && !IsDigit(tag[0])
    ensures ReadNumber(NatToString(n) + tag + tail, tag) == Some((n, tail))
  {
    var d := NatToString(n);
    var s := d + tag + tail;
    assert s == d + (tag + tail);
    LeadingDigitsOf(d, tag + tail);
    assert s[|d|..] == tag + tail;
    assert (tag + tail)[|tag|..] == tail;
    DigitsRoundTrip(n);
  }

  /* ---------- Saving ---------- */

  /** The title a save stores: the trimmed title, or "Untitled Note" if that is empty. */
  function SavedTitle(raw: string): (r: string)
    ensures r != []
    ensures AllSpace(raw) ==> r == "Untitled Note"
    ensures !AllSpace(raw) ==> r == Trim(raw)
  {
    TrimEmptyIff(raw);
    if Trim(raw) == [] then "Untitled Note" else Trim(raw)
  }

  /** A stored title is stored again unchanged: it has no surrounding whitespace. */
  lemma SavedTitleIdempotent(raw: string)
    ensures SavedTitle(SavedTitle(raw)) == SavedTitle(raw)
    ensures Trim(SavedTitle(raw)) == SavedTitle(raw)
  {
    TrimIdempotent(raw);
    TrimEmptyIff(raw);
    var u := "Untitled Note";
    assert u[0] != ' ' && !IsSpace(u[0]) && !IsSpace(u[|u| - 1]);
    TrimStartOfTrimmed(u);
    TrimEndOfTrimmed(u);
    TrimEmptyIff(SavedTitle(raw));
  }

  /** The category a save stores: the selected one, or "General" if none. */
  function SavedCategory(raw: string): (r: string)
    ensures r != []
    ensures raw != [] ==> r == raw
  {
    if raw == [] then "General" else raw
  }

  /* ---------- Import ---------- */

  /**
   * One element of the imported `notes` array, after JSON parsing. `title` is
   * `None` when the element is null or its title is not a string; the other
   * fields are `None` when absent.
   */
  datatype ImportEntry = ImportEntry(
    title: Option<string>,
    content: Option<string>,
    category: Option<string>,
    createdAt: Option<string>,
    updatedAt: Option<string>)

  /** The parsed file; `notes` is `None` when the property is missing or not an array. */
  datatype ImportDoc = ImportDoc(notes: Option<seq<ImportEntry>>)

  /** The values a note gets, apart from its id. */
  datatype NoteFields = NoteFields(title: string, content: string, category: string, createdAt: string, updatedAt: string)

  /** `value || fallback` for an optional string. */
  function OrDefault(o: Option<string>, fallback: string): (r: string)
    ensures o.Some? && o.value != [] ==> r == o.value
    ensures o.None? || o.value == [] ==> r == fallback
  {
    if o.Some? && o.value != [] then o.value else fallback
  }

  /** `note && typeof note.title === "string"`. */
  predicate IsImportable(e: ImportEntry) {
    e.title.Some?
  }

  /** The entries the import keeps, in file order. */
  function Importable(entries: seq<ImportEntry>): (r: seq<ImportEntry>)
    ensures |r| <= |entries|
    ensures forall e :: e in r <==> e in entries && IsImportable(e)
  {
    if entries == [] then []
    else (if IsImportable(entries[0]) then [entries[0]] else []) + Importable(entries[1..])
  }

  /** An entry the file lists several times is kept as many times, or not at all. */
  lemma {:induction false} ImportableCounts(entries: seq<ImportEntry>)
    ensures forall e :: multiset(Importable(entries))[e] == if IsImportable(e) then multiset(entries)[e] else 0
  {
    if entries != [] {
      ImportableCounts(entries[1..]);
      assert entries == [entries[0]] + entries[1..];
    }
  }

  lemma {:induction false} ImportableIsSubseq(entries: seq<ImportEntry>)
    ensures IsSubseq(Importable(entries), entries)
  {
    if entries != [] {
      ImportableIsSubseq(entries[1..]);
      var r := Importable(entries);
      if IsImportable(entries[0]) {
        assert r[0] == entries[0] && r[1..] == Importable(entries[1..]);
      } else {
        assert r == Importable(entries[1..]);
      }
    }
  }

  /**
   * The values of an imported note, with missing content read as "" (the
   * corrected mapping): title as given, category "General", and timestamps
   * `now` when missing or empty.
   */
  function ImportedFields(e: ImportEntry, now: string): (f: NoteFields)
    requires IsImportable(e)
    ensures f.title == e.title.value
    ensures e.content.Some? ==> f.content == e.content.value
    ensures e.content.None? ==> f.content == []
    ensures f.category != []
    ensures f.createdAt == OrDefault(e.createdAt, now) && f.updatedAt == OrDefault(e.updatedAt, now)
  {
    NoteFields(
      e.title.value,
      if e.content.Some? then e.content.value else [],
      OrDefault(e.category, "General"),
      OrDefault(e.createdAt, now),
      OrDefault(e.updatedAt, now))
  }

  /**
   * The search half of the filter as written, on a note whose content may be
   * missing: `None` stands for the exception `undefined.toLowerCase()`
   * throws when the term is not empty and the title does not contain it.
   */
  function MatchesSearchAsWritten(title: string, content: Option<string>, category: string, term: string): (r: Option<bool>)
    ensures content.Some? ==> r == Some(MatchesSearch(title, content.value, category, term))
    ensures r.None? <==> content.None? && term != [] && !Includes(Lower(title), term)
  {
    if term == [] || Includes(Lower(title), term) then Some(true)
    else if content.None? then None
    else Some(Includes(Lower(content.value), term) || Includes(Lower(category), term))
  }

  /**
   * An imported entry without content makes any search that its title does
   * not match throw; with the corrected mapping the same note is simply not
   * matched.
   */
  lemma ImportedNoteBreaksSearch()
    ensures var e := ImportEntry(Some("a"), None, None, None, None);
      && IsImportable(e)
      && MatchesSearchAsWritten("a", e.content, "General", "b").None?
      && !MatchesSearch("a", ImportedFields(e, "").content, "General", "b")
  {
    assert Lower("a") == "a";
    assert Lower("General") == "general";
    IncludesChar("a", 'b');
    IncludesChar("", 'b');
    IncludesChar("general", 'b');
  }
}
