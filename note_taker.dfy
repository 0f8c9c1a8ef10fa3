/**
 * The note taker's state and the operations that change it: the notes (in
 * list order, newest first), the note being edited, the id counter, the
 * filtered list and the unsaved-changes flag. Notes are objects: the note
 * list and the filtered list hold the same notes, and a save writes into
 * the note in place.
 */
module NoteTaker {
  import opened Wrappers
  import opened Text
  import opened NoteView

  class Note {
    const id: nat
    var title: string
    var content: string
    var category: string
    var createdAt: string
    var updatedAt: string

    constructor (id: nat, f: NoteFields)
      ensures this.id == id && Fields() == f
    {
      this.id := id;
      title, content, category := f.title, f.content, f.category;
      createdAt, updatedAt := f.createdAt, f.updatedAt;
    }

    function Fields(): NoteFields
      reads this
    {
      NoteFields(title, content, category, createdAt, updatedAt)
    }
  }

  /** `currentNoteId` is truthy: set, and not 0. */
  predicate Truthy(id: Option<nat>) {
    id.Some? && id.value != 0
  }

  /** `notes.findIndex(note => note.id === id)`. */
  function IndexOfId(ns: seq<Note>, id: nat): (k: int)
    ensures -1 <= k < |ns|
    ensures k >= 0 ==> ns[k].id == id && forall i :: 0 <= i < k ==> ns[i].id != id
    ensures k < 0 ==> forall i :: 0 <= i < |ns| ==> ns[i].id != id
  {
    if ns == [] then -1
    else if ns[0].id == id then 0
    else
      var k := IndexOfId(ns[1..], id);
      if k < 0 then -1 else k + 1
  }

  /** `notes.filter(note => note.id !== id)`. */
  function WithoutId(ns: seq<Note>, id: nat): (r: seq<Note>)
    ensures |r| <= |ns|
    ensures forall i :: 0 <= i < |r| ==> r[i] in ns && r[i].id != id
    ensures forall i :: 0 <= i < |ns| && ns[i].id != id ==> ns[i] in r
  {
    if ns == [] then []
    else (if ns[0].id != id then [ns[0]] else []) + WithoutId(ns[1..], id)
  }

  /** Ids are pairwise distinct, at least 1 and below the counter. */
  ghost predicate IdsValid(ns: seq<Note>, counter: nat) {
    && (forall i, j :: 0 <= i < j < |ns| ==> ns[i].id != ns[j].id)
    && (forall i :: 0 <= i < |ns| ==> 1 <= ns[i].id < counter)
  }

  /** A note of the list has its id found. */
  lemma InListHasId(ns: seq<Note>, n: Note)
    requires n in ns
    ensures IndexOfId(ns, n.id) >= 0
  {
    var i :| 0 <= i < |ns| && ns[i] == n;
  }

  lemma {:induction false} SubseqMembers<T>(a: seq<T>, b: seq<T>)
    requires IsSubseq(a, b)
    ensures forall x :: x in a ==> x in b
    decreases |b|
  {
    if a != [] {
      if a[0] == b[0] && IsSubseq(a[1..], b[1..]) {
        SubseqMembers(a[1..], b[1..]);
        forall x | x in a ensures x in b {
          if x != a[0] { assert x in a[1..]; assert x in b[1..]; }
        }
      } else {
        SubseqMembers(a, b[1..]);
        forall x | x in a ensures x in b {
          assert x in b[1..];
        }
      }
    }
  }

  lemma IdsValidTail(ns: seq<Note>, counter: nat)
    requires ns != [] && IdsValid(ns, counter)
    ensures IdsValid(ns[1..], counter)
  {
    forall i, j | 0 <= i < j < |ns| - 1 ensures ns[1..][i].id != ns[1..][j].id {
      assert ns[1..][i] == ns[i + 1] && ns[1..][j] == ns[j + 1];
    }
  }

  /** Dropping notes, order kept, keeps the id invariant. */
  lemma {:induction false} SubseqIdsValid(a: seq<Note>, b: seq<Note>, counter: nat)
    requires IsSubseq(a, b) && IdsValid(b, counter)
    ensures IdsValid(a, counter)
    decreases |b|
  {
    SubseqMembers(a, b);
    if a != [] {
      IdsValidTail(b, counter);
      if a[0] == b[0] && IsSubseq(a[1..], b[1..]) {
        SubseqIdsValid(a[1..], b[1..], counter);
        SubseqMembers(a[1..], b[1..]);
        forall j | 0 < j < |a| ensures a[0].id != a[j].id {
          assert a[j] == a[1..][j - 1];
          assert a[j] in a[1..];
          assert a[j] in b[1..];
          var m :| 0 <= m < |b| - 1 && b[1..][m] == a[j];
          assert b[m + 1] == a[j];
        }
        forall i, j | 0 <= i < j < |a| ensures a[i].id != a[j].id {
          if i > 0 { assert a[i] == a[1..][i - 1] && a[j] == a[1..][j - 1]; }
        }
      } else {
        SubseqIdsValid(a, b[1..], counter);
      }
    }
  }

  /** The delete filter keeps the other notes in order. */
  lemma {:induction false} WithoutIdIsSubseq(ns: seq<Note>, id: nat)
    ensures IsSubseq(WithoutId(ns, id), ns)
  {
    if ns != [] {
      WithoutIdIsSubseq(ns[1..], id);
      var r := WithoutId(ns, id);
      if ns[0].id != id {
        assert r[0] == ns[0] && r[1..] == WithoutId(ns[1..], id);
      } else {
        assert r == WithoutId(ns[1..], id);
      }
    }
  }

  /** Deleting an id nobody has keeps the list as it is. */
  lemma {:induction false} WithoutIdAbsent(ns: seq<Note>, id: nat)
    requires IndexOfId(ns, id) < 0
    ensures WithoutId(ns, id) == ns
  {
    if ns != [] {
      WithoutIdAbsent(ns[1..], id);
    }
  }

  /** With distinct ids, deleting an id that is present removes exactly one note. */
  lemma {:induction false} WithoutIdRemovesOne(ns: seq<Note>, id: nat, counter: nat)
    requires IdsValid(ns, counter) && IndexOfId(ns, id) >= 0
    ensures |WithoutId(ns, id)| == |ns| - 1
  {
    IdsValidTail(ns, counter);
    if ns[0].id == id {
      assert IndexOfId(ns[1..], id) < 0 by {
        forall i | 0 <= i < |ns| - 1 ensures ns[1..][i].id != id {
          assert ns[1..][i] == ns[i + 1];
        }
      }
      WithoutIdAbsent(ns[1..], id);
    } else {
      WithoutIdRemovesOne(ns[1..], id, counter);
    }
  }

  /** The current note, if any, is in the list, and the filtered list holds only listed notes. */
  ghost predicate CoherentLists(ns: seq<Note>, filtered: seq<Note>, current: Option<nat>) {
    && (current.Some? ==> IndexOfId(ns, current.value) >= 0)
    && (forall n :: n in filtered ==> n in ns)
  }

  /**
   * Deleting a present id from both lists keeps the id invariant, shortens
   * the list by one, and keeps the lists coherent once a current note with
   * that id is deselected.
   */
  lemma WithoutIdKeepsInvariants(ns: seq<Note>, filtered: seq<Note>, current: Option<nat>, id: nat, counter: nat)
    requires IdsValid(ns, counter) && IndexOfId(ns, id) >= 0
    ensures IdsValid(WithoutId(ns, id), counter) && |WithoutId(ns, id)| == |ns| - 1
    ensures CoherentLists(ns, filtered, current) ==>
      CoherentLists(WithoutId(ns, id), WithoutId(filtered, id), if current == Some(id) then None else current)
  {
    WithoutIdIsSubseq(ns, id);
    SubseqIdsValid(WithoutId(ns, id), ns, counter);
    WithoutIdRemovesOne(ns, id, counter);
    if CoherentLists(ns, filtered, current) {
      var rest := WithoutId(ns, id);
      if current.Some? && current != Some(id) {
        var c := IndexOfId(ns, current.value);
        InListHasId(rest, ns[c]);
      }
      forall n | n in WithoutId(filtered, id) ensures n in rest {
        var i :| 0 <= i < |WithoutId(filtered, id)| && WithoutId(filtered, id)[i] == n;
        var j :| 0 <= j < |ns| && ns[j] == n;
      }
    }
  }

  /** The fields of each note of `ns`, in list order. */
  function FieldsOf(ns: seq<Note>): (fs: seq<NoteFields>)
    reads ns
    ensures |fs| == |ns| && forall i :: 0 <= i < |ns| ==> fs[i] == ns[i].Fields()
  {
    if ns == [] then [] else [ns[0].Fields()] + FieldsOf(ns[1..])
  }

  /** Two field lists that agree everywhere but at `k` differ by one update. */
  lemma UpdatedAt(before: seq<NoteFields>, after: seq<NoteFields>, k: int)
    requires |before| == |after| && 0 <= k < |after|
    requires forall i :: 0 <= i < |after| && i != k ==> after[i] == before[i]
    ensures after == before[k := after[k]]
  {
  }

  /**
   * A save writes the form into note `k` and stamps it; its creation time
   * stays, and since ids are distinct no other note of the list changes.
   */
  method WriteAt(ns: seq<Note>, k: int, title: string, content: string, category: string, updatedAt: string)
    requires 0 <= k < |ns|
    requires forall i :: 0 <= i < |ns| && i != k ==> ns[i].id != ns[k].id
    modifies ns[k]
    ensures FieldsOf(ns) == old(FieldsOf(ns))[k := NoteFields(title, content, category, old(ns[k].createdAt), updatedAt)]
  {
    ghost var before := FieldsOf(ns);
    var note := ns[k];
    note.title, note.content, note.category, note.updatedAt := title, content, category, updatedAt;
    forall i | 0 <= i < |ns| && i != k ensures FieldsOf(ns)[i] == before[i] {
      assert ns[i] != note;
    }
    UpdatedAt(before, FieldsOf(ns), k);
  }

  /** The filter of `filterNotes` for one note. */
  predicate Matches(n: Note, term: string, categoryFilter: string)
    reads n
  {
    MatchesSearch(n.title, n.content, n.category, term) && MatchesCategory(n.category, categoryFilter)
  }

  /** `notes.filter(...)` in `filterNotes`. */
  function FilterNotes(ns: seq<Note>, term: string, categoryFilter: string): (r: seq<Note>)
    reads ns
    ensures |r| <= |ns|
    ensures forall i :: 0 <= i < |r| ==> r[i] in ns && Matches(r[i], term, categoryFilter)
    ensures forall i :: 0 <= i < |ns| && Matches(ns[i], term, categoryFilter) ==> ns[i] in r
  {
    if ns == [] then []
    else (if Matches(ns[0], term, categoryFilter) then [ns[0]] else []) + FilterNotes(ns[1..], term, categoryFilter)
  }

  /** The filter keeps notes in list order and drops none that match. */
  lemma {:induction false} FilterNotesIsSubseq(ns: seq<Note>, term: string, categoryFilter: string)
    ensures IsSubseq(FilterNotes(ns, term, categoryFilter), ns)
  {
    if ns != [] {
      FilterNotesIsSubseq(ns[1..], term, categoryFilter);
      var r := FilterNotes(ns, term, categoryFilter);
      if Matches(ns[0], term, categoryFilter) {
        assert r[0] == ns[0] && r[1..] == FilterNotes(ns[1..], term, categoryFilter);
      } else {
        assert r == FilterNotes(ns[1..], term, categoryFilter);
      }
    }
  }

  /** The notes the list shows: the filtered notes while a search or category is entered, else all. */
  function ShownNotes(notes: seq<Note>, filtered: seq<Note>, rawSearch: string, rawCategory: string): seq<Note> {
    if HasFilters(rawSearch, rawCategory) then filtered else notes
  }

  /** The cards of a list of notes, in order. */
  function CardsOf(ns: seq<Note>, current: Option<nat>): (cards: seq<Card>)
    reads ns
    ensures |cards| == |ns|
    ensures forall i :: 0 <= i < |ns| ==> cards[i] == CardOf(ns[i].id, ns[i].title, ns[i].content, ns[i].category, current)
  {
    if ns == [] then []
    else [CardOf(ns[0].id, ns[0].title, ns[0].content, ns[0].category, current)] + CardsOf(ns[1..], current)
  }

  /** What `renderNotesList` puts on the page. */
  datatype NoteList =
    | EmptyList(countText: string, message: string)
    | CardList(countText: string, cards: seq<Card>)

  datatype SaveStatus = NoNoteSelected | NoteNotFound | Saved
  datatype SelectOutcome = SelectNotFound | StayedAfterFailedSave | Switched
  datatype DeleteOutcome = DeleteNotFound | DeleteDeclined | Deleted
  datatype ImportOutcome = InvalidFormat | NoValidNotes | Imported(count: nat)
  datatype ClearOutcome = NothingToClear | ClearDeclined | Cleared

  /** What `loadNotesFromMemory` fills in on a note it finds incomplete. */
  function Repaired(f: NoteFields, now: string): (g: NoteFields)
    ensures g.title == f.title && g.content == f.content
    ensures g.category != [] && g.updatedAt != [] <== g.createdAt != []
  {
    var created := if f.createdAt == [] then now else f.createdAt;
    NoteFields(
      f.title, f.content,
      if f.category == [] then "General" else f.category,
      created,
      if f.updatedAt == [] then created else f.updatedAt)
  }

  /** Repairing a repaired note changes nothing. */
  lemma RepairedIdempotent(f: NoteFields, now: string)
    ensures Repaired(Repaired(f, now), now) == Repaired(f, now)
    ensures Repaired(f, now).category != []
    ensures f.createdAt != [] ==> Repaired(f, now).createdAt == f.createdAt
  {
  }

  class NoteStore {
    var notes: seq<Note>
    var currentNoteId: Option<nat>
    var noteIdCounter: nat
    var filteredNotes: seq<Note>
    var hasUnsavedChanges: bool

    /** The id invariant: distinct ids, all in `[1, noteIdCounter)`. */
    ghost predicate Valid()
      reads this
    {
      noteIdCounter >= 1 && IdsValid(notes, noteIdCounter)
    }

    /** The current note, if any, is in the list, and the filtered list holds only listed notes. */
    ghost predicate Coherent()
      reads this
    {
      CoherentLists(notes, filteredNotes, currentNoteId)
    }

    /** The page's initial state. */
    constructor ()
      ensures Valid() && Coherent()
      ensures notes == [] && filteredNotes == [] && currentNoteId == None
      ensures noteIdCounter == 1 && !hasUnsavedChanges
    {
      notes, filteredNotes := [], [];
      currentNoteId := None;
      noteIdCounter := 1;
      hasUnsavedChanges := false;
    }

    /** `createNewNote`. */
    method Create(now: string) returns (n: Note)
      requires Valid()
      modifies this
      ensures Valid() && (old(Coherent()) ==> Coherent())
      ensures fresh(n) && n.id == old(noteIdCounter) && noteIdCounter == old(noteIdCounter) + 1
      ensures n.Fields() == NoteFields("Untitled Note", "", "General", now, now)
      ensures notes == [n] + old(notes) && filteredNotes == old(filteredNotes)
      ensures currentNoteId == Some(n.id) && !hasUnsavedChanges
    {
      n := new Note(noteIdCounter, NoteFields("Untitled Note", "", "General", now, now));
      noteIdCounter := noteIdCounter + 1;
      notes := [n] + notes;
      currentNoteId := Some(n.id);
      hasUnsavedChanges := false;
      assert notes[1..] == old(notes);
    }

    /** `handleNoteChange`: the form was edited. */
    method MarkDirty()
      modifies this
      ensures hasUnsavedChanges
      ensures notes == old(notes) && filteredNotes == old(filteredNotes)
      ensures currentNoteId == old(currentNoteId) && noteIdCounter == old(noteIdCounter)
    {
      hasUnsavedChanges := true;
    }

    /**
     * `saveCurrentNote` with the form's title, content and category. It fails
     * and changes nothing when no note is selected or the selected note is
     * gone; otherwise it writes the form into that note only.
     */
    method Save(title: string, content: string, category: string, now: string) returns (status: SaveStatus)
      requires Valid()
      modifies this, notes
      ensures Valid() && (old(Coherent()) ==> Coherent())
      ensures notes == old(notes) && filteredNotes == old(filteredNotes)
      ensures currentNoteId == old(currentNoteId) && noteIdCounter == old(noteIdCounter)
      ensures status == NoNoteSelected <==> !Truthy(currentNoteId)
      ensures status == NoteNotFound <==> Truthy(currentNoteId) && IndexOfId(notes, currentNoteId.value) < 0
      ensures status != Saved ==> hasUnsavedChanges == old(hasUnsavedChanges) && FieldsOf(notes) == old(FieldsOf(notes))
      ensures status == Saved ==>
        var k := IndexOfId(notes, currentNoteId.value);
        && !hasUnsavedChanges
        && FieldsOf(notes) == old(FieldsOf(notes))[k := NoteFields(SavedTitle(title), content, SavedCategory(category), old(notes[k].createdAt), now)]
    {
      if !Truthy(currentNoteId) {
        return NoNoteSelected;
      }
      var k := IndexOfId(notes, currentNoteId.value);
      if k < 0 {
        return NoteNotFound;
      }
      WriteAt(notes, k, SavedTitle(title), content, SavedCategory(category), now);
      hasUnsavedChanges := false;
      status := Saved;
    }

    /** `showNoteEditor(note)`: the note becomes the one being edited, with nothing unsaved. */
    method ShowEditor(n: Note)
      modifies this
      ensures (old(Valid()) ==> Valid()) && (old(Coherent()) && IndexOfId(notes, n.id) >= 0 ==> Coherent())
      ensures notes == old(notes) && filteredNotes == old(filteredNotes) && noteIdCounter == old(noteIdCounter)
      ensures currentNoteId == Some(n.id) && !hasUnsavedChanges
      ensures FieldsOf(notes) == old(FieldsOf(notes))
    {
      currentNoteId := Some(n.id);
      hasUnsavedChanges := false;
    }

    /**
     * The unsaved-changes step of `selectNote`: with unsaved changes and a
     * yes to "Save before switching notes?", the form is saved, and the
     * switch goes ahead only if that save succeeds.
     */
    method SaveBeforeSwitch(confirmSave: bool, title: string, content: string, category: string, now: string)
      returns (proceed: bool)
      requires Valid()
      modifies this, notes
      ensures Valid() && (old(Coherent()) ==> Coherent())
      ensures notes == old(notes) && filteredNotes == old(filteredNotes)
      ensures currentNoteId == old(currentNoteId) && noteIdCounter == old(noteIdCounter)
      ensures !proceed <==>
        old(hasUnsavedChanges) && confirmSave && (!Truthy(currentNoteId) || IndexOfId(notes, currentNoteId.value) < 0)
      ensures !(proceed && old(hasUnsavedChanges) && confirmSave) ==>
        hasUnsavedChanges == old(hasUnsavedChanges) && FieldsOf(notes) == old(FieldsOf(notes))
      ensures proceed && old(hasUnsavedChanges) && confirmSave ==>
        var k := IndexOfId(notes, currentNoteId.value);
        FieldsOf(notes) == old(FieldsOf(notes))[k := NoteFields(SavedTitle(title), content, SavedCategory(category), old(notes[k].createdAt), now)]
    {
      proceed := true;
      if hasUnsavedChanges && confirmSave {
        var status := Save(title, content, category, now);
        proceed := status == Saved;
      }
    }

    /**
     * `selectNote(noteId)`. With unsaved changes, `confirmSave` is the answer
     * to "Save before switching notes?": yes saves the form first and stays
     * put if that save fails; no switches and drops the edits.
     */
    method Select(noteId: nat, confirmSave: bool, title: string, content: string, category: string, now: string)
      returns (r: SelectOutcome)
      requires Valid()
      modifies this, notes
      ensures Valid() && (old(Coherent()) ==> Coherent())
      ensures notes == old(notes) && filteredNotes == old(filteredNotes) && noteIdCounter == old(noteIdCounter)
      ensures r == SelectNotFound <==> IndexOfId(notes, noteId) < 0
      ensures r == StayedAfterFailedSave <==>
        IndexOfId(notes, noteId) >= 0 && old(hasUnsavedChanges) && confirmSave
        && (!Truthy(old(currentNoteId)) || IndexOfId(notes, old(currentNoteId).value) < 0)
      ensures r != Switched ==>
        currentNoteId == old(currentNoteId) && hasUnsavedChanges == old(hasUnsavedChanges)
        && FieldsOf(notes) == old(FieldsOf(notes))
      ensures r == Switched ==> currentNoteId == Some(noteId) && !hasUnsavedChanges
      ensures r == Switched && !(old(hasUnsavedChanges) && confirmSave) ==> FieldsOf(notes) == old(FieldsOf(notes))
      ensures r == Switched && old(hasUnsavedChanges) && confirmSave ==>
        var k := IndexOfId(notes, old(currentNoteId).value);
        FieldsOf(notes) == old(FieldsOf(notes))[k := NoteFields(SavedTitle(title), content, SavedCategory(category), old(notes[k].createdAt), now)]
    {
      var k := IndexOfId(notes, noteId);
      if k < 0 {
        return SelectNotFound;
      }
      var proceed := SaveBeforeSwitch(confirmSave, title, content, category, now);
      if !proceed {
        return StayedAfterFailedSave;
      }
      ShowEditor(notes[k]);
      r := Switched;
    }

    /**
     * `deleteNote(noteId)` as intended: after the confirmation, the note
     * leaves both the note list and the filtered list.
     */
    method Delete(noteId: nat, confirmed: bool) returns (r: DeleteOutcome)
      requires Valid()
      modifies this
      ensures Valid() && (old(Coherent()) ==> Coherent())
      ensures noteIdCounter == old(noteIdCounter)
      ensures r == DeleteNotFound <==> IndexOfId(old(notes), noteId) < 0
      ensures r == DeleteDeclined <==> IndexOfId(old(notes), noteId) >= 0 && !confirmed
      ensures r != Deleted ==>
        notes == old(notes) && filteredNotes == old(filteredNotes)
        && currentNoteId == old(currentNoteId) && hasUnsavedChanges == old(hasUnsavedChanges)
      ensures r == Deleted ==>
        && notes == WithoutId(old(notes), noteId) && |notes| == |old(notes)| - 1
        && filteredNotes == WithoutId(old(filteredNotes), noteId)
        && (old(currentNoteId) == Some(noteId) ==> currentNoteId == None && !hasUnsavedChanges)
        && (old(currentNoteId) != Some(noteId) ==>
              currentNoteId == old(currentNoteId) && hasUnsavedChanges == old(hasUnsavedChanges))
    {
      if IndexOfId(notes, noteId) < 0 {
        return DeleteNotFound;
      }
      if !confirmed {
        return DeleteDeclined;
      }
      WithoutIdKeepsInvariants(notes, filteredNotes, currentNoteId, noteId, noteIdCounter);
      notes := WithoutId(notes, noteId);
      filteredNotes := WithoutId(filteredNotes, noteId);
      if currentNoteId == Some(noteId) {
        currentNoteId := None;
        hasUnsavedChanges := false;
      }
      r := Deleted;
    }

    /**
     * `deleteNote(noteId)` as written: `filteredNotes` keeps the deleted note,
     * so a list showing the filtered notes still shows its card.
     */
    method DeleteAsWritten(noteId: nat, confirmed: bool) returns (r: DeleteOutcome)
      requires Valid()
      modifies this
      ensures Valid()
      ensures noteIdCounter == old(noteIdCounter) && filteredNotes == old(filteredNotes)
      ensures r == DeleteNotFound <==> IndexOfId(old(notes), noteId) < 0
      ensures r == DeleteDeclined <==> IndexOfId(old(notes), noteId) >= 0 && !confirmed
      ensures r != Deleted ==>
        notes == old(notes) && currentNoteId == old(currentNoteId) && hasUnsavedChanges == old(hasUnsavedChanges)
      ensures r == Deleted ==>
        && notes == WithoutId(old(notes), noteId)
        && (old(currentNoteId) == Some(noteId) ==> currentNoteId == None && !hasUnsavedChanges)
        && (old(currentNoteId) != Some(noteId) ==>
              currentNoteId == old(currentNoteId) && hasUnsavedChanges == old(hasUnsavedChanges))
    {
      if IndexOfId(notes, noteId) < 0 {
        return DeleteNotFound;
      }
      if !confirmed {
        return DeleteDeclined;
      }
      WithoutIdIsSubseq(notes, noteId);
      SubseqIdsValid(WithoutId(notes, noteId), notes, noteIdCounter);
      notes := WithoutId(notes, noteId);
      if currentNoteId == Some(noteId) {
        currentNoteId := None;
        hasUnsavedChanges := false;
      }
      r := Deleted;
    }

    /** `filterNotes` with the raw search box and category filter values. */
    method Filter(rawSearch: string, rawCategory: string)
      requires Valid()
      modifies this
      ensures Valid() && (old(Coherent()) ==> Coherent())
      ensures filteredNotes == FilterNotes(notes, SearchTerm(rawSearch), rawCategory)
      ensures notes == old(notes) && currentNoteId == old(currentNoteId)
      ensures noteIdCounter == old(noteIdCounter) && hasUnsavedChanges == old(hasUnsavedChanges)
    {
      filteredNotes := FilterNotes(notes, SearchTerm(rawSearch), rawCategory);
    }

    /** The notes `renderNotesList` shows. */
    function Shown(rawSearch: string, rawCategory: string): seq<Note>
      reads this
    {
      ShownNotes(notes, filteredNotes, rawSearch, rawCategory)
    }

    /**
     * `renderNotesList`: a count line stating how many notes are shown out of
     * how many, then the empty-state line chosen by whether a filter is
     * entered, or one card per shown note in order. Without a filter every
     * note is shown.
     */
    function RenderList(rawSearch: string, rawCategory: string): (v: NoteList)
      reads this, notes, filteredNotes
      ensures ParseNoteCount(v.countText) == Some((|Shown(rawSearch, rawCategory)|, |notes|))
      ensures v.EmptyList? <==> Shown(rawSearch, rawCategory) == []
      ensures v.EmptyList? ==> v.message == EmptyMessage(HasFilters(rawSearch, rawCategory))
      ensures v.CardList? ==> |v.cards| == |Shown(rawSearch, rawCategory)|
      ensures v.CardList? ==> forall i :: 0 <= i < |v.cards| ==> v.cards[i].id == Shown(rawSearch, rawCategory)[i].id
      ensures !HasFilters(rawSearch, rawCategory) ==> Shown(rawSearch, rawCategory) == notes
    {
      var shown := Shown(rawSearch, rawCategory);
      var count := NoteCountText(|shown|, |notes|);
      if shown == [] then EmptyList(count, EmptyMessage(HasFilters(rawSearch, rawCategory)))
      else CardList(count, CardsOf(shown, currentNoteId))
    }

    /**
     * The `map` of `handleFileImport`: one new note per accepted entry, each
     * taking the counter as its id and advancing it.
     */
    method MintImported(valid: seq<ImportEntry>, now: string) returns (added: seq<Note>)
      requires forall j :: 0 <= j < |valid| ==> IsImportable(valid[j])
      modifies this
      ensures |added| == |valid| && noteIdCounter == old(noteIdCounter) + |valid|
      ensures notes == old(notes) && filteredNotes == old(filteredNotes)
      ensures currentNoteId == old(currentNoteId) && hasUnsavedChanges == old(hasUnsavedChanges)
      ensures forall j :: 0 <= j < |added| ==>
        fresh(added[j]) && added[j].id == old(noteIdCounter) + j
        && added[j].Fields() == ImportedFields(valid[j], now)
    {
      added := [];
      var i := 0;
      while i < |valid|
        invariant 0 <= i <= |valid| && |added| == i
        invariant noteIdCounter == old(noteIdCounter) + i
        invariant notes == old(notes) && filteredNotes == old(filteredNotes)
        invariant currentNoteId == old(currentNoteId) && hasUnsavedChanges == old(hasUnsavedChanges)
        invariant forall j :: 0 <= j < i ==>
          fresh(added[j]) && added[j].id == old(noteIdCounter) + j
          && added[j].Fields() == ImportedFields(valid[j], now)
      {
        var n := new Note(noteIdCounter, ImportedFields(valid[i], now));
        added := added + [n];
        noteIdCounter := noteIdCounter + 1;
        i := i + 1;
      }
    }

    /**
     * `handleFileImport` after parsing, with `merge` the answer to "merge
     * with existing notes?". Entries with a string title get consecutive
     * fresh ids; merging puts them in front of the list, replacing makes them
     * the list and deselects the current note.
     */
    method Import(doc: ImportDoc, merge: bool, now: string) returns (r: ImportOutcome, added: seq<Note>)
      requires Valid()
      modifies this
      ensures Valid() && (old(Coherent()) ==> Coherent())
      ensures hasUnsavedChanges == old(hasUnsavedChanges)
      ensures r == InvalidFormat <==> doc.notes.None?
      ensures r == NoValidNotes <==> doc.notes.Some? && Importable(doc.notes.value) == []
      ensures r.Imported? <==> doc.notes.Some? && Importable(doc.notes.value) != []
      ensures !r.Imported? ==>
        notes == old(notes) && filteredNotes == old(filteredNotes)
        && currentNoteId == old(currentNoteId) && noteIdCounter == old(noteIdCounter)
      ensures r.Imported? ==>
        var valid := Importable(doc.notes.value);
        && r.count == |valid| == |added|
        && noteIdCounter == old(noteIdCounter) + |valid|
        && (forall i :: 0 <= i < |added| ==>
              fresh(added[i]) && added[i].id == old(noteIdCounter) + i
              && added[i].Fields() == ImportedFields(valid[i], now))
        && (merge ==> notes == added + old(notes) && currentNoteId == old(currentNoteId))
        && (!merge ==> notes == added && currentNoteId == None)
        && filteredNotes == notes
    {
      added := [];
      if doc.notes.None? {
        return InvalidFormat, added;
      }
      var valid := Importable(doc.notes.value);
      if valid == [] {
        return NoValidNotes, added;
      }
      assert forall j :: 0 <= j < |valid| ==> valid[j] in valid;
      added := MintImported(valid, now);
      if merge {
        notes := added + notes;
      } else {
        notes := added;
        currentNoteId := None;
      }
      filteredNotes := notes;
      r := Imported(|valid|);
      PrependFreshIds(added, old(notes), old(noteIdCounter), noteIdCounter);
      if merge && old(Coherent()) && currentNoteId.Some? {
        var c := IndexOfId(old(notes), currentNoteId.value);
        InListHasId(notes, old(notes)[c]);
      }
    }

    /** `clearAllNotes` with the answer to its confirmation. */
    method ClearAll(confirmed: bool) returns (r: ClearOutcome)
      requires Valid()
      modifies this
      ensures Valid() && (old(Coherent()) ==> Coherent())
      ensures r == NothingToClear <==> old(notes) == []
      ensures r == ClearDeclined <==> old(notes) != [] && !confirmed
      ensures r != Cleared ==>
        notes == old(notes) && filteredNotes == old(filteredNotes) && currentNoteId == old(currentNoteId)
        && noteIdCounter == old(noteIdCounter) && hasUnsavedChanges == old(hasUnsavedChanges)
      ensures r == Cleared ==>
        notes == [] && filteredNotes == [] && noteIdCounter == 1 && currentNoteId == None && !hasUnsavedChanges
    {
      if notes == [] {
        return NothingToClear;
      }
      if !confirmed {
        return ClearDeclined;
      }
      notes, filteredNotes := [], [];
      noteIdCounter := 1;
      currentNoteId := None;
      hasUnsavedChanges := false;
      r := Cleared;
    }

    /**
     * `loadNotesFromMemory` when a saved state exists: take over the saved
     * notes, counter (0 read as 1) and current id (0 read as none), fill in
     * each note's missing category and timestamps, and keep the current id
     * only if its note is there.
     */
    method ReloadFromMemory(saved: seq<Note>, savedCounter: nat, savedCurrent: Option<nat>, now: string)
      modifies this, saved
      ensures IdsValid(saved, if savedCounter == 0 then 1 else savedCounter) ==> Valid() && Coherent()
      ensures notes == saved && filteredNotes == saved
      ensures noteIdCounter == if savedCounter == 0 then 1 else savedCounter
      ensures forall i :: 0 <= i < |saved| ==> saved[i].Fields() == Repaired(old(saved[i].Fields()), now)
      ensures Truthy(savedCurrent) && IndexOfId(saved, savedCurrent.value) >= 0 ==>
        currentNoteId == savedCurrent && !hasUnsavedChanges
      ensures !(Truthy(savedCurrent) && IndexOfId(saved, savedCurrent.value) >= 0) ==>
        currentNoteId == None && hasUnsavedChanges == old(hasUnsavedChanges)
    {
      RepairAll(saved, now);
      notes := saved;
      noteIdCounter := if savedCounter == 0 then 1 else savedCounter;
      currentNoteId := if Truthy(savedCurrent) then savedCurrent else None;
      if currentNoteId.Some? {
        var k := IndexOfId(notes, currentNoteId.value);
        if k >= 0 {
          ShowEditor(notes[k]);
        } else {
          currentNoteId := None;
        }
      }
      filteredNotes := notes;
    }
  }

  /** The `forEach` of `loadNotesFromMemory`: every note repaired, a note listed twice once. */
  method RepairAll(saved: seq<Note>, now: string)
    modifies saved
    ensures forall i :: 0 <= i < |saved| ==> saved[i].Fields() == Repaired(old(saved[i].Fields()), now)
  {
    var i := 0;
    while i < |saved|
      invariant 0 <= i <= |saved|
      invariant forall j :: 0 <= j < i ==> saved[j].Fields() == Repaired(old(saved[j].Fields()), now)
      invariant forall j :: i <= j < |saved| ==>
        saved[j].Fields() == old(saved[j].Fields()) || saved[j].Fields() == Repaired(old(saved[j].Fields()), now)
    {
      var note := saved[i];
      RepairedIdempotent(old(note.Fields()), now);
      label before:
      Repair(note, now);
      forall j | 0 <= j < |saved| && saved[j] != note
        ensures saved[j].Fields() == old@before(saved[j].Fields())
      {
      }
      i := i + 1;
    }
  }

  /** The `forEach` body of `loadNotesFromMemory` for one note. */
  method Repair(note: Note, now: string)
    modifies note
    ensures note.Fields() == Repaired(old(note.Fields()), now)
  {
    if note.category == [] {
      note.category := "General";
    }
    if note.createdAt == [] {
      note.createdAt := now;
    }
    if note.updatedAt == [] {
      note.updatedAt := note.createdAt;
    }
  }

  /** Fresh notes with consecutive ids from the counter, put before the old notes, keep the id invariant. */
  lemma PrependFreshIds(added: seq<Note>, old_notes: seq<Note>, counter: nat, counter': nat)
    requires counter >= 1 && IdsValid(old_notes, counter)
    requires counter' == counter + |added|
    requires forall i :: 0 <= i < |added| ==> added[i].id == counter + i
    ensures IdsValid(added + old_notes, counter') && IdsValid(added, counter')
  {
    var all := added + old_notes;
    forall i, j | 0 <= i < j < |all| ensures all[i].id != all[j].id {
      if j >= |added| {
        assert all[j] == old_notes[j - |added|];
        if i >= |added| { assert all[i] == old_notes[i - |added|]; }
      }
    }
    forall i | 0 <= i < |all| ensures 1 <= all[i].id < counter' {
      if i >= |added| { assert all[i] == old_notes[i - |added|]; }
    }
  }

  /**
   * With a search or category entered, a note that the filtered list still
   * holds is shown even after it has left the note list: the card the as
   * written delete leaves behind.
   */
  lemma DeleteAsWrittenLeavesCard(notes: seq<Note>, filtered: seq<Note>, n: Note, rawSearch: string, rawCategory: string)
    requires n in notes && n in filtered && HasFilters(rawSearch, rawCategory)
    ensures n !in WithoutId(notes, n.id)
    ensures n in ShownNotes(WithoutId(notes, n.id), filtered, rawSearch, rawCategory)
    ensures n !in ShownNotes(WithoutId(notes, n.id), WithoutId(filtered, n.id), rawSearch, rawCategory)
  {
  }
}
