# Tooli utilities — a Dafny model

Tooli is a set of small in-browser utilities. This project models the logic
behind six of them. It states and proves what each one does to its data.

- **Note taker** (`js/NoteTaker.js`). Notes have a numeric id, title,
  content, category and timestamps. They are kept newest first, with a
  counter that hands out ids, the id of the note being edited, a filtered
  copy of the list for search, and a flag for unsaved edits. The model covers:
  creating, saving, selecting, deleting, filtering, importing, clearing and
  reloading notes; the note list as shown (count line, empty message, cards
  with escaped text and a preview); the editor statistics; and the bold,
  italic, underline and list insertions into the content.
- **Task manager** (`js/ToDoList.js`). Tasks are added at the top, ticked
  off, deleted, or cleared once done. They are shown through an "all",
  "pending" or "completed" filter with total, pending and completed counts.
- **Image converter** (`js/ImageConverter.js`). The model covers which files
  it accepts (images up to 10 MiB), how it scales an image down to the width
  limit, when it passes the quality to the encoder, the file-size estimate
  from the encoded data URL, and the reset of the page.
- **Text case converter** (`Tooli/js/Productivity/TextCaseConverter.js`):
  upper, lower, title and sentence case.
- **Word counter** (`js/Productivity/WordCounter.js`) and **character counter**
  (`Tooli/js/Productivity/CharacterCounter.js`).

Strings are sequences of characters. The JavaScript built-ins the code uses
are written out in `text.dfy`, restricted to ASCII: `\s`, `\w`, `trim`,
`toUpperCase`, `toLowerCase`, and `split`/`join` on one character. Other
helpers live in their own modules: decimal numbers in `decimal.dfy`, and
whitespace word splitting in `words.dfy`.

The model takes the following as parameters: wall-clock timestamps, fresh task
ids, the answers to `confirm()` dialogs, form values, and the results of the
browser's image decoding and encoding. Objects that the page updates in place
are classes: `Note`, `NoteStore`, `TodoManager` and `Converter`. Their methods
carry `modifies` clauses and postconditions stating the whole new state. Notes
are objects because the filtered list shares them with the main list and a save
changes them in place. The invariant `NoteStore.Valid` says that note ids are
distinct, at least 1, and below the counter. Every operation keeps it, with one
exception: `ReloadFromMemory` takes over whatever was saved, so `Valid` holds
afterwards only when the saved ids and counter satisfy it. `NoteStore.Coherent`
says that the current id names a listed note and every filtered note is also in
the list. Every operation keeps it whenever it held before, except
`DeleteAsWritten`: the page's delete leaves a deleted note in the filtered list
(see Findings). `ReloadFromMemory` establishes `Coherent` under the same
condition as `Valid`.

## Model

| member | source | states |
|---|---|---|
| NoteTaker.NoteStore.constructor | js/NoteTaker.js:2-7 | The page starts with no notes, no current note, counter 1, a clean editor, and the invariants established. |
| NoteTaker.NoteStore.Create | js/NoteTaker.js:34-46 | The new note takes the old counter as its id, and the counter goes up by one. It goes first, titled "Untitled Note", with empty content, category "General" and both timestamps `now`. It becomes current, the editor is clean, and ids stay distinct and below the counter. |
| NoteTaker.NoteStore.MarkDirty | js/NoteTaker.js:99-100 | An edit in the editor sets the unsaved flag and changes nothing else. |
| NoteTaker.NoteStore.Save | js/NoteTaker.js:116-146 | Fails and changes nothing when no note is selected or the selected note is gone. Otherwise only that note changes: it gets the trimmed title (or "Untitled Note"), the content as given, the category (or "General"), its old creation time and `updatedAt = now`; the editor becomes clean. |
| NoteView.SavedTitle | js/NoteTaker.js:133 | The stored title is "Untitled Note" when the title is all whitespace, otherwise the trimmed title; it is never empty. |
| NoteView.SavedTitleIdempotent | js/NoteTaker.js:133 | Saving a stored title again keeps it; a stored title has no surrounding whitespace. |
| NoteView.SavedCategory | js/NoteTaker.js:135 | A chosen category is stored as is; none means "General". |
| NoteTaker.WriteAt | js/NoteTaker.js:137-140 | Note `k` gets the title, content, category and update time and keeps its creation time; with distinct ids, no other note of the list changes. |
| NoteTaker.NoteStore.ShowEditor | js/NoteTaker.js:64-71 | The note becomes current and the editor clean. The lists, the counter and every note's fields stay as they were, and the invariants hold whenever the note is listed. |
| NoteTaker.NoteStore.SaveBeforeSwitch | js/NoteTaker.js:169-175 | Without unsaved edits, or without a yes, nothing changes and the switch goes ahead. With both, the form is saved into the current note. The switch is refused exactly when no note is selected or the selected note is gone, and then nothing changes. |
| NoteTaker.NoteStore.Select | js/NoteTaker.js:164-184 | An unknown id changes nothing. With unsaved edits and "save" answered, a failed save keeps the current note. Otherwise the note becomes current with a clean editor, after saving the form into the previous note if that was asked. |
| NoteTaker.NoteStore.Delete | js/NoteTaker.js:187-204 | An unknown id or a declined confirmation changes nothing. Otherwise exactly the notes with that id leave both the list and the filtered list, the list shrinks by one, and the current note is dropped (editor clean) only if it was the deleted one. |
| NoteTaker.WithoutIdKeepsInvariants | js/NoteTaker.js:196-200 | Deleting a present id keeps ids distinct and below the counter and removes exactly one note. If the current note was the deleted one it is dropped; otherwise it is still found, and the filtered list stays within the list. |
| NoteTaker.NoteStore.DeleteAsWritten | js/NoteTaker.js:187-204 | The same, as written: the filtered list is left unchanged. |
| NoteTaker.DeleteAsWrittenLeavesCard | js/NoteTaker.js:197 | While a filter is entered, a note deleted as written is gone from the list but its card is still shown; with the corrected delete it is not. |
| NoteTaker.WithoutIdIsSubseq | js/NoteTaker.js:197 | Filtering out an id keeps the remaining notes in their order. |
| NoteTaker.WithoutId | js/NoteTaker.js:197 | The result holds exactly the notes whose id differs. |
| NoteTaker.WithoutIdAbsent | js/NoteTaker.js:197 | Filtering out an id no note has returns the list unchanged. |
| NoteTaker.WithoutIdRemovesOne | js/NoteTaker.js:197 | With distinct ids, filtering out a present id removes exactly one note. |
| NoteTaker.SubseqIdsValid | js/NoteTaker.js:197 | Dropping notes, order kept, preserves distinct ids below the counter. |
| NoteTaker.IndexOfId | js/NoteTaker.js:122 | `findIndex` gives the first note with the id, or -1 exactly when no note has it. |
| NoteTaker.NoteStore.Filter | js/NoteTaker.js:214-231 | The filtered list becomes the notes matching the lower-cased, trimmed search term and the category; nothing else changes. |
| NoteTaker.FilterNotes | js/NoteTaker.js:221-231 | A note is kept exactly when it matches search and category. |
| NoteTaker.FilterNotesIsSubseq | js/NoteTaker.js:221-231 | The filtered notes keep the list's order. |
| NoteView.SearchIgnoresCase | js/NoteTaker.js:215-226 | Upper-casing the search box or a note's fields does not change whether it matches. |
| NoteView.SearchTerm | js/NoteTaker.js:215-218 | The search term is empty, so every note passes the search, exactly when the box holds only whitespace. |
| NoteView.MatchesSearch | js/NoteTaker.js:221-226 | A note passes the search exactly when the term is empty or occurs at some position of its lower-cased title, content or category. |
| NoteView.MatchesCategory | js/NoteTaker.js:219-228 | With no category chosen every note passes; with one chosen, only notes of exactly that category, case included. |
| NoteView.HasFilters | js/NoteTaker.js:240-244 | Without a raw search or category value every note passes both halves of the filter. A search box holding only whitespace still counts as a filter, although its term is empty. |
| NoteView.IncludesIff | js/NoteTaker.js:224-226 | `includes` holds exactly when the term occurs at some position. |
| NoteTaker.NoteStore.RenderList | js/NoteTaker.js:237-258 | The list shows the filtered notes when a search or category value is present, otherwise all notes. The count line reads back as (shown, total). The empty message appears exactly when nothing is shown, and it is chosen by whether a filter is present. There is one card per shown note, in order. |
| NoteTaker.ShownNotes | js/NoteTaker.js:240-244 | The filtered notes while a raw search or category value is present, otherwise all notes; `NoteStore.RenderList` states what the list then shows. |
| NoteTaker.CardsOf | js/NoteTaker.js:261-296 | One card per note, in order, each built from that note. |
| NoteView.CardOf | js/NoteTaker.js:261-293 | The card carries the note's id and is active exactly for the current note. No card text contains `<`, `>`, `"` or `'`. The title decodes back to the title (or "Untitled Note"), the category to the category, and the preview to the preview text followed by "..." exactly when the content is longer than 120 characters. |
| NoteView.CardPreview | js/NoteTaker.js:263-287 | The preview text is free of `<`, `>`, `"` and `'`, and decodes to the preview followed by "..." exactly when the content was cut. |
| NoteView.PreviewText | js/NoteTaker.js:263-265 | Empty content previews as "No content". Otherwise the preview has the first 120 characters of the content (all of a shorter one), each kept except that a line break becomes a space. |
| NoteView.Flatten | js/NoteTaker.js:264 | Replacing line breaks keeps the length and leaves none. |
| NoteView.EmptyMessage | js/NoteTaker.js:250-257 | The "no match" message appears exactly when a filter is present, the "no notes" message otherwise. |
| NoteMarkup.EscapeHtml | js/NoteTaker.js:315-322 | `escapeHtml`, the five replacements in order; its meaning is stated by `EscapeHtmlIsEscapeEach`, `EscapeHtmlNoSpecials` and `EscapeHtmlRoundTrip`. |
| NoteMarkup.EscapeHtmlNoSpecials | js/NoteTaker.js:315-322 | The escaped text contains none of `<`, `>`, `"` or `'`. |
| NoteMarkup.EscapeHtmlIsEscapeEach | js/NoteTaker.js:315-322 | The five chained replacements, `&` first, equal escaping each character on its own; no entity is escaped twice. |
| NoteMarkup.EscapeHtmlAppend | js/NoteTaker.js:315-322 | Escaping distributes over concatenation. |
| NoteMarkup.EscapeHtmlRoundTrip | js/NoteTaker.js:315-322 | Decoding the escaped text gives the original back. |
| NoteMarkup.EscapeHtmlThenDecode | js/NoteTaker.js:315-322 | Decoding escaped text followed by other text gives the original followed by the decoding of the rest. |
| NoteView.NoteCountText | js/NoteTaker.js:347-354 | The count line, "(n notes)" or "(k of n notes)", reads back as exactly the two numbers. |
| NoteView.ContentStats | js/NoteTaker.js:371-379 | Words are the maximal non-whitespace runs of the content, characters its length, lines one more than its line breaks. |
| NoteView.StatsText | js/NoteTaker.js:381-383 | The statistics line "w words • c characters • l lines" reads back to exactly the three numbers, and starts with the word count in decimal. |
| NoteMarkup.FormatSelection | js/NoteTaker.js:399-429 | An empty selection changes nothing. Otherwise the text before and after the selection is kept, the selection is wrapped in the command's markers (`**`, `*`, `_`, none), and the wrapped text becomes the new selection. |
| NoteMarkup.FormatSelectionUndo | js/NoteTaker.js:399-429 | Removing the markers around the new selection gives back the original text. |
| NoteMarkup.InsertListAsWritten | js/NoteTaker.js:436-447 | The list is inserted at the cursor. The selection starts right after "\n• Item 1", at cursor + 9, and covers the line break there. |
| NoteMarkup.InsertList | js/NoteTaker.js:436-447 | The list is inserted at the cursor with text before and after kept, and the selection is the "1" of the first item. |
| NoteTaker.NoteStore.ReloadFromMemory | js/NoteTaker.js:497-522 | Takes over the saved notes, the counter (0 read as 1) and the current id (0 read as none). Each note's category and timestamps are filled in. The current id is kept only if its note exists, and the editor is then clean. Saved ids that are distinct and below the counter yield both invariants. |
| NoteTaker.RepairAll | js/NoteTaker.js:506-510 | Every saved note is repaired once, even a note listed twice. |
| NoteTaker.Repair | js/NoteTaker.js:507-509 | Missing category becomes "General", missing creation time `now`, missing update time the creation time. |
| NoteTaker.Repaired | js/NoteTaker.js:507-509 | Title and content are kept, and a repaired note has a category and both timestamps. |
| NoteTaker.RepairedIdempotent | js/NoteTaker.js:507-509 | Repairing twice is repairing once, and an existing creation time is kept. |
| NoteTaker.NoteStore.Import | js/NoteTaker.js:588-630 | The outcome is "invalid format" exactly when there is no `notes` array, "no valid notes" exactly when no entry has a string title, and an import otherwise; the first two change nothing. On an import the accepted entries, in order, become new notes with consecutive ids from the counter, and the counter advances by their number. A merge puts them before the old notes and keeps the current note; a replace makes them the whole list and drops the current note. The filtered list becomes the new list, and the id invariant holds. |
| NoteTaker.NoteStore.MintImported | js/NoteTaker.js:597-606 | Each accepted entry, in order, becomes a new note with the next id from the counter and its fields filled in. The counter advances by the number of entries, and nothing else changes. |
| NoteTaker.PrependFreshIds | js/NoteTaker.js:601-622 | Consecutive fresh ids from the counter, put before notes with smaller ids, keep ids distinct and below the new counter. |
| NoteView.Importable | js/NoteTaker.js:597-600 | An entry is kept exactly when it has a string title. |
| NoteView.ImportableIsSubseq | js/NoteTaker.js:597-600 | Accepted entries keep the file's order. |
| NoteView.ImportableCounts | js/NoteTaker.js:597-600 | An entry with a string title is kept as many times as the file lists it; any other entry not at all. |
| NoteView.OrDefault | js/NoteTaker.js:604-606 | The `or` default: a present non-empty value, else the fallback. |
| NoteView.ImportedFields | js/NoteTaker.js:601-607 | An imported note keeps the entry's title, content (empty when missing, as corrected) and timestamps (or `now`); its category is never empty. |
| NoteView.MatchesSearchAsWritten | js/NoteTaker.js:221-226 | On a note without content, the search throws exactly when a term is entered and the title does not contain it. |
| NoteView.ImportedNoteBreaksSearch | js/NoteTaker.js:601-607 | The entry `{title: "a"}` searched for "b" throws as written and is simply not matched when corrected. |
| NoteTaker.NoteStore.ClearAll | js/NoteTaker.js:653-669 | An empty list or a declined confirmation changes nothing. Otherwise there are no notes, no filtered notes, counter 1, no current note and a clean editor. |
| ToDoList.TodoManager.constructor | js/ToDoList.js:2-4 | A new manager has no tasks, because nothing saved is found, and filter "all". |
| ToDoList.TodoManager.AddTask | js/ToDoList.js:40-52 | A blank or whitespace-only entry changes nothing. Otherwise a pending task with the trimmed text, the given id and the creation time is put first, the rest are unchanged, and the input box is emptied. |
| ToDoList.TodoManager.ToggleTask | js/ToDoList.js:57-64 | The list becomes `Toggled` of the old list. |
| ToDoList.Toggled | js/ToDoList.js:57-61 | Only the first task with the id changes: its completed flag flips, and its completion time is set exactly when it is now completed. An unknown id changes nothing. |
| ToDoList.Flip | js/ToDoList.js:60-61 | Flips completed; completion time is present exactly when completed; id, text and creation time kept. |
| ToDoList.FindTask | js/ToDoList.js:58 | `find` picks the first task with the id, or none exactly when no task has it. |
| ToDoList.ToggledCounts | js/ToDoList.js:57-61 | Ticking a task adds one to the completed count; unticking takes one away. |
| ToDoList.ToggledTwice | js/ToDoList.js:57-61 | Toggling the same task twice restores every completed flag. A task never ticked before comes back exactly as it was. |
| ToDoList.TodoManager.DeleteTask | js/ToDoList.js:67-77 | A delete happens exactly when a task with the id is shown in the current view. The list then becomes `WithoutTask` of the old list: exactly the tasks whose id differs, each as many times as before, in order. Otherwise nothing changes. |
| ToDoList.TodoManager.ClearCompleted | js/ToDoList.js:79-90 | Acts exactly when a completed task is shown, and then keeps exactly the pending tasks, in order. In the "pending" view it never acts. |
| ToDoList.Keep | js/ToDoList.js:100-108 | `filter` keeps exactly the tasks that pass, in order, each as many times as the list holds it. |
| ToDoList.Pending | js/ToDoList.js:102-103 | `Keep` with the uncompleted test: exactly the uncompleted tasks, in order, each as often as listed. |
| ToDoList.Completed | js/ToDoList.js:104-105 | `Keep` with the completed test: exactly the completed tasks, in order, each as often as listed. |
| ToDoList.WithoutTask | js/ToDoList.js:72 | `Keep` with the id test: exactly the tasks whose id differs, in order, each as often as listed. |
| ToDoList.PendingCompletedPartition | js/ToDoList.js:103-105 | The pending and completed tasks together are the whole list, each task in exactly one. |
| ToDoList.KeepTwice | js/ToDoList.js:103-105 | Each filter is idempotent; pending tasks hold no completed task and vice versa. |
| ToDoList.TodoManager.SetFilter | js/ToDoList.js:92-98 | Any filter value is taken, and the tasks are unchanged. |
| ToDoList.Filtered | js/ToDoList.js:100-108 | "pending" shows exactly the uncompleted tasks, each as often as in the list; "completed" likewise the completed ones; anything else the whole list; always in order. |
| ToDoList.StatsOf | js/ToDoList.js:111-118 | Total is the list length, completed the number of completed tasks, pending the number of uncompleted ones, and pending plus completed equals total. |
| ToDoList.TodoManager.Stats | js/ToDoList.js:111-118 | `StatsOf` the current tasks, whose contract states the three numbers. |
| ToDoList.ClearedStats | js/ToDoList.js:111-118 | After clearing, no task is completed and the pending count is unchanged. |
| ToDoList.EmptyMessage | js/ToDoList.js:125-141 | In the pending view, the heading is "All caught up!" when tasks exist and "No pending tasks" otherwise. The completed view gets "No completed tasks"; any other filter "No tasks yet". |
| ToDoList.TodoManager.View | js/ToDoList.js:121-147 | The empty panel is shown exactly when the view is empty, with the message for the filter; otherwise the filtered tasks are shown. |
| ToDoList.AllCaughtUpMeaning | js/ToDoList.js:125-133 | The pending view says "All caught up!" exactly when there are tasks and all are completed. |
| ImageConverter.Converter.constructor | js/ImageConverter.js:1-2 | The page loads with no file and no image data; the form holds the values it is given. |
| ImageConverter.CheckFile | js/ImageConverter.js:36-47 | A file is accepted exactly when its type starts with "image/" and its size is at most 10·1024·1024. The type is checked first. |
| ImageConverter.Converter.HandleFile | js/ImageConverter.js:36-61 | A refused file changes nothing. An accepted one becomes the current file and enables conversion; the previous image data stays until the new one loads. |
| ImageConverter.Converter.ImageLoaded | js/ImageConverter.js:70-73 | The reader's result becomes the image data, and nothing else changes. |
| ImageConverter.Converter.ImageReady | js/ImageConverter.js:96-100 | Conversion goes ahead only with a selected file and loaded image data; an empty data URL counts as none; with both present and non-empty it goes ahead. |
| ImageConverter.Converter.Convert | js/ImageConverter.js:96-147 | Refuses unless both a file and non-empty image data are present. Otherwise it encodes to `image/<format>` at the scaled size. The quality is omitted exactly for PNG, else it is the parsed slider over 100. It reports the size estimate of the result, and names the download `converted-image.<format>`. |
| ImageConverter.ScaleToLimit | js/ImageConverter.js:115-122 | With no limit, or an image no wider than it, the size is kept. Otherwise the width becomes the limit and the height is the integer nearest to height·limit/width (halves up), hence no taller. |
| ImageConverter.ScaledBounds | js/ImageConverter.js:119-121 | `Math.round(h · (m / w))` satisfies 2hm − w < 2w·nh ≤ 2hm + w, and is at most h when m < w. |
| ImageConverter.Round | js/ImageConverter.js:121 | `Math.round(x)` lies within a half of x, halves rounded up. |
| ImageConverter.WidthLimit | js/ImageConverter.js:108 | The parsed width, or none: NaN and 0 mean no limit; any other number is the limit. |
| ImageConverter.ParseInt | js/ImageConverter.js:107-108 | `parseInt` is NaN exactly when no digit follows the leading whitespace and optional sign. |
| ImageConverter.ParseIntOf | js/ImageConverter.js:107-108 | Whitespace, an optional sign, digits and then anything not starting with a digit parse as the digits' value, negated after a minus: "1e3" is 1, " 12px" is 12. |
| ImageConverter.ParseIntRoundTrip | js/ImageConverter.js:107-108 | A decimal number, with or without a minus sign, parses back to itself. |
| ImageConverter.QualityArgument | js/ImageConverter.js:138-142 | No quality exactly for "png"; otherwise the slider value over 100, or NaN when it does not parse. |
| ImageConverter.EstimatedSize | js/ImageConverter.js:145-147 | The estimate is the integer nearest to 3/4 of the length after the 22-character prefix, halves up. |
| ImageConverter.EstimatedSizeOfGroups | js/ImageConverter.js:145-147 | A payload of k whole base64 groups is estimated at exactly 3k bytes. |
| ImageConverter.EstimatedSizeMonotone | js/ImageConverter.js:145-147 | A longer data URL never gets a smaller estimate. |
| ImageConverter.Converter.ClearAll | js/ImageConverter.js:261-290 | No file and no image data. The format is back to "jpeg", quality "90" and width "1920", and conversion is disabled. |
| ImageConverter.ClearedSettings | js/ImageConverter.js:277-279 | The reset form reads as JPEG quality 0.9 and a 1920-pixel width limit. |
| ImageConverter.DefaultFormValues | js/ImageConverter.js:278-279 | "90" and "1920" parse to 90 and 1920. |
| TextCaseConverter.ConvertCase | Tooli/js/Productivity/TextCaseConverter.js:1-25 | Every conversion keeps the length. An unknown case type leaves the text unchanged. |
| TextCaseConverter.ConvertCaseIdempotent | Tooli/js/Productivity/TextCaseConverter.js:5-24 | Converting twice to the same case is converting once. |
| TextCaseConverter.UpperProperties | Tooli/js/Productivity/TextCaseConverter.js:6-8 | Upper case keeps the length, leaves no lower-case letter, and is idempotent. |
| TextCaseConverter.LowerProperties | Tooli/js/Productivity/TextCaseConverter.js:9-11 | Lower case keeps the length, leaves no upper-case letter, and is idempotent. |
| TextCaseConverter.TitleCase | Tooli/js/Productivity/TextCaseConverter.js:12-18 | Lower-case, split on " ", capitalise each piece, join; its meaning is stated by `TitleCaseShape` and `TitleCaseIsRef`. |
| TextCaseConverter.TitleCaseShape | Tooli/js/Productivity/TextCaseConverter.js:12-18 | Spaces stay exactly where they were. The first character of each space-separated piece is upper-cased, and every other character lower-cased. |
| TextCaseConverter.TitleCaseIsRef | Tooli/js/Productivity/TextCaseConverter.js:12-18 | Splitting on spaces, capitalising each piece and joining equals the character-by-character reference definition. |
| TextCaseConverter.CapitalizePiecesIsCapAfterSpace | Tooli/js/Productivity/TextCaseConverter.js:15-17 | Capitalising each piece of a split on " " and joining is capitalising each character at the start or after a space. |
| TextCaseConverter.TitleCaseIdempotent | Tooli/js/Productivity/TextCaseConverter.js:12-18 | Title-casing a title-cased text changes nothing. |
| TextCaseConverter.SentenceCase | Tooli/js/Productivity/TextCaseConverter.js:19-23 | Lower-case, then upper-case each match of the sentence-start pattern; its meaning is stated by `SentenceCaseShape` and `PendingIsSentenceStart`. |
| TextCaseConverter.SentenceCaseShape | Tooli/js/Productivity/TextCaseConverter.js:19-23 | The length is kept. A word character is upper-cased exactly when only whitespace precedes it, either from the start of the text or from the last `.`, `!` or `?`. Every other character is lower-cased. |
| TextCaseConverter.PendingIsSentenceStart | Tooli/js/Productivity/TextCaseConverter.js:22 | The left-to-right scan capitalises exactly the word characters that the sentence-start regular expression matches: preceded by whitespace only, from the start or from a `.`, `!` or `?`. |
| TextCaseConverter.SentenceCaseIdempotent | Tooli/js/Productivity/TextCaseConverter.js:19-23 | Sentence-casing a sentence-cased text changes nothing. |
| TextCaseConverter.ClearText | Tooli/js/Productivity/TextCaseConverter.js:27-29 | The text becomes empty. |
| WordCounter.WordCount | js/Productivity/WordCounter.js:9-15 | 0 for blank text, else the non-empty pieces of the trimmed text split on whitespace; `WordCountIsRuns` states that this is the number of non-whitespace runs. |
| WordCounter.WordCountIsRuns | js/Productivity/WordCounter.js:9-15 | The count is the number of maximal runs of non-whitespace characters. |
| WordCounter.WordCountZeroIff | js/Productivity/WordCounter.js:9-11 | The count is 0 exactly when the text is empty or whitespace only. |
| WordCounter.WordCountPadding | js/Productivity/WordCounter.js:9-15 | Leading and trailing whitespace do not change the count. |
| WordCounter.WordCountBound | js/Productivity/WordCounter.js:12-15 | The count never exceeds the number of non-whitespace characters. |
| WordCounter.ClearText | js/Productivity/WordCounter.js:23-25 | The text becomes empty and its count 0. |
| Words.SplitWhitespaceCountsRuns | js/Productivity/WordCounter.js:12-15 | `split(/\s+/)` followed by dropping empty pieces yields one piece per run. |
| Words.RunsOfTrim | js/Productivity/WordCounter.js:10-14 | Trimming neither adds nor removes a run. |
| Words.RunsZeroIff | js/Productivity/WordCounter.js:9-11 | There is no run exactly when the text is whitespace only. |
| CharacterCounter.CharCount | Tooli/js/Productivity/CharacterCounter.js:5-8 | The text's length; `CharCountAppend` and `CharCountZeroIff` state its properties. |
| CharacterCounter.CharCountAppend | Tooli/js/Productivity/CharacterCounter.js:5-8 | The count of a concatenation is the sum of the counts. |
| CharacterCounter.CharCountZeroIff | Tooli/js/Productivity/CharacterCounter.js:5-8 | The count is 0 exactly for the empty text; whitespace counts. |
| CharacterCounter.ClearText | Tooli/js/Productivity/CharacterCounter.js:14-16 | The text becomes empty and its count 0. |
| Text.TrimSplit | js/Productivity/WordCounter.js:10-13 | `trim` removes only whitespace, from both ends, and leaves none at either end. |
| Text.TrimStartOfSpaces | js/ImageConverter.js:107-108 | Skipping leading whitespace, as `parseInt` does, leaves exactly the text after it. |
| Text.TrimIdempotent | js/ToDoList.js:41 | Trimming twice is trimming once. |
| Text.TrimEmptyIff | js/ToDoList.js:41-42 | A text trims to "" exactly when it is whitespace only. |
| Text.JoinSplitOn | Tooli/js/Productivity/TextCaseConverter.js:15-17 | Joining the pieces of a split on one character gives the text back. |
| Text.SplitOnPieces | Tooli/js/Productivity/TextCaseConverter.js:15-17 | No piece of a split on one character contains that character. |
| Text.SplitOnCount | js/NoteTaker.js:379 | A split on one character gives one more piece than there are occurrences of it. |
| Decimal.DigitsRoundTrip | js/NoteTaker.js:350-352 | A number written in decimal reads back as itself. |

## Left out

- Rendering, notifications and save-status text, focus and selection, and
  button enabling (`updateButtonStates`, `updateQualityVisibility`) are left
  out. The note list and the task list are modelled as values saying what
  they show, not as HTML.
- Timers are left out: the one-second autosave debounce, the 30-second
  autosave interval, the `beforeunload` warning and the 300 ms removal
  animations. `TodoManager.DeleteTask` and `TodoManager.ClearCompleted` are
  modelled with their removal already done. `MarkDirty` models only the
  flag that `handleNoteChange` sets.
- Clocks, `Date.now()` task ids and dialog answers are parameters. Two tasks
  may share an id, exactly as in the page. `formatDate`, `toLocaleString` and
  `formatFileSize`, which use floating-point logarithms, are left out.
- `saveNotesToMemory`, `saveTasks`, `loadTasks`, `exportNotes` and the JSON
  text of imports are left out; an import is modelled from its parsed
  document. `loadTasks` finds nothing at construction, which the
  constructor models. `loadNotesFromMemory` is modelled as
  `ReloadFromMemory` for when a saved state exists; its exception handler is
  not modelled.
- `handleFileImport`'s check of the file name and type happens before
  parsing and is not modelled. The keyboard shortcuts, `insertDate`,
  `addSampleNotes`, `showNoteEditor`'s filling of the form, the QR code
  generator, the header and the FAQ accordion are not part of this model.
- The image converter's drag and drop, file reading, decoding, canvas
  drawing and `toDataURL` encoding are left out. The decoded size and the
  length of the encoded data URL are parameters.
- ImageConverter.ScaleToLimit: computes in exact rational arithmetic rather
  than floating point, so a height whose exact value is a rounding boundary
  may round differently in the page. It assumes the decoded image is at
  least one pixel wide.
- ImageConverter.ParseInt: does not model hexadecimal `0x` prefixes or
  non-ASCII whitespace.
- ImageConverter.EstimatedSize: discounts 22 characters as the page does,
  although a JPEG data URL's prefix has 23.
- NoteTaker.NoteStore.ClearAll: the page also empties the search box and
  the category filter. They are parameters of the list view here, so that
  reset is not modelled.
- ToDoList.TodoManager.ToggleTask: tasks are values in a sequence, and the
  toggled one is replaced rather than updated in place; nothing else refers
  to a task. A missing `completedAt` and a `null` one are both `None`.
- The ToDoList `escapeHtml` goes through the DOM and is not modelled.
- TextCaseConverter.ConvertCase: case mapping, `\s` and `\w` are ASCII only;
  other characters are carried unchanged.
- CharacterCounter.CharCountAppend: counts characters of the model's
  strings. A character outside the Basic Multilingual Plane is two UTF-16
  units in the page.
- NoteView.PreviewText: takes the first 120 characters, where
  `substring(0, 120)` takes 120 UTF-16 units and can split a character
  outside the Basic Multilingual Plane in two.
- NoteView.ContentStats: the character count is the number of
  characters, where `content.length` counts UTF-16 units.
- NoteTaker.NoteStore.Import: an entry's content and category are a string
  or missing. The page checks only the title's type, and the `...note`
  spread keeps any other truthy value. A number as category or content
  passes the import, and the notes are replaced. The list render then
  throws in `escapeHtml` or `substring` and catches the error itself: the
  list shows its error panel, and the import still reports success. None
  of this is modelled.
  The store also fills missing content with "" (`ImportedFields`), the
  corrected behaviour of the last Findings row, rather than the page's
  missing content.

## Findings

| source | as written | input that shows it | evidently intended | confidence | as-written member | corrected member |
|---|---|---|---|---|---|---|
| js/NoteTaker.js:446-447 | The selection after inserting a list starts at cursor + 9. That is the line break after "• Item 1", not the "1" the comment names. | Any content with the cursor at 0: the selection is `"\n"`. | Select `[cursor + 8, cursor + 9)`, the "1". | high, not executed | NoteMarkup.InsertListAsWritten | NoteMarkup.InsertList |
| js/NoteTaker.js:197 | `deleteNote` removes the note from `notes` only. While a search or category filter is entered, the list shows `filteredNotes`, which still holds the deleted note. | Notes `[n]`, search "a" matching `n`, filter applied, then delete `n`, confirmed: its card is still shown. | Remove the note from `filteredNotes` as well. | medium, not executed | NoteTaker.DeleteAsWrittenLeavesCard | NoteTaker.NoteStore.Delete |
| js/NoteTaker.js:601-607 | Imported entries keep whatever content they have, and none is defaulted. `filterNotes` then calls `toLowerCase` on the missing content. | Import `{"notes": [{"title": "a"}]}`, then search "b": the filter throws. | Default the content to "", as `category` is defaulted. | medium, not executed | NoteView.ImportedNoteBreaksSearch | NoteView.ImportedFields |
