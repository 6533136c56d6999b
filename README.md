# Notepad: note-list persistence, search and form guards in Dafny

This project models the note-handling core of a React Native notepad
application. Notes (`id`, `title`, `content`, `createdAt`, `updatedAt`) are
kept, serialized, as one JSON array under a single storage key. The core has
three parts:

- **The persistence service** (`storageService`). `saveNotes` overwrites the
  slot, and `loadNotes` reads it back with the dates revived. The operations
  `addNote`, `deleteNote` and `updateNote` are each a full load, one list
  transformation and a full save. The transformations are spread-prepend,
  `filter` by id and `map` replace-by-id.
- **The notes list screen.** It filters by case-insensitive substring search
  over title and content. It also has the delete confirmation dialog and what
  the screen shows (header count, empty state, rendered list).
- **The add and edit screens.** They hold a title and a content field. Submit
  is guarded by "content is not blank once trimmed", and it hands the trimmed
  fields to the owner's callback, then navigates back.

Files:

- `notes.dfy`: the `Note` record, the callbacks a screen can invoke (`Effect`), and the `Option`/`Result`/`Outcome` wrappers.
- `text.dfy`: `trim` (the ECMAScript whitespace set), `toLowerCase` (ASCII) and `includes`.
- `note_list.dfy`: the three list transformations as functions, with their laws.
- `storage_service.dfy`: a class whose field `slot` is the storage entry; one method per service operation.
- `notes_screen.dfy`: the search filter, the delete dialog and the screen's view.
- `forms.dfy`, `add_note_screen.dfy`, `edit_note_screen.dfy`: the shared content guard, and one class per screen. Each class holds the fields and the sequence of callbacks invoked so far.

Storage faults are parameters of each call. `readFails` stands for
`AsyncStorage.getItem` rejecting or the blob not parsing. `writeFails` stands
for `setItem` rejecting. A fault is reported as that operation's own error
(`StorageError`, whose `Message()` is the text the code throws).

Facts about the code that the model keeps:

- `updateNote` replaces every note carrying the id, not only the first (the `map` at storsgeService.ts:66-68).
- `deleteNote` removes every note carrying the id (the `filter` at storsgeService.ts:54).
- Each operation throws its own message (storsgeService.ts:14, 34, 46, 58, 72).
- The service stores the note it is given whole (storsgeService.ts:67). Keeping `id` and `createdAt` on an edit is up to the caller that builds that note.

## Model

| member | source | states |
|---|---|---|
| `Text.Trim` | notepad-frontend/screens/AddNoteScreen.tsx:18 | `trim` returns a slice of its input with only whitespace cut at each end. The result has no edge whitespace, and it is empty iff the input is blank. |
| `Text.TrimIdempotent` | notepad-frontend/screens/AddNoteScreen.tsx:18-19 | Trimming an already trimmed string changes nothing. |
| `Text.ToLower` | notepad-frontend/screens/NotesScreen.tsx:45-48 | `toLowerCase` over ASCII letters: the length is kept, each upper-case ASCII letter becomes its own lower-case letter (so none remains), and every other character is unchanged. |
| `Text.ToLowerIdempotent` | notepad-frontend/screens/NotesScreen.tsx:45-48 | Lowercasing an already lowercased string changes nothing, so the lowercased query is compared against lowercased text on equal terms. |
| `Text.Contains` | notepad-frontend/screens/NotesScreen.tsx:47-48 | `includes` is true iff the query occurs at some index of the string. |
| `NoteList.Prepend` | notepad/services/storsgeService.ts:42 | The new note is element 0, the length grows by one, and the tail is the old list. |
| `NoteList.PrependKeepsDuplicates` | notepad/services/storsgeService.ts:41-43 | Adding does not deduplicate: the count of notes with the new note's id grows by exactly one. |
| `NoteList.RemoveById` | notepad/services/storsgeService.ts:54 | The result is an order-preserving subsequence. No note with the id remains, every note with another id is kept, and a missing id leaves the list unchanged. |
| `NoteList.RemoveByIdLength` | notepad/services/storsgeService.ts:54 | The length drops by exactly the number of notes carrying the id. |
| `NoteList.RemoveByIdIdempotent` | notepad/services/storsgeService.ts:54 | Deleting an id twice gives the same list as deleting it once. |
| `NoteList.RemoveUndoesPrepend` | notepad/services/storsgeService.ts:41-55 | Deleting the id of a just-added note whose id was new gives back the list from before the add. |
| `NoteList.ReplaceById` | notepad/services/storsgeService.ts:66-68 | Length and positions are kept. Every element whose id matches (all of them) becomes the update, and every other element is unchanged. |
| `NoteList.ReplaceMissingIsNoop` | notepad/services/storsgeService.ts:66-68 | An update whose id is absent leaves the list unchanged. |
| `NoteList.ReplaceKeepsIds` | notepad/services/storsgeService.ts:66-68 | The sequence of ids is the same before and after an update. |
| `NoteList.ReplaceIdempotent` | notepad/services/storsgeService.ts:66-68 | Applying the same update twice equals applying it once. |
| `NoteList.RemoveAfterReplace` | notepad/services/storsgeService.ts:53-68 | Deleting an id after updating it equals deleting it directly. |
| `StorageService.Serialize` | notepad/services/storsgeService.ts:10 | `JSON.stringify` writes one stored record per note, in order, each the note's encoding. |
| `StorageService.Revive` | notepad/services/storsgeService.ts:25-29 | Reviving a stored record gives the note whose encoding is exactly that record. |
| `StorageService.Deserialize` | notepad/services/storsgeService.ts:23-29 | `JSON.parse` plus the date-reviving `map` gives one note per stored record, in order, each that record revived. |
| `StorageService.RoundTrip` | notepad/services/storsgeService.ts:8-29 | Loading what was saved gives the same notes, timestamps included. |
| `StorageService.Storage.SaveNotes` | notepad/services/storsgeService.ts:8-16 | On success the slot holds the serialized notes, whatever it held before (last write wins), and it loads back as those notes. On a write failure the error is "Failed to save notes" and the slot is unchanged. |
| `StorageService.Storage.LoadNotes` | notepad/services/storsgeService.ts:19-36 | An empty slot loads as `[]`, not an error. A stored blob loads as its notes with dates revived. A read failure gives "Failed to load notes". |
| `StorageService.Storage.AddNote` | notepad/services/storsgeService.ts:39-48 | On success the stored list is `[note] + old`. If the load or the save fails, the slot is unchanged and the error is "Failed to add note". |
| `StorageService.Storage.DeleteNote` | notepad/services/storsgeService.ts:51-60 | On success the stored list is the old one without the id. If the load or the save fails, the slot is unchanged and the error is "Failed to delete note". |
| `StorageService.Storage.UpdateNote` | notepad/services/storsgeService.ts:63-74 | On success the stored list is the old one with every note carrying the id replaced. If the load or the save fails, the slot is unchanged and the error is "Failed to update note". |
| `StorageService.DeleteTwice` | notepad/services/storsgeService.ts:51-60 | Two successful deletes of the same id leave the same stored notes as one. |
| `NotesScreen.Matches` | notepad-frontend/screens/NotesScreen.tsx:47-48 | A note matches iff the (lowercased) query occurs in its lowercased title or in its lowercased content; the empty query matches every note. |
| `NotesScreen.FilteredNotes` | notepad-frontend/screens/NotesScreen.tsx:42-50 | A blank query gives exactly `notes`. Otherwise the result is an order-preserving subsequence, a note is kept iff its lowercased title or content contains the lowercased, untrimmed query, and its length is the number of matching notes, so every matching occurrence is kept. |
| `NotesScreen.CaseInsensitive` | notepad-frontend/screens/NotesScreen.tsx:43-48 | Two queries that differ only in letter case give the same result. |
| `NotesScreen.QueryIsNotTrimmed` | notepad-frontend/screens/NotesScreen.tsx:43-45 | A non-blank query keeps its spaces: "milk" finds content "milk", and " milk" does not. |
| `NotesScreen.SearchExample` | notepad-frontend/screens/NotesScreen.tsx:42-50 | Over "Shopping"/"milk" and "Work"/"report", "mil" keeps only the first note and "" keeps both, in order. |
| `NotesScreen.ConfirmationMessage` | notepad-frontend/screens/NotesScreen.tsx:24 | The question is the fixed 33-character prefix, the title (or "this note" when the title is empty), and a closing `"?`. |
| `NotesScreen.ConfirmationNamesNote` | notepad-frontend/screens/NotesScreen.tsx:24 | The confirmation question names the note's title, or "this note" when the title is empty. |
| `NotesScreen.DeleteDialogEffects` | notepad-frontend/screens/NotesScreen.tsx:21-37 | Only the Delete button invokes `onDeleteNote`, exactly once, with the tapped note's id. Cancel invokes nothing. |
| `NotesScreen.ConfirmedDeleteRemovesNote` | notepad-frontend/screens/NotesScreen.tsx:86 | The id a confirmed delete hands on, applied to the collection, removes the tapped note and keeps every note with another id. |
| `NotesScreen.EmptyState` | notepad-frontend/screens/NotesScreen.tsx:134-144 | No empty state iff the filtered list is non-empty. "No notes found" iff it is empty and the raw query is non-empty; "No notes yet" iff it is empty and the query is "". |
| `NotesScreen.RenderAsWritten` | notepad-frontend/screens/NotesScreen.tsx:104-153 | The header counts all `notes`. The empty state shows iff `filteredNotes` is empty, and reads "No notes found" iff the raw query is non-empty. Otherwise the list renders the full `notes`. |
| `NotesScreen.RenderedListIgnoresSearch` | notepad-frontend/screens/NotesScreen.tsx:147-148 | As written, the query "mil" still lists "Work"/"report", which does not match. |
| `NotesScreen.Render` | notepad-frontend/screens/NotesScreen.tsx:134-153 | Corrected view: the list is exactly `FilteredNotes(notes, searchQuery)`, the header counts all notes, and the empty state shows iff that list is empty. |
| `NotesScreen.RenderListsOnlyMatches` | notepad-frontend/screens/NotesScreen.tsx:134-148 | In the corrected view, "mil" lists only "Shopping"/"milk". |
| `Forms.SubmitDisabled` | notepad-frontend/screens/AddNoteScreen.tsx:66 | `!content.trim()` (also AddNoteScreen.tsx:18 and EditNoteScreen.tsx:26, 80) holds iff the content is blank. |
| `Forms.SubmittedContent` | notepad-frontend/screens/AddNoteScreen.tsx:18-19 | Content that passes the guard is handed on non-empty, with no leading or trailing whitespace. |
| `AddNoteScreen.AddNoteEffects` | notepad-frontend/screens/AddNoteScreen.tsx:17-22 | Blank content invokes nothing. Otherwise `onAddNote(title.trim(), content.trim())` is invoked once, then `onNavigateBack`. |
| `AddNoteScreen.BlankTitleIsAdded` | notepad-frontend/screens/AddNoteScreen.tsx:19 | A blank title does not block adding: it is handed on as the empty string. |
| `AddNoteScreen.Form.constructor` | notepad-frontend/screens/AddNoteScreen.tsx:14-15 | Both fields start empty, so Save starts disabled. |
| `AddNoteScreen.Form.SetTitle` | notepad-frontend/screens/AddNoteScreen.tsx:42 | Typing a title changes only the title. |
| `AddNoteScreen.Form.SetContent` | notepad-frontend/screens/AddNoteScreen.tsx:52 | Typing content changes only the content. |
| `AddNoteScreen.Form.HandleAddNote` | notepad-frontend/screens/AddNoteScreen.tsx:17-22 | Emits `AddNoteEffects` of the current fields. It emits nothing iff the Save button (line 66) is disabled. |
| `AddNoteScreen.Form.PressBack` | notepad-frontend/screens/AddNoteScreen.tsx:30 | The back arrow navigates back without adding. |
| `AddNoteScreen.SubmitBeforeInput` | notepad-frontend/screens/AddNoteScreen.tsx:14-22 | Submitting before any input invokes nothing. |
| `EditNoteScreen.UpdateNoteEffects` | notepad-frontend/screens/EditNoteScreen.tsx:25-30 | Blank content invokes nothing. Otherwise `onUpdateNote(id, title.trim(), content.trim())` is invoked once, then `onNavigateBack`. |
| `EditNoteScreen.UnchangedFieldsResubmit` | notepad-frontend/screens/EditNoteScreen.tsx:17-28 | Submitting untouched fields hands on the note's own id and its trimmed title and content. |
| `EditNoteScreen.Form.constructor` | notepad-frontend/screens/EditNoteScreen.tsx:17-18 | The fields start as `note.title` and `note.content`. |
| `EditNoteScreen.Form.NoteChanged` | notepad-frontend/screens/EditNoteScreen.tsx:20-23 | A new `note` resets both fields to its title and content. Nothing is invoked. |
| `EditNoteScreen.Form.SetTitle` | notepad-frontend/screens/EditNoteScreen.tsx:50 | Typing a title changes only the title; the note is kept. |
| `EditNoteScreen.Form.SetContent` | notepad-frontend/screens/EditNoteScreen.tsx:59 | Typing content changes only the content; the note is kept. |
| `EditNoteScreen.Form.HandleUpdateNote` | notepad-frontend/screens/EditNoteScreen.tsx:25-30 | Emits `UpdateNoteEffects` for the original note's id and the current fields. It emits nothing iff the Update button (line 80) is disabled. |
| `EditNoteScreen.Form.Cancel` | notepad-frontend/screens/EditNoteScreen.tsx:69-75 | Cancel, like the back arrow at line 38, navigates back without invoking `onUpdateNote`. |

## Findings

| source | as written | input that shows it | evidently intended | confidence | as-written member | corrected member |
|---|---|---|---|---|---|---|
| notepad-frontend/screens/NotesScreen.tsx:148 | The list is given `data={notes}`, so a search never narrows what is listed. Only the empty state reacts to the query. | Notes "Shopping"/"milk" and "Work"/"report" with the query "mil". Both are listed, though only the first matches. | The list renders `filteredNotes`, which the empty-state test at line 134 already uses. | high; not executed | `NotesScreen.RenderedListIgnoresSearch` (over `NotesScreen.RenderAsWritten`) | `NotesScreen.RenderListsOnlyMatches` (over `NotesScreen.Render`) |

## Left out

- `AsyncStorage` I/O and JSON text. The slot holds the stored records directly. A `Date` in its ISO-8601 form is a wrapper around its millisecond value. Malformed blobs, records of another shape, and `new Date(string)` parsing are not modelled. A read, parse or write failure is the `readFails`/`writeFails` parameter.
- Dates are integer milliseconds. An invalid `Date`, which `JSON.stringify` writes as `null` and which loads back as the epoch, cannot arise in the model.
- `async`/`await`, Promises and `console.error`. Each operation runs to completion and ends in success or its one error. Interleaved read-modify-write calls from concurrent callers are not modelled.
- `Text.ToLower`: lowercases ASCII letters only. Full Unicode `toLowerCase`, including mappings that change string length, is not modelled.
- `Text.Trim`: strips exactly the ECMAScript WhiteSpace and LineTerminator code points, as listed in `IsWhitespace`. Strings are sequences of Unicode scalar values, not UTF-16 code units.
- Rendering, styles, the `Alert` dialog UI, `FlatList`, the search field's clear button, and the locale-dependent date text (NotesScreen.tsx lines 70-74). The delete dialog is modelled only by the callback each button invokes.
- The navigation callbacks `onEditNote`, `onNavigateToHome` and `onNavigateToAddNote` only dispatch, so they are not modelled.
- React scheduling. `EditNoteScreen.Form.NoteChanged` is the `note` prop changing identity together with the effect that runs after it. A re-render with the same note object runs no effect, so it needs no method.
- The controller that owns the note list is not part of this model. It generates ids, stamps `createdAt`/`updatedAt`, turns the screens' callbacks into service calls, and switches between the `Screen` values of `types/index.ts`. The `Screen` union is not modelled either.
- `HomeScreen.tsx`, `LoadingScreen.tsx` and `app/index.tsx` hold only navigation and branding.
