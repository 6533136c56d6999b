// The persistence service: the whole note collection lives, serialized, in
// one key-value storage slot. Every mutating operation is a full load, one
// list transformation, and a full save.
module StorageService {
  import opened Wrappers
  import opened Notes
  import NoteList

  /** The single key under which the collection is stored. */
  const NotesKey: string := "@notepad_notes"

  /** A `Date` as `JSON.stringify` writes it: an ISO-8601 string carrying
      the instant to the millisecond. */
  datatype IsoDate = IsoDate(millis: int)

  /** A note as it sits in the stored JSON array: the text fields as they
      are, the two dates in their string form. */
  datatype StoredNote = StoredNote(
    id: string,
    title: string,
    content: string,
    createdAt: IsoDate,
    updatedAt: IsoDate)

  /** The error each operation rethrows; the original cause is dropped. */
  datatype StorageError = SaveFailed | LoadFailed | AddFailed | DeleteFailed | UpdateFailed
  {
    function Message(): string {
      match this
      case SaveFailed => "Failed to save notes"
      case LoadFailed => "Failed to load notes"
      case AddFailed => "Failed to add note"
      case DeleteFailed => "Failed to delete note"
      case UpdateFailed => "Failed to update note"
    }
  }

  function Encode(n: Note): StoredNote {
    StoredNote(n.id, n.title, n.content, IsoDate(n.createdAt), IsoDate(n.updatedAt))
  }

  /** `{...note, createdAt: new Date(note.createdAt), updatedAt: new Date(note.updatedAt)}` */
  function Revive(s: StoredNote): (n: Note)
    ensures Encode(n) == s
  {
    Note(s.id, s.title, s.content, s.createdAt.millis, s.updatedAt.millis)
  }

  /** `JSON.stringify(notes)`, one stored record per note, in order. */
  function Serialize(notes: seq<Note>): (blob: seq<StoredNote>)
    ensures |blob| == |notes|
    ensures forall i :: 0 <= i < |notes| ==> blob[i] == Encode(notes[i])
  {
    if notes == [] then [] else [Encode(notes[0])] + Serialize(notes[1..])
  }

  /** `JSON.parse(blob).map(...)`, reviving the dates of every record. */
  function Deserialize(blob: seq<StoredNote>): (notes: seq<Note>)
    ensures |notes| == |blob|
    ensures forall i :: 0 <= i < |blob| ==> notes[i] == Revive(blob[i])
  {
    if blob == [] then [] else [Revive(blob[0])] + Deserialize(blob[1..])
  }

  /** Saving and loading back gives the same notes, dates included. */
  lemma {:induction false} RoundTrip(notes: seq<Note>)
    ensures Deserialize(Serialize(notes)) == notes
  {
    if notes != [] {
      RoundTrip(notes[1..]);
      assert Serialize(notes)[1..] == Serialize(notes[1..]);
    }
  }

  /** The notes a slot holds: none when nothing was ever stored. */
  function Contents(slot: Option<seq<StoredNote>>): seq<Note> {
    match slot
    case None => []
    case Some(blob) => Deserialize(blob)
  }

  /** The service over its one storage slot, the entry under `NotesKey`
      that every operation reads and writes. A failing storage read or write
      (`AsyncStorage.getItem`/`setItem` rejecting, or the blob not parsing)
      is a parameter of each call. */
  class Storage {
    var slot: Option<seq<StoredNote>>

    /** Storage in which nothing has been saved yet. */
    constructor ()
      ensures slot == None && Notes() == []
    {
      slot := None;
    }

    /** The notes a successful `loadNotes` would return now. */
    function Notes(): seq<Note>
      reads this
    {
      Contents(slot)
    }

    /** `saveNotes`: overwrites the slot with `notes`, whatever it held
        before; a failed write leaves it alone. */
    method SaveNotes(notes: seq<Note>, writeFails: bool) returns (r: Outcome<StorageError>)
      modifies this
      ensures writeFails ==> r == Fail(SaveFailed) && slot == old(slot)
      ensures !writeFails ==> r == Pass && slot == Some(Serialize(notes))
      ensures !writeFails ==> Notes() == notes
    {
      if writeFails {
        r := Fail(SaveFailed);
      } else {
        slot := Some(Serialize(notes));
        RoundTrip(notes);
        r := Pass;
      }
    }

    /** `loadNotes`: the stored notes with their dates revived, the empty
        list when nothing is stored, and a failure when the read fails. */
    method LoadNotes(readFails: bool) returns (r: Result<seq<Note>, StorageError>)
      ensures readFails ==> r == Failure(LoadFailed)
      ensures !readFails && slot == None ==> r == Success([])
      ensures !readFails && slot.Some? ==> r == Success(Deserialize(slot.value))
    {
      if readFails {
        r := Failure(LoadFailed);
      } else if slot.Some? {
        r := Success(Deserialize(slot.value));
      } else {
        r := Success([]);
      }
    }

    /** `addNote`: load, prepend, save. If the load fails the save is never
        attempted; either failure leaves the slot as it was and is reported
        as the operation's own error. */
    method AddNote(note: Note, readFails: bool, writeFails: bool) returns (r: Outcome<StorageError>)
      modifies this
      ensures r == (if readFails || writeFails then Fail(AddFailed) else Pass)
      ensures r.Fail? ==> slot == old(slot)
      ensures r.Pass? ==> slot == Some(Serialize(NoteList.Prepend(note, old(Notes()))))
      ensures r.Pass? ==> Notes() == NoteList.Prepend(note, old(Notes()))
    {
      var loaded := LoadNotes(readFails);
      if loaded.Failure? {
        return Fail(AddFailed);
      }
      var saved := SaveNotes(NoteList.Prepend(note, loaded.value), writeFails);
      r := if saved.Fail? then Fail(AddFailed) else Pass;
    }

    /** `deleteNote`: load, drop every note with `id`, save. */
    method DeleteNote(id: string, readFails: bool, writeFails: bool) returns (r: Outcome<StorageError>)
      modifies this
      ensures r == (if readFails || writeFails then Fail(DeleteFailed) else Pass)
      ensures r.Fail? ==> slot == old(slot)
      ensures r.Pass? ==> slot == Some(Serialize(NoteList.RemoveById(old(Notes()), id)))
      ensures r.Pass? ==> Notes() == NoteList.RemoveById(old(Notes()), id)
    {
      var loaded := LoadNotes(readFails);
      if loaded.Failure? {
        return Fail(DeleteFailed);
      }
      var saved := SaveNotes(NoteList.RemoveById(loaded.value, id), writeFails);
      r := if saved.Fail? then Fail(DeleteFailed) else Pass;
    }

    /** `updateNote`: load, replace every note whose id is `updated.id`,
        save. */
    method UpdateNote(updated: Note, readFails: bool, writeFails: bool) returns (r: Outcome<StorageError>)
      modifies this
      ensures r == (if readFails || writeFails then Fail(UpdateFailed) else Pass)
      ensures r.Fail? ==> slot == old(slot)
      ensures r.Pass? ==> slot == Some(Serialize(NoteList.ReplaceById(old(Notes()), updated)))
      ensures r.Pass? ==> Notes() == NoteList.ReplaceById(old(Notes()), updated)
    {
      var loaded := LoadNotes(readFails);
      if loaded.Failure? {
        return Fail(UpdateFailed);
      }
      var saved := SaveNotes(NoteList.ReplaceById(loaded.value, updated), writeFails);
      r := if saved.Fail? then Fail(UpdateFailed) else Pass;
    }
  }

  /** Deleting the same id twice in a row stores the same list as deleting
      it once. */
  method DeleteTwice(s: Storage, id: string)
    modifies s
    ensures s.Notes() == NoteList.RemoveById(old(s.Notes()), id)
  {
    var first := s.DeleteNote(id, false, false);
    var second := s.DeleteNote(id, false, false);
    NoteList.RemoveByIdIdempotent(old(s.Notes()), id);
  }
}
