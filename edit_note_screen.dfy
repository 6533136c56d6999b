// The edit-note screen: two text fields seeded from the note being edited
// and reset whenever that note changes, and a guarded submit that hands the
// note's id and the trimmed fields to `onUpdateNote`, then navigates back.
module EditNoteScreen {
  import opened Text
  import opened Notes
  import opened Forms

  /** The callbacks `handleUpdateNote` invokes for the note's id and the
      given field values: nothing when the content is blank; otherwise
      `onUpdateNote` once with that id and the trimmed title and content,
      then `onNavigateBack`. */
  function UpdateNoteEffects(id: string, title: string, content: string): (r: seq<Effect>)
    ensures r == [] <==> IsBlank(content)
    ensures r != [] ==> |r| == 2 && r[0].UpdateNote? && r[1] == NavigateBack
    ensures r != [] ==> r[0].id == id && r[0].content == Trim(content) && r[0].title == Trim(title)
    ensures r != [] ==> r[0].content != [] && IsTrimmed(r[0].content) && IsTrimmed(r[0].title)
  {
    if SubmitDisabled(content) then []
    else [UpdateNote(id, Trim(title), Trim(content)), NavigateBack]
  }

  /** Submitting without touching the fields hands on the note's own text,
      trimmed, under the note's own id. */
  lemma UnchangedFieldsResubmit(note: Note)
    requires !IsBlank(note.content)
    ensures UpdateNoteEffects(note.id, note.title, note.content)[0]
            == UpdateNote(note.id, Trim(note.title), Trim(note.content))
  {
  }

  /** The screen's state: the note it was given, the two fields, and the
      callbacks invoked so far, in order. */
  class Form {
    var note: Note
    var title: string
    var content: string
    var effects: seq<Effect>

    /** The fields start as the note's title and content. */
    constructor (n: Note)
      ensures note == n && title == n.title && content == n.content && effects == []
    {
      note, title, content, effects := n, n.title, n.content, [];
    }

    /** `disabled={!content.trim()}` on the Update button. */
    predicate UpdateDisabled()
      reads this
    {
      SubmitDisabled(content)
    }

    /** A new `note` prop, and the `useEffect` on `[note]` that follows: both
        fields are reset to the new note's title and content, discarding
        whatever was typed. */
    method NoteChanged(n: Note)
      modifies this
      ensures note == n && title == n.title && content == n.content
      ensures effects == old(effects)
    {
      note := n;
      title := n.title;
      content := n.content;
    }

    /** `setTitle`, from typing in the title field. */
    method SetTitle(t: string)
      modifies this
      ensures title == t && content == old(content)
      ensures note == old(note) && effects == old(effects)
    {
      title := t;
    }

    /** `setContent`, from typing in the content field. */
    method SetContent(c: string)
      modifies this
      ensures content == c && title == old(title)
      ensures note == old(note) && effects == old(effects)
    {
      content := c;
    }

    /** `handleUpdateNote`: emits `UpdateNoteEffects` for the note's id and
        the current fields; the id is always that of the note the screen
        was given, whatever was typed. */
    method HandleUpdateNote()
      modifies this
      ensures note == old(note) && title == old(title) && content == old(content)
      ensures effects == old(effects) + UpdateNoteEffects(note.id, title, content)
      ensures old(UpdateDisabled()) <==> effects == old(effects)
    {
      if Trim(content) != [] {
        effects := effects + [UpdateNote(note.id, Trim(title), Trim(content))];
        effects := effects + [NavigateBack];
      }
    }

    /** The back arrow and the Cancel button: navigate back without
        updating. */
    method Cancel()
      modifies this
      ensures note == old(note) && title == old(title) && content == old(content)
      ensures effects == old(effects) + [NavigateBack]
    {
      effects := effects + [NavigateBack];
    }
  }
}
