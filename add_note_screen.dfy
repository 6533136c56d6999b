// The add-note screen: two text fields and a guarded submit that hands the
// trimmed fields to `onAddNote` and then navigates back.
module AddNoteScreen {
  import opened Text
  import opened Notes
  import opened Forms

  /** The callbacks `handleAddNote` invokes for the given field values:
      nothing when the content is blank; otherwise `onAddNote` once with the
      trimmed title and content, then `onNavigateBack`. */
  function AddNoteEffects(title: string, content: string): (r: seq<Effect>)
    ensures r == [] <==> IsBlank(content)
    ensures r != [] ==> |r| == 2 && r[0].AddNote? && r[1] == NavigateBack
    ensures r != [] ==> r[0].content == Trim(content) && r[0].title == Trim(title)
    ensures r != [] ==> r[0].content != [] && IsTrimmed(r[0].content) && IsTrimmed(r[0].title)
  {
    if SubmitDisabled(content) then []
    else [AddNote(Trim(title), Trim(content)), NavigateBack]
  }

  /** A blank title does not block adding: the note is added with the empty
      title. */
  lemma BlankTitleIsAdded(title: string, content: string)
    requires IsBlank(title) && !IsBlank(content)
    ensures AddNoteEffects(title, content)[0] == AddNote("", Trim(content))
  {
  }

  /** The screen's state: the two fields, and the callbacks invoked so far,
      in order. */
  class Form {
    var title: string
    var content: string
    var effects: seq<Effect>

    /** Both fields start empty, so the Save button starts disabled. */
    constructor ()
      ensures title == "" && content == "" && effects == []
      ensures SaveDisabled()
    {
      title, content, effects := "", "", [];
    }

    /** `disabled={!content.trim()}` on the Save button. */
    predicate SaveDisabled()
      reads this
    {
      SubmitDisabled(content)
    }

    /** `setTitle`, from typing in the title field. */
    method SetTitle(t: string)
      modifies this
      ensures title == t && content == old(content) && effects == old(effects)
    {
      title := t;
    }

    /** `setContent`, from typing in the content field. */
    method SetContent(c: string)
      modifies this
      ensures content == c && title == old(title) && effects == old(effects)
    {
      content := c;
    }

    /** `handleAddNote`: emits `AddNoteEffects` for the current fields and
        leaves the fields as they are; with the button disabled it emits
        nothing. */
    method HandleAddNote()
      modifies this
      ensures title == old(title) && content == old(content)
      ensures effects == old(effects) + AddNoteEffects(title, content)
      ensures old(SaveDisabled()) <==> effects == old(effects)
    {
      if Trim(content) != [] {
        effects := effects + [AddNote(Trim(title), Trim(content))];
        effects := effects + [NavigateBack];
      }
    }

    /** The back arrow: navigates back without adding anything. */
    method PressBack()
      modifies this
      ensures title == old(title) && content == old(content)
      ensures effects == old(effects) + [NavigateBack]
    {
      effects := effects + [NavigateBack];
    }
  }

  /** Submitting before anything is typed invokes no callback. */
  method SubmitBeforeInput() returns (effects: seq<Effect>)
    ensures effects == []
  {
    var form := new Form();
    form.HandleAddNote();
    effects := form.effects;
  }
}
