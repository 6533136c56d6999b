// The content guard the add and edit screens share: a note may be submitted
// only when its content is not blank once trimmed; the title may be empty.
module Forms {
  import opened Text

  /** `!content.trim()`: the submit button is disabled, and pressing submit
      does nothing, exactly when the content is blank. */
  predicate SubmitDisabled(content: string)
    ensures SubmitDisabled(content) <==> IsBlank(content)
  {
    Trim(content) == []
  }

  /** What a screen hands on for a submitted field: the field trimmed. A
      submittable content is never empty and has no surrounding whitespace. */
  lemma SubmittedContent(content: string)
    requires !SubmitDisabled(content)
    ensures Trim(content) != [] && IsTrimmed(Trim(content)) && !IsBlank(content)
  {
  }
}
