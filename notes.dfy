// Failure-carrying results used by the persistence service.
module Wrappers {

  datatype Option<+T> = None | Some(value: T)

  datatype Result<+R, +E> = Success(value: R) | Failure(error: E)

  datatype Outcome<+E> = Pass | Fail(error: E)
}

// The shared record type of the application and the callbacks the screens
// invoke on their owner.
module Notes {

  /** A note. `createdAt` and `updatedAt` are `Date`s in the application;
      here they are milliseconds since the epoch. */
  datatype Note = Note(
    id: string,
    title: string,
    content: string,
    createdAt: int,
    updatedAt: int)

  /** One invocation of a callback prop: `onAddNote(title, content)`,
      `onUpdateNote(id, title, content)`, `onDeleteNote(id)` or
      `onNavigateBack()`. A screen's behaviour is the sequence of these it
      emits. */
  datatype Effect =
    | AddNote(title: string, content: string)
    | UpdateNote(id: string, title: string, content: string)
    | DeleteNote(id: string)
    | NavigateBack
}
