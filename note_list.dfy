// The list transformations the persistence service applies between a load
// and a save: spread-prepend (`[note, ...existingNotes]`), `filter` and
// `map`, each over the whole collection.
module NoteList {
  import opened Notes

  /** `a` is `b` with some elements left out and the rest in their order. */
  predicate IsSubsequence<T(==)>(a: seq<T>, b: seq<T>)
    decreases |b|
  {
    if a == [] then true
    else if b == [] then false
    else if a[0] == b[0] then IsSubsequence(a[1..], b[1..])
    else IsSubsequence(a, b[1..])
  }

  /** Every sequence is a subsequence of itself. */
  lemma {:induction false} SubsequenceReflexive<T>(s: seq<T>)
    ensures IsSubsequence(s, s)
  {
    if s != [] {
      SubsequenceReflexive(s[1..]);
    }
  }

  /** Number of elements of `s` that satisfy `p`. */
  function Count<T(!new)>(s: seq<T>, p: T -> bool): (n: nat)
    ensures n <= |s|
    ensures n == 0 <==> forall x :: x in s ==> !p(x)
  {
    if s == [] then 0
    else (if p(s[0]) then 1 else 0) + Count(s[1..], p)
  }

  /** `s.filter(p)`: the elements of `s` that satisfy `p`, in their order,
      each kept as often as it occurs, and `s` itself when all satisfy `p`. */
  function Filter<T(==,!new)>(s: seq<T>, p: T -> bool): (r: seq<T>)
    ensures IsSubsequence(r, s)
    ensures forall x :: x in r <==> x in s && p(x)
    ensures |r| == Count(s, p)
    ensures (forall x :: x in s ==> p(x)) ==> r == s
  {
    if s == [] then []
    else
      var rest := Filter(s[1..], p);
      assert s == [s[0]] + s[1..];
      if p(s[0]) then
        assert ([s[0]] + rest)[1..] == rest;
        [s[0]] + rest
      else
        SubsequenceOfTail(rest, s);
        rest
  }

  /** An element in front of `b` does not spoil a subsequence of `b`. */
  lemma {:induction false} SubsequenceOfTail<T>(a: seq<T>, b: seq<T>)
    requires b != [] && IsSubsequence(a, b[1..])
    ensures IsSubsequence(a, b)
    decreases |a| + |b|
  {
    if a != [] && a[0] == b[0] {
      SubsequenceDropHead(a, b[1..]);
    }
  }

  /** Leaving out the first element of a subsequence keeps it one. */
  lemma {:induction false} SubsequenceDropHead<T>(a: seq<T>, c: seq<T>)
    requires a != [] && IsSubsequence(a, c)
    ensures IsSubsequence(a[1..], c)
    decreases |a| + |c|
  {
    if a[0] == c[0] {
      if a[1..] != [] {
        SubsequenceOfTail(a[1..], c);
      }
    } else {
      SubsequenceDropHead(a, c[1..]);
      if a[1..] != [] {
        SubsequenceOfTail(a[1..], c);
      }
    }
  }

  /** Number of notes in `notes` whose id is `id`. */
  function CountId(notes: seq<Note>, id: string): nat {
    Count(notes, (n: Note) => n.id == id)
  }

  /** The ids of `notes`, position by position. */
  function Ids(notes: seq<Note>): (r: seq<string>)
    ensures |r| == |notes|
    ensures forall i :: 0 <= i < |notes| ==> r[i] == notes[i].id
  {
    if notes == [] then [] else [notes[0].id] + Ids(notes[1..])
  }

  // ---------------------------------------------------------------------
  // addNote: `[note, ...existingNotes]`

  /** The new note goes first and every existing note follows in its old
      position plus one. */
  function Prepend(note: Note, notes: seq<Note>): (r: seq<Note>)
    ensures |r| == |notes| + 1
    ensures r[0] == note && r[1..] == notes
  {
    [note] + notes
  }

  /** Adding does not deduplicate: a note whose id is already present is
      added beside the existing one. */
  lemma {:induction false} PrependKeepsDuplicates(note: Note, notes: seq<Note>)
    ensures CountId(Prepend(note, notes), note.id) == CountId(notes, note.id) + 1
  {
    var r := Prepend(note, notes);
    assert r[1..] == notes;
  }

  // ---------------------------------------------------------------------
  // deleteNote: `existingNotes.filter(note => note.id !== id)`

  function RemoveById(notes: seq<Note>, id: string): (r: seq<Note>)
    ensures IsSubsequence(r, notes)
    ensures forall n :: n in r ==> n.id != id
    ensures forall n :: n in notes && n.id != id ==> n in r
    ensures (forall n :: n in notes ==> n.id != id) ==> r == notes
  {
    Filter(notes, (n: Note) => n.id != id)
  }

  /** Exactly the notes with that id are dropped. */
  lemma {:induction false} RemoveByIdLength(notes: seq<Note>, id: string)
    ensures |RemoveById(notes, id)| + CountId(notes, id) == |notes|
  {
    CountSplit(notes, (n: Note) => n.id != id, (n: Note) => n.id == id);
  }

  lemma {:induction false} CountSplit<T(!new)>(s: seq<T>, p: T -> bool, q: T -> bool)
    requires forall x :: p(x) == !q(x)
    ensures Count(s, p) + Count(s, q) == |s|
  {
    if s != [] {
      CountSplit(s[1..], p, q);
    }
  }

  /** Deleting the same id a second time changes nothing. */
  lemma {:induction false} RemoveByIdIdempotent(notes: seq<Note>, id: string)
    ensures RemoveById(RemoveById(notes, id), id) == RemoveById(notes, id)
  {
  }

  /** Deleting the id of a note that was just added, when no other note had
      that id, gives back the list from before the add. */
  lemma {:induction false} RemoveUndoesPrepend(note: Note, notes: seq<Note>)
    requires forall n :: n in notes ==> n.id != note.id
    ensures RemoveById(Prepend(note, notes), note.id) == notes
  {
    var p := (n: Note) => n.id != note.id;
    assert [note] + notes == Prepend(note, notes);
    assert Filter([note] + notes, p) == Filter(notes, p) by {
      assert ([note] + notes)[1..] == notes;
    }
  }

  // ---------------------------------------------------------------------
  // updateNote: `existingNotes.map(note => note.id === updated.id ? updated : note)`

  /** Every note whose id is `updated.id` (all of them, not only the first)
      is replaced by `updated`; every other note stays where it was. */
  function ReplaceById(notes: seq<Note>, updated: Note): (r: seq<Note>)
    ensures |r| == |notes|
    ensures forall i :: 0 <= i < |notes| && notes[i].id == updated.id ==> r[i] == updated
    ensures forall i :: 0 <= i < |notes| && notes[i].id != updated.id ==> r[i] == notes[i]
  {
    if notes == [] then []
    else
      var head := if notes[0].id == updated.id then updated else notes[0];
      [head] + ReplaceById(notes[1..], updated)
  }

  /** An id that is not in the list leaves the list as it was. */
  lemma ReplaceMissingIsNoop(notes: seq<Note>, updated: Note)
    requires forall i :: 0 <= i < |notes| ==> notes[i].id != updated.id
    ensures ReplaceById(notes, updated) == notes
  {
  }

  /** Updating keeps the id at every position, so it never adds, drops or
      reorders notes by id. */
  lemma ReplaceKeepsIds(notes: seq<Note>, updated: Note)
    ensures Ids(ReplaceById(notes, updated)) == Ids(notes)
  {
  }

  /** Applying the same update twice is applying it once. */
  lemma ReplaceIdempotent(notes: seq<Note>, updated: Note)
    ensures ReplaceById(ReplaceById(notes, updated), updated) == ReplaceById(notes, updated)
  {
  }

  /** Deleting an id after updating it is the same as deleting it at once. */
  lemma {:induction false} RemoveAfterReplace(notes: seq<Note>, updated: Note)
    ensures RemoveById(ReplaceById(notes, updated), updated.id) == RemoveById(notes, updated.id)
  {
    if notes != [] {
      var p := (n: Note) => n.id != updated.id;
      var r := ReplaceById(notes, updated);
      RemoveAfterReplace(notes[1..], updated);
      assert r[1..] == ReplaceById(notes[1..], updated);
      assert Filter(r, p) == (if p(r[0]) then [r[0]] else []) + Filter(r[1..], p);
      assert Filter(notes, p) == (if p(notes[0]) then [notes[0]] else []) + Filter(notes[1..], p);
    }
  }
}
