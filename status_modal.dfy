/**
 * The status and notes dialog of a day cell. Each handler computes the
 * `(status, notes)` pair it hands to its `onUpdateSchedule` callback; the
 * draft note text is the dialog's only mutable state.
 */
module StatusModal {
  import opened Wrappers
  import opened Text
  import opened Seqs
  import opened ScheduleTypes

  /** The arguments of one `onUpdateSchedule(status, notes)` call. */
  datatype Update = Update(status: ShiftStatus, notes: seq<Note>)

  /** The `currentUser` the dialog is shown to. */
  datatype Viewer = Viewer(id: string, username: string)

  /** A status button: the chosen status with the notes as they are. */
  function StatusChoice(current: DaySchedule, status: ShiftStatus): Update {
    Update(status, current.notes)
  }

  /** The note `handleAddNote` creates from the draft. */
  function NewNote(draft: string, viewer: Viewer, now: int): Note {
    Note(Trim(draft), viewer.username, viewer.id, now)
  }

  /**
   * `handleAddNote`: nothing when the trimmed draft is empty; otherwise the
   * status as it is and the notes with one note appended at the end.
   */
  function NoteAdded(current: DaySchedule, draft: string, viewer: Viewer, now: int): (u: Option<Update>)
    ensures u.None? <==> AllSpace(draft)
    ensures u.Some? ==>
      && u.value.status == current.status
      && |u.value.notes| == |current.notes| + 1
      && u.value.notes[..|current.notes|] == current.notes
      && u.value.notes[|current.notes|] == NewNote(draft, viewer, now)
      && NewNote(draft, viewer, now).text != []
  {
    if Trim(draft) == [] then None
    else Some(Update(current.status, current.notes + [NewNote(draft, viewer, now)]))
  }

  /** `handleDeleteNote`: the status as it is and the notes without those carrying `timestamp`. */
  function NoteDeleted(current: DaySchedule, timestamp: int): Update {
    Update(current.status, Filter(current.notes, (n: Note) => n.timestamp != timestamp))
  }

  /** Deleting removes every note with the timestamp, keeps every other note, and keeps their order. */
  lemma NoteDeletedKeepsTheRest(current: DaySchedule, timestamp: int, a: seq<Note>, b: seq<Note>)
    ensures NoteDeleted(current, timestamp).status == current.status
    ensures forall n :: n in NoteDeleted(current, timestamp).notes <==> n in current.notes && n.timestamp != timestamp
    ensures NoteDeleted(DaySchedule(current.status, a + b), timestamp).notes
      == NoteDeleted(DaySchedule(current.status, a), timestamp).notes + NoteDeleted(DaySchedule(current.status, b), timestamp).notes
  {
    FilterAppend(a, b, (n: Note) => n.timestamp != timestamp);
  }

  /** Adding a note and then deleting by its timestamp gives the original notes back, if no earlier note had that timestamp. */
  lemma AddThenDeleteRestores(current: DaySchedule, draft: string, viewer: Viewer, now: int)
    requires !AllSpace(draft)
    requires forall n :: n in current.notes ==> n.timestamp != now
    ensures NoteDeleted(DaySchedule(current.status, NoteAdded(current, draft, viewer, now).value.notes), now)
      == Update(current.status, current.notes)
  {
    var keep := (n: Note) => n.timestamp != now;
    assert NoteAdded(current, draft, viewer, now).value.notes == current.notes + [NewNote(draft, viewer, now)];
    FilterAppend(current.notes, [NewNote(draft, viewer, now)], keep);
    FilterKeepsAll(current.notes, keep);
  }

  /** The delete button is shown only next to the viewer's own notes. */
  predicate DeleteOffered(note: Note, viewer: Viewer) {
    note.authorId == viewer.id
  }

  /**
   * Deleting performs no author check of its own: deleting one's own note
   * also removes another author's note that shares its timestamp.
   */
  lemma DeleteReachesOtherAuthors(current: DaySchedule, viewer: Viewer, mine: Note, theirs: Note)
    requires mine in current.notes && theirs in current.notes
    requires DeleteOffered(mine, viewer) && !DeleteOffered(theirs, viewer)
    requires theirs.timestamp == mine.timestamp
    ensures theirs !in NoteDeleted(current, mine.timestamp).notes
  {
  }

  /** The dialog (`StatusModal`); its state is the draft note text. */
  class Modal {
    var newNote: string

    constructor ()
      ensures newNote == ""
    {
      newNote := "";
    }

    /** Typing in the text area replaces the draft. */
    method SetNewNote(text: string)
      modifies this
      ensures newNote == text
    {
      newNote := text;
    }

    /**
     * `handleAddNote`: hands on `NoteAdded` of the draft, and clears the draft
     * exactly when something was handed on.
     */
    method HandleAddNote(current: DaySchedule, viewer: Viewer, now: int) returns (forwarded: Option<Update>)
      modifies this
      ensures forwarded == NoteAdded(current, old(newNote), viewer, now)
      ensures newNote == if forwarded.Some? then "" else old(newNote)
    {
      forwarded := NoteAdded(current, newNote, viewer, now);
      if forwarded.Some? {
        newNote := "";
      }
    }
  }
}
