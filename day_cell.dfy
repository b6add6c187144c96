/**
 * One cell of the schedule table: how it reads the day record it is given,
 * when it opens the status dialog, and how it passes the dialog's updates on.
 */
module DayCell {
  import opened Wrappers
  import opened Text
  import opened ScheduleTypes
  import opened StatusModal

  /** A day record as the cell may receive it, with either field possibly missing. */
  datatype StoredDay = StoredDay(status: Option<ShiftStatus>, notes: Option<seq<Note>>)

  function Stored(day: DaySchedule): StoredDay {
    StoredDay(Some(day.status), Some(day.notes))
  }

  /** `currentSchedule`: a missing status reads as `'none'`, missing notes as no notes. */
  function Normalize(schedule: Option<StoredDay>): DaySchedule {
    match schedule
    case None => DefaultDay
    case Some(s) => DaySchedule(s.status.GetOr(NoStatus), s.notes.GetOr([]))
  }

  /**
   * A missing record reads as the default day, a complete record reads as
   * itself, and each present field is kept while each missing one takes its
   * default.
   */
  lemma NormalizeKeepsPresentValues(schedule: Option<StoredDay>, day: DaySchedule)
    ensures Normalize(None) == DefaultDay
    ensures Normalize(Some(Stored(day))) == day
    ensures schedule.Some? && schedule.value.status.Some? ==> Normalize(schedule).status == schedule.value.status.value
    ensures schedule.Some? && schedule.value.notes.Some? ==> Normalize(schedule).notes == schedule.value.notes.value
    ensures (schedule.None? || schedule.value.status.None?) ==> Normalize(schedule).status == NoStatus
    ensures (schedule.None? || schedule.value.notes.None?) ==> Normalize(schedule).notes == []
  {
  }

  /** The note marker and the notes tooltip are shown exactly when the day has notes. */
  predicate ShowsNotes(day: DaySchedule) {
    |day.notes| > 0
  }

  /**
   * What reaches the table when the dialog calls its callback with `u`: the
   * callback is the cell's one-argument `handleStatusClick`, so only the
   * status survives and the notes are the cell's own.
   */
  function Relay(current: DaySchedule, u: Update): Update {
    StatusChoice(current, u.status)
  }

  /**
   * A note added in the dialog never reaches the table: the relayed notes are
   * the cell's existing notes, not the extended list, and the note marker is
   * as it was.
   */
  lemma AddedNoteIsDropped(schedule: Option<StoredDay>, draft: string, viewer: Viewer, now: int)
    requires !AllSpace(draft)
    ensures var current := Normalize(schedule);
      var relayed := Relay(current, NoteAdded(current, draft, viewer, now).value);
      && relayed == Update(current.status, current.notes)
      && relayed.notes != NoteAdded(current, draft, viewer, now).value.notes
      && (ShowsNotes(DaySchedule(relayed.status, relayed.notes)) <==> ShowsNotes(current))
  {
    var current := Normalize(schedule);
    assert |NoteAdded(current, draft, viewer, now).value.notes| == |current.notes| + 1;
  }

  /** A note deleted in the dialog is not deleted either: the relayed notes still hold it. */
  lemma DeletedNoteIsKept(schedule: Option<StoredDay>, note: Note)
    requires note in Normalize(schedule).notes
    ensures var current := Normalize(schedule);
      && note !in NoteDeleted(current, note.timestamp).notes
      && note in Relay(current, NoteDeleted(current, note.timestamp)).notes
  {
    NoteDeletedKeepsTheRest(Normalize(schedule), note.timestamp, [], []);
  }

  /** A status chosen in the dialog does get through the wiring, with the notes as they are. */
  lemma StatusChangeGetsThrough(schedule: Option<StoredDay>, status: ShiftStatus)
    ensures var current := Normalize(schedule);
      Relay(current, StatusChoice(current, status)) == Update(status, current.notes)
  {
  }

  /** The callback the wiring evidently intends: the dialog's status and notes, handed on unchanged. */
  function RelayBoth(current: DaySchedule, u: Update): Update {
    Update(u.status, u.notes)
  }

  /** With the intended wiring, adding a note hands on the old notes plus the new note, and the note marker appears. */
  lemma RelayBothDeliversAddedNote(schedule: Option<StoredDay>, draft: string, viewer: Viewer, now: int)
    requires !AllSpace(draft)
    ensures var current := Normalize(schedule);
      var relayed := RelayBoth(current, NoteAdded(current, draft, viewer, now).value);
      && relayed.status == current.status
      && relayed.notes == current.notes + [NewNote(draft, viewer, now)]
      && ShowsNotes(DaySchedule(relayed.status, relayed.notes))
  {
    var current := Normalize(schedule);
    var notes := NoteAdded(current, draft, viewer, now).value.notes;
    assert notes == notes[..|current.notes|] + [notes[|current.notes|]];
  }

  /**
   * The cell (`DayCell`). Its state is whether the dialog is open; the dialog
   * is mounted only while it is open, so `modal` is the mounted dialog then
   * and `null` otherwise, and every close discards the draft with it.
   */
  class Cell {
    var isModalOpen: bool
    var modal: Modal?

    predicate Valid()
      reads this
    {
      isModalOpen <==> modal != null
    }

    constructor ()
      ensures Valid() && !isModalOpen
    {
      isModalOpen, modal := false, null;
    }

    /**
     * A click opens the dialog only when the cell is editable; a dialog that
     * was closed is mounted afresh, with an empty draft.
     */
    method Click(isEditable: bool)
      requires Valid()
      modifies this
      ensures Valid()
      ensures isModalOpen == (old(isModalOpen) || isEditable)
      ensures old(isModalOpen) || !isEditable ==> modal == old(modal)
      ensures !old(isModalOpen) && isEditable ==> fresh(modal) && modal.newNote == ""
    {
      if isEditable && !isModalOpen {
        modal := new Modal();
        isModalOpen := true;
      }
    }

    /** Typing in the open dialog's text area. */
    method Type(text: string)
      requires Valid() && isModalOpen
      modifies modal
      ensures modal.newNote == text
    {
      modal.SetNewNote(text);
    }

    /** The dialog's `onClose` ("Fermer"): closes and unmounts the dialog. */
    method CloseModal()
      modifies this
      ensures Valid() && !isModalOpen
    {
      isModalOpen, modal := false, null;
    }

    /** `handleStatusClick(newStatus)`: hands on the status with the current notes and closes the dialog. */
    method HandleStatusClick(schedule: Option<StoredDay>, newStatus: ShiftStatus) returns (forwarded: Update)
      modifies this
      ensures forwarded == StatusChoice(Normalize(schedule), newStatus)
      ensures forwarded.notes == Normalize(schedule).notes
      ensures Valid() && !isModalOpen
    {
      forwarded := StatusChoice(Normalize(schedule), newStatus);
      isModalOpen, modal := false, null;
    }

    /**
     * A status button of the open dialog: the dialog's `handleStatusClick`
     * calls the cell's, then `onClose`; the status reaches the table and the
     * dialog closes.
     */
    method ChooseStatus(schedule: Option<StoredDay>, status: ShiftStatus) returns (forwarded: Update)
      requires Valid() && isModalOpen
      modifies this
      ensures forwarded == Relay(Normalize(schedule), StatusChoice(Normalize(schedule), status))
      ensures forwarded == Update(status, Normalize(schedule).notes)
      ensures Valid() && !isModalOpen
    {
      var current := Normalize(schedule);
      var fromModal := StatusChoice(current, status);
      forwarded := HandleStatusClick(schedule, fromModal.status);
      CloseModal();
    }

    /**
     * "Ajouter" in the open dialog, through the cell's wiring: a non-blank
     * draft makes the dialog call the cell's `handleStatusClick` with the
     * extended notes, which hands on the old notes and closes the dialog; a
     * blank draft changes nothing.
     */
    method SubmitNote(schedule: Option<StoredDay>, viewer: Viewer, now: int) returns (forwarded: Option<Update>)
      requires Valid() && isModalOpen
      modifies this, modal
      ensures forwarded.Some? <==> !AllSpace(old(modal.newNote))
      ensures forwarded.Some? ==>
        && forwarded.value == Relay(Normalize(schedule), NoteAdded(Normalize(schedule), old(modal.newNote), viewer, now).value)
        && forwarded.value == Update(Normalize(schedule).status, Normalize(schedule).notes)
        && Valid() && !isModalOpen
      ensures forwarded.None? ==> Valid() && modal == old(modal) && modal.newNote == old(modal.newNote)
    {
      var current := Normalize(schedule);
      var fromModal := modal.HandleAddNote(current, viewer, now);
      if fromModal.Some? {
        var relayed := HandleStatusClick(schedule, fromModal.value.status);
        forwarded := Some(relayed);
      } else {
        forwarded := None;
      }
    }

    /**
     * A delete button of the open dialog, through the cell's wiring: the
     * dialog calls the cell's `handleStatusClick` with the filtered notes,
     * which hands on the old notes and closes the dialog.
     */
    method DeleteNote(schedule: Option<StoredDay>, timestamp: int) returns (forwarded: Update)
      requires Valid() && isModalOpen
      modifies this
      ensures forwarded == Relay(Normalize(schedule), NoteDeleted(Normalize(schedule), timestamp))
      ensures forwarded == Update(Normalize(schedule).status, Normalize(schedule).notes)
      ensures Valid() && !isModalOpen
    {
      var fromModal := NoteDeleted(Normalize(schedule), timestamp);
      forwarded := HandleStatusClick(schedule, fromModal.status);
    }
  }
}
