/** The schedule entities: nurses, shift statuses, notes and day records. */
module ScheduleTypes {

  datatype Nurse = Nurse(id: string, name: string)

  /** A day's shift status; `NoStatus` is the source's `'none'`. */
  datatype ShiftStatus = Travail | Repos | Vacances | Formation | Indisponible | NoStatus

  /** A note on a day; its `timestamp` (milliseconds) is also what identifies it for deletion. */
  datatype Note = Note(text: string, author: string, authorId: string, timestamp: int)

  datatype DaySchedule = DaySchedule(status: ShiftStatus, notes: seq<Note>)

  /** Day records of one nurse for one month, by key `"year-month-nurseId"`; index `d - 1` is day `d`. */
  type MonthlySchedule = map<string, seq<DaySchedule>>

  /** The record shown for a day that has none: status `'none'`, no notes. */
  const DefaultDay := DaySchedule(NoStatus, [])
}

/** The credentials of a staff member. */
module AuthTypes {

  datatype Role = Admin | NurseRole

  datatype User = User(id: string, username: string, password: string, role: Role)
}
