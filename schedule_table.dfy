/**
 * The schedule table's derivations: the days of the shown month, which of
 * them fall on a weekend, which nurse rows the viewer sees, which cells the
 * viewer may edit, what each cell shows and where its updates go.
 */
module ScheduleTable {
  import opened Seqs
  import opened Text
  import opened ScheduleTypes
  import opened AuthTypes
  import opened Calendar
  import opened StatusModal
  import AuthStore

  /** `daysInMonth`: the day-of-month of day 0 of the next month, i.e. the length of the shown month. */
  function DaysInMonth(year: int, month: Month0): (n: int)
    ensures 28 <= n <= 31
    ensures month < 11 ==> DayNumber(DateYear(year), month, n) == DayNumber(DateYear(year), month + 1, 0)
    ensures month == 11 ==> DayNumber(DateYear(year), month, n) == DayNumber(DateYear(year) + 1, 0, 0)
  {
    MonthLengthIsDayZeroOfNextMonth(DateYear(year), month);
    MonthLength(DateYear(year), month)
  }

  /** `days`: the numbers 1 to `n`, day `d` at index `d - 1`. */
  function DayList(n: nat): (days: seq<int>)
    ensures |days| == n
    ensures forall d :: d in days <==> 1 <= d <= n
    ensures forall i :: 0 <= i < |days| ==> days[i] == i + 1
  {
    if n == 0 then [] else DayList(n - 1) + [n]
  }

  /** The column headers of the shown month: every day of it, from the first to the last. */
  function Days(year: int, month: Month0): (days: seq<int>)
    ensures forall d :: d in days <==> 1 <= d <= MonthLength(DateYear(year), month)
  {
    DayList(DaysInMonth(year, month))
  }

  /** `isWeekend(day)`: the date falls on a Sunday or a Saturday. */
  predicate IsWeekend(year: int, month: Month0, day: int) {
    var w := Weekday(DateYear(year), month, day);
    w == 0 || w == 6
  }

  /** Weekend days come in pairs: the day after a Saturday is a Sunday, and the day after a Sunday is not a weekend day. */
  lemma WeekendsComeInPairs(year: int, month: Month0, day: int)
    ensures Weekday(DateYear(year), month, day) == 6 ==> IsWeekend(year, month, day + 1)
    ensures Weekday(DateYear(year), month, day) == 0 ==> !IsWeekend(year, month, day + 1)
  {
    WeekdayAdvances(DateYear(year), month, day);
  }

  /** `displayedNurses`: all nurses for an administrator, otherwise the nurses whose id is the viewer's. */
  function DisplayedNurses(nurses: seq<Nurse>, isAdmin: bool, viewer: User): seq<Nurse> {
    if isAdmin then nurses else Filter(nurses, (n: Nurse) => n.id == viewer.id)
  }

  /**
   * An administrator sees every nurse in the original order; anyone else sees
   * exactly the nurses with their own id, in the original order.
   */
  lemma DisplayedNursesAreTheViewersRows(nurses: seq<Nurse>, isAdmin: bool, viewer: User, a: seq<Nurse>, b: seq<Nurse>)
    ensures isAdmin ==> DisplayedNurses(nurses, isAdmin, viewer) == nurses
    ensures !isAdmin ==> forall n :: n in DisplayedNurses(nurses, isAdmin, viewer) <==> n in nurses && n.id == viewer.id
    ensures DisplayedNurses(a + b, isAdmin, viewer) == DisplayedNurses(a, isAdmin, viewer) + DisplayedNurses(b, isAdmin, viewer)
  {
    FilterAppend(a, b, (n: Nurse) => n.id == viewer.id);
  }

  /** `isEditable`: the viewer is an administrator or the row is the viewer's own. */
  predicate IsEditable(isAdmin: bool, nurseId: string, viewer: User) {
    isAdmin || nurseId == viewer.id
  }

  /** Every row the viewer sees is editable, and for a non-administrator the editable rows are exactly the rows shown. */
  lemma EditableExactlyWhereShown(nurses: seq<Nurse>, isAdmin: bool, viewer: User)
    ensures forall n :: n in DisplayedNurses(nurses, isAdmin, viewer) ==> IsEditable(isAdmin, n.id, viewer)
    ensures !isAdmin ==> forall n :: n in nurses ==> (IsEditable(isAdmin, n.id, viewer) <==> n in DisplayedNurses(nurses, isAdmin, viewer))
  {
  }

  /**
   * An account made by `addUser` has an id of the form `user_<digits>`, so it
   * is shown no row at all when the roster's nurse ids are numbers, as the
   * staff form creates them.
   */
  lemma CreatedAccountSeesNoRow(nurses: seq<Nurse>, candidate: User, now: nat, ids: seq<nat>)
    requires |ids| == |nurses|
    requires forall i :: 0 <= i < |nurses| ==> nurses[i].id == NatToString(ids[i])
    ensures DisplayedNurses(nurses, false, AuthStore.NewUserRecord(candidate, now)) == []
  {
    var viewer := AuthStore.NewUserRecord(candidate, now);
    forall i | 0 <= i < |nurses| ensures nurses[i].id != viewer.id {
      AuthStore.NewUserIdIsNotNumeric(candidate, now, ids[i]);
    }
    FilterDropsAll(nurses, (n: Nurse) => n.id == viewer.id);
  }

  /** The record the cell for day `day` shows: entry `day - 1` of the nurse's month, or the default day. */
  function CellSchedule(nurseSchedule: seq<DaySchedule>, day: int): (d: DaySchedule)
    ensures 1 <= day <= |nurseSchedule| ==> d == nurseSchedule[day - 1]
    ensures !(1 <= day <= |nurseSchedule|) ==> d == DefaultDay
  {
    if 1 <= day <= |nurseSchedule| then nurseSchedule[day - 1] else DefaultDay
  }

  /** The arguments of the table's `onUpdateSchedule(nurseId, dayIndex, status, notes)`. */
  datatype RowUpdate = RowUpdate(nurseId: string, dayIndex: int, status: ShiftStatus, notes: seq<Note>)

  /** A cell's update for day `day` of the row of `nurseId`, as the table hands it on. */
  function ForwardFromCell(nurseId: string, day: int, u: Update): RowUpdate {
    RowUpdate(nurseId, day - 1, u.status, u.notes)
  }

  /**
   * An update from a cell goes to the row's nurse and to the very entry the
   * cell shows, with the cell's status and notes.
   */
  lemma ForwardTargetsTheShownEntry(nurseId: string, nurseSchedule: seq<DaySchedule>, day: int, u: Update)
    requires 1 <= day <= |nurseSchedule|
    ensures var r := ForwardFromCell(nurseId, day, u);
      && r.nurseId == nurseId && r.status == u.status && r.notes == u.notes
      && 0 <= r.dayIndex < |nurseSchedule|
      && nurseSchedule[r.dayIndex] == CellSchedule(nurseSchedule, day)
  {
  }
}
