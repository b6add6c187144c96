# Nurse shift planner: client state model

This project models the client-side core of a shift-scheduling board for a
small nursing team. An administrator gives each nurse a status for each day of
a month (work, rest, vacation, training, unavailable, or none) and attaches
notes to days. The model covers:

- **The schedule store** (`ScheduleStore.Store`, `src/stores/scheduleStore.ts`). It holds the
  nurse list and the map from the key `"year-month-nurseId"` to a month of day
  records. Its actions load, add a nurse, delete a nurse and replace one month.
- **The authentication store** (`AuthStore.Store`, `src/stores/authStore.ts`). It holds the
  signed-in user. Its actions bootstrap the administrator, log in, log out,
  create an account and refresh the signed-in user.
- **The status dialog** (`StatusModal`). It changes a day's status, and it adds and deletes notes.
- **The day cell** (`DayCell`). It normalises a day record, opens the dialog, and relays the
  dialog's updates.
- **The table** (`ScheduleTable`, with the `Date` arithmetic in `Calendar`). It gives the days of the
  month, the weekends, the rows a viewer sees, which cells are editable, the
  default cell and the day index of an update. As `new Date(year, …)` does,
  the model reads years 0 to 99 as 1900 to 1999 (`Calendar.DateYear`).

The hosted database is not modelled. The schedule store's actions receive the
settled result of their calls as parameters: `Remote.Reply` for reads and
`Remote.Write` for writes. A failure is either a returned `{ error }` or a
thrown call. The authentication store's actions receive the `users` table as
a sequence of rows, and each call's connectivity as a parameter. Wall-clock
values (`Date.now()`) are parameters.

Points of the code's behaviour that the model keeps as written:

- `addUser` ignores the id its caller supplies and generates `user_<now>`.
  Account ids therefore differ from the numeric nurse ids the staff form
  generates. `ScheduleTable.CreatedAccountSeesNoRow` proves that a nurse
  account created this way is shown no row.
- When the insert in `initialize` fails, `initialized` keeps its previous
  value rather than becoming false. An error returned by the administrator
  lookup is ignored and leads to the insert.
- The local filter of `deleteNurse` removes every key that contains the id
  anywhere. It is not a suffix match (see Findings).

## Model

| member | source | states |
|---|---|---|
| `ScheduleKeys.ScheduleKey` | src/stores/scheduleStore.ts:111 | defines the key `${year}-${month}-${nurseId}` of one nurse's month |
| `ScheduleKeys.ParseScheduleKey` | src/stores/scheduleStore.ts:111 | the key `${year}-${month}-${nurseId}` reads back into exactly that year, month and nurse id |
| `ScheduleKeys.ScheduleKeyInjective` | src/stores/scheduleStore.ts:111 | two different (year, month, nurse) triples never share a key |
| `ScheduleStore.BuildSchedule` | src/stores/scheduleStore.ts:34-37 | the map rebuilt by `loadData` has exactly the keys of the fetched rows |
| `ScheduleStore.LastRowWins` | src/stores/scheduleStore.ts:35-37 | when several fetched rows share a key, the last one's records are kept |
| `ScheduleStore.WithoutNurse` | src/stores/scheduleStore.ts:94 | defines the local nurse list after a deletion: the nurses whose id differs, in order |
| `ScheduleStore.WithoutNurseKeepsOthers` | src/stores/scheduleStore.ts:94 | after a deletion no nurse has the id; every other nurse stays, in its order |
| `ScheduleStore.DropKeysContaining` | src/stores/scheduleStore.ts:95-97 | defines the local map after a deletion as written: the entries whose key does not contain the id anywhere |
| `ScheduleStore.DeleteDropsEveryKeyOfTheNurse` | src/stores/scheduleStore.ts:95-97 | every key of the deleted nurse is gone; every key not containing the id stays with its value |
| `ScheduleStore.DeleteDropsKeysOfOtherNurses` | src/stores/scheduleStore.ts:96 | the filter also drops the keys of every nurse whose id contains the deleted id |
| `ScheduleStore.DeletingNurse1DropsNurse11` | src/stores/scheduleStore.ts:96 | deleting nurse `1` drops nurse `11`'s key `2024-5-11` |
| `ScheduleStore.DropKeysOfNurse` | src/stores/scheduleStore.ts:95-97 | defines the corrected filter: the entries whose key does not parse to that nurse |
| `ScheduleStore.DropKeysOfNurseIsExact` | src/stores/scheduleStore.ts:87-99 | the structural filter drops every key of the nurse and keeps every other nurse's keys with their values |
| `ScheduleStore.Store.constructor` | src/stores/scheduleStore.ts:16-20 | the store starts with no nurses, an empty map, not loading, no error |
| `ScheduleStore.Store.LoadData` | src/stores/scheduleStore.ts:22-50 | on success the nurses are the fetched list and the map is rebuilt from the rows; on failure only `error` changes; nothing is rethrown; `loading` ends false |
| `ScheduleStore.Store.AddNurse` | src/stores/scheduleStore.ts:52-74 | on success the nurse is appended after the existing ones; on failure nothing but `error` changes and the failure is rethrown; `loading` ends false |
| `ScheduleStore.Store.DeleteNurse` | src/stores/scheduleStore.ts:76-106 | a failed nurse-row delete, or a cascade delete that throws, aborts it: nothing but `error` changes and the failure is rethrown; a cascade that returns `{ error }` is ignored; on success the nurses and keys are filtered |
| `ScheduleStore.Store.UpdateSchedule` | src/stores/scheduleStore.ts:108-136 | on success the key holds exactly the new array and no other key changes; on failure nothing but `error` changes and the failure is rethrown |
| `AuthStore.Single` | src/stores/authStore.ts:57-62 | `.single()` yields a row exactly when the link holds and exactly one row matched |
| `AuthStore.LoginLookup` | src/stores/authStore.ts:57-62 | a row found at login is in the table, with the lower-cased username and the same password |
| `AuthStore.LoginFindsStoredUser` | src/stores/authStore.ts:57-69 | with unique usernames, a stored user is found by its password and any casing of its name |
| `AuthStore.LoginExamples` | src/stores/authStore.ts:57-67 | `ALICE`/`p1` finds alice; a wrong password or an unknown name finds nothing |
| `AuthStore.Bootstrap` | src/stores/authStore.ts:29-47 | defines how `initialize` ends: a thrown lookup fails; a lookup with no row leads to the insert, whose outcome decides; a found row succeeds |
| `AuthStore.AfterBootstrap` | src/stores/authStore.ts:29-42 | the table is either unchanged or gains exactly the administrator row, and it gains it only when `initialize` succeeds; a failed `initialize` leaves it unchanged |
| `AuthStore.BootstrapOnEmptyTable` | src/stores/authStore.ts:29-44 | on an empty table `initialize` succeeds and leaves exactly one administrator row |
| `AuthStore.BootstrapAddsNoDuplicate` | src/stores/authStore.ts:29-42 | with at most one administrator row before, there is at most one after, whatever fails; if it exists and the lookup gets through, nothing is inserted |
| `AuthStore.SecondBootstrapChangesNothing` | src/stores/authStore.ts:29-44 | after a successful `initialize`, a second one leaves the table unchanged |
| `AuthStore.NewUserRecord` | src/stores/authStore.ts:88-94 | the stored account has an id `user_` followed by the time, the lower-cased username, and the given password and role |
| `AuthStore.NewUserIdIsNotNumeric` | src/stores/authStore.ts:89 | a generated account id never equals a decimal number string |
| `AuthStore.AddedUserCanLogIn` | src/stores/authStore.ts:88-100 | an account that `addUser` stored is then found at login with its password and any casing of its name |
| `AuthStore.FindById` | src/stores/authStore.ts:121 | `find` yields the first listed row with the id, and nothing exactly when no row has it |
| `AuthStore.Refreshed` | src/stores/authStore.ts:119-125 | defines the signed-in user after a refresh: the first listed row with its id, or the user as it was |
| `AuthStore.RefreshKeepsIdentity` | src/stores/authStore.ts:119-125 | a refresh never signs anyone in or out, never changes the user's id, and takes the listed row when there is one |
| `AuthStore.Store.constructor` | src/stores/authStore.ts:18-22 | no user, not loading, no error, not initialized |
| `AuthStore.Store.Initialize` | src/stores/authStore.ts:24-51 | inserts the administrator only when the lookup returned no row; `initialized` becomes true unless the lookup threw or the insert failed, in which case `error` is set; `loading` ends false |
| `AuthStore.Store.Login` | src/stores/authStore.ts:53-78 | succeeds exactly when the lookup finds a row, which becomes the user; otherwise `user` is unchanged and `error` is set; `loading` ends false |
| `AuthStore.Store.Logout` | src/stores/authStore.ts:80-82 | clears the user and no other field |
| `AuthStore.Store.AddUser` | src/stores/authStore.ts:84-108 | inserts the generated record; on failure the table is unchanged, `error` is set and the failure is rethrown; `user` untouched; `loading` ends false |
| `AuthStore.Store.RefreshUsers` | src/stores/authStore.ts:110-129 | replaces the user by its listed row if there is one; failures leave everything as it was |
| `Text.ToLower` | src/stores/authStore.ts:60 | every character lower-cased, length kept |
| `Text.Trim` | src/components/DayCell/StatusModal.tsx:22 | the trimmed draft is the draft with its leading and trailing white space cut off; it is empty exactly when the draft is all white space, and otherwise starts and ends with a non-space |
| `StatusModal.StatusChoice` | src/components/DayCell/StatusModal.tsx:16-19 | defines what a status button hands on: the chosen status with the notes as they are |
| `StatusModal.NoteAdded` | src/components/DayCell/StatusModal.tsx:21-30 | a blank draft hands on nothing; otherwise it hands on the same status and the old notes plus one note at the end, with the trimmed text, the viewer's name and id, and the time |
| `StatusModal.NoteDeleted` | src/components/DayCell/StatusModal.tsx:35-37 | defines what a delete hands on: the status as it is and the notes without those carrying the timestamp |
| `StatusModal.NoteDeletedKeepsTheRest` | src/components/DayCell/StatusModal.tsx:35-37 | deleting keeps the status, removes every note with the timestamp, and keeps the others in order |
| `StatusModal.AddThenDeleteRestores` | src/components/DayCell/StatusModal.tsx:23-37 | adding a note and deleting its timestamp restores the notes, if no earlier note had that timestamp |
| `StatusModal.DeleteOffered` | src/components/DayCell/StatusModal.tsx:67 | defines when a note gets a delete button: its author id is the viewer's |
| `StatusModal.DeleteReachesOtherAuthors` | src/components/DayCell/StatusModal.tsx:35-75 | the delete button is offered only on one's own notes, but the delete also removes another author's note with the same timestamp |
| `StatusModal.Modal.constructor` | src/components/DayCell/StatusModal.tsx:14 | the draft starts empty |
| `StatusModal.Modal.SetNewNote` | src/components/DayCell/StatusModal.tsx:81 | typing replaces the draft |
| `StatusModal.Modal.HandleAddNote` | src/components/DayCell/StatusModal.tsx:21-33 | hands on `NoteAdded` of the draft and clears the draft exactly when something was handed on |
| `DayCell.Normalize` | src/components/DayCell/DayCell.tsx:18-21 | defines `currentSchedule`: a missing status reads as `none`, missing notes as no notes |
| `DayCell.NormalizeKeepsPresentValues` | src/components/DayCell/DayCell.tsx:18-21 | a missing record reads as `{none, []}`; present fields are kept; missing ones take their defaults |
| `DayCell.ShowsNotes` | src/components/DayCell/DayCell.tsx:43-47 | defines when the note marker and the notes tooltip show: the day has at least one note |
| `DayCell.Relay` | src/components/DayCell/DayCell.tsx:23-26 | defines what reaches the table when the dialog calls back through line 61: the dialog's status with the cell's own notes |
| `DayCell.StatusChangeGetsThrough` | src/components/DayCell/StatusModal.tsx:16-19 | a status chosen in the dialog reaches the table with the notes unchanged |
| `DayCell.AddedNoteIsDropped` | src/components/DayCell/DayCell.tsx:23-61 | through the cell's wiring, a note added in the dialog never reaches the table; the notes and the note marker stay as they were |
| `DayCell.DeletedNoteIsKept` | src/components/DayCell/DayCell.tsx:23-61 | through the cell's wiring, a note deleted in the dialog is still in the notes handed on |
| `DayCell.RelayBoth` | src/components/DayCell/StatusModal.tsx:29-30 | defines the intended relay: the dialog's status and notes, unchanged |
| `DayCell.RelayBothDeliversAddedNote` | src/components/DayCell/StatusModal.tsx:29-30 | with the intended wiring, the old notes plus the new note are handed on and the note marker shows |
| `DayCell.Cell.constructor` | src/components/DayCell/DayCell.tsx:16 | the dialog starts closed and unmounted |
| `DayCell.Cell.Click` | src/components/DayCell/DayCell.tsx:34-58 | a click opens the dialog only when the cell is editable; a closed dialog is mounted afresh with an empty draft, an open one is kept |
| `DayCell.Cell.Type` | src/components/DayCell/StatusModal.tsx:79-81 | typing in the open dialog replaces its draft |
| `DayCell.Cell.CloseModal` | src/components/DayCell/DayCell.tsx:58-62 | "Fermer" closes the dialog and unmounts it with its draft |
| `DayCell.Cell.HandleStatusClick` | src/components/DayCell/DayCell.tsx:23-26 | hands on the status with the cell's current notes and closes and unmounts the dialog |
| `DayCell.Cell.ChooseStatus` | src/components/DayCell/StatusModal.tsx:16-19 | a status button of the open dialog hands on the chosen status with the cell's notes and closes the dialog |
| `DayCell.Cell.SubmitNote` | src/components/DayCell/DayCell.tsx:58-64 | in the open dialog, a non-blank draft submitted through the wiring hands on the cell's old status and notes and closes the dialog, discarding the draft; a blank one changes nothing |
| `DayCell.Cell.DeleteNote` | src/components/DayCell/DayCell.tsx:58-64 | a delete in the open dialog, through the wiring, hands on the cell's old status and notes and closes the dialog |
| `Calendar.DateYear` | src/components/ScheduleTable.tsx:28-29 | defines the year `new Date(year, …)` uses: 0 to 99 read as 1900 to 1999 |
| `Calendar.DayNumber` | src/components/ScheduleTable.tsx:28-37 | defines the day count from 1 January 1970 of any day of any month, day 0 and overflowing days included, as `Date` normalises them |
| `Calendar.MonthLength` | src/components/ScheduleTable.tsx:28-32 | a month has 28 to 31 days; February has 29 exactly in leap years |
| `Calendar.Weekday` | src/components/ScheduleTable.tsx:37-38 | a weekday is a number from 0 (Sunday) to 6 (Saturday) |
| `Calendar.MonthLengthIsDayZeroOfNextMonth` | src/components/ScheduleTable.tsx:28-32 | the month's last day is the day before the first of the next month, also across December |
| `Calendar.WeekdayAdvances` | src/components/ScheduleTable.tsx:36-40 | consecutive days have consecutive weekdays, also across the end of a month |
| `Calendar.KnownWeekdays` | src/components/ScheduleTable.tsx:36-40 | 1 January 1970 is a Thursday; 6 and 7 January 2024 are a Saturday and a Sunday |
| `ScheduleTable.DaysInMonth` | src/components/ScheduleTable.tsx:28-32 | `daysInMonth` is the day-of-month of day 0 of the next month |
| `ScheduleTable.DayList` | src/components/ScheduleTable.tsx:34 | `days` holds exactly 1 to n, day `d` at index `d - 1` |
| `ScheduleTable.Days` | src/components/ScheduleTable.tsx:28-34 | the columns are exactly the days of the shown month |
| `ScheduleTable.IsWeekend` | src/components/ScheduleTable.tsx:36-40 | defines `isWeekend`: the date's weekday is Sunday or Saturday |
| `ScheduleTable.WeekendsComeInPairs` | src/components/ScheduleTable.tsx:36-40 | the day after a Saturday is a weekend day; the day after a Sunday is not |
| `ScheduleTable.DisplayedNurses` | src/components/ScheduleTable.tsx:42-44 | defines `displayedNurses`: all nurses for an administrator, otherwise those with the viewer's id |
| `ScheduleTable.DisplayedNursesAreTheViewersRows` | src/components/ScheduleTable.tsx:42-44 | an administrator sees all nurses in order; anyone else sees exactly the nurses with their own id, in order |
| `ScheduleTable.IsEditable` | src/components/ScheduleTable.tsx:97 | defines `isEditable`: the viewer is an administrator or the row is the viewer's own |
| `ScheduleTable.EditableExactlyWhereShown` | src/components/ScheduleTable.tsx:42-97 | every shown row is editable; for a non-administrator the editable rows are exactly the shown ones |
| `ScheduleTable.CreatedAccountSeesNoRow` | src/components/ScheduleTable.tsx:42-44 | an account made by `addUser` is shown no row when the nurse ids are numbers |
| `ScheduleTable.CellSchedule` | src/components/ScheduleTable.tsx:83-93 | the cell for day `d` shows entry `d - 1` when present, else `{none, []}` |
| `ScheduleTable.ForwardFromCell` | src/components/ScheduleTable.tsx:94-96 | defines what the table hands on from a cell: the row's nurse, index `d - 1`, and the cell's status and notes |
| `ScheduleTable.ForwardTargetsTheShownEntry` | src/components/ScheduleTable.tsx:93-96 | a cell's update goes to the row's nurse and to index `d - 1`, the entry the cell shows |

## Left out

- Client construction, the connectivity probe and realtime subscriptions (`src/config/supabase.ts`) are I/O over a library that is not part of this model.
- The reload-on-any-change hook (`src/hooks/useRealtimeSync.ts`) is not modelled. What it adds is unordered reloads racing with writes, which is concurrency.
- Screen selection (`src/App.tsx`) and the staff form (`src/components/UserManagement.tsx`) are rendering and form glue. The ids the form creates are used only as the numeric ids in `ScheduleTable.CreatedAccountSeesNoRow`.
- Asynchronous interleaving is not modelled: each action is one atomic step given its calls' outcomes. This covers the `Promise.all` in `loadData` and "last response wins" races. The intermediate `loading = true` is set and cleared within that step.
- The `nurses` and `schedules` tables are not modelled, only the outcomes of calls on them. The remote cascade delete (pattern `%-id`) is represented only by its outcome: a returned `{ error }` is ignored by the code, a thrown call aborts the deletion.
- Server-side ordering (`.order('name')`, `.order('username')`) is not modelled: fetched lists are taken in the order they arrive.
- The `created_at` and `updated_at` timestamps written to the store are not modelled. No modelled operation reads them.
- `console.error` logging is not modelled.
- Status labels and colours, icons and all rendering are not modelled. The delete button is modelled only as the `StatusModal.DeleteOffered` condition. The notes marker is modelled only as `DayCell.ShowsNotes`.
- The parent's `getCurrentSchedule` is not part of this model. The nurse's month of day records is a parameter of `ScheduleTable.CellSchedule`.
- Passwords are compared by plain equality, as in the code. Password security is out of scope.
- The `users` table is assumed to refuse an insert whose id or username is already present. The schema is not part of this model.
- `Text.ToLower`: only A to Z are lower-cased. JavaScript's `toLowerCase` also maps other Unicode letters.
- `ScheduleStore.Store.UpdateSchedule`: year and month are natural numbers. Negative or fractional JavaScript numbers render differently in the key.
- `Calendar.DayNumber`: dates are local calendar dates. `Date`'s range limit (±8.64e15 ms) and time zones are not modelled.

## Findings

The store and cell models keep the behaviour of the code. Each corrected
definition sits beside the as-written one, with the intended property proved
about it.

| source | as written | input that shows it | evidently intended | confidence | as-written member | corrected member |
|---|---|---|---|---|---|---|
| src/stores/scheduleStore.ts:96 | the local filter drops every schedule key that contains the nurse id anywhere | nurse ids `1` and `11`: deleting `1` also drops `2024-5-11`, and any key with a `1` in its year or month | drop only the keys whose nurse part is the deleted id | high (not executed) | `ScheduleStore.DeletingNurse1DropsNurse11` | `ScheduleStore.DropKeysOfNurseIsExact` |
| src/components/DayCell/DayCell.tsx:61 | the dialog's two-argument callback is the cell's one-argument `handleStatusClick`, so the dialog's notes are dropped | any non-blank note added in the dialog: the table receives the old notes | hand on the dialog's status and notes | high (not executed) | `DayCell.AddedNoteIsDropped` | `DayCell.RelayBothDeliversAddedNote` |
