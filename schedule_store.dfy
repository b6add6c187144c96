/**
 * The schedule store: the nurse list and the map of monthly day records the
 * client holds, and how each action changes them around its call to the
 * hosted store. Every action first raises `loading` and clears `error`,
 * changes `nurses` or `schedule` only when its call succeeded, and ends with
 * `loading` lowered.
 */
module ScheduleStore {
  import opened Wrappers
  import opened Text
  import opened Seqs
  import opened ScheduleTypes
  import opened Remote
  import opened ScheduleKeys

  /** A row of the `schedules` table: a key and the day records stored under it. */
  datatype ScheduleRow = ScheduleRow(key: string, schedule: seq<DaySchedule>)

  const LoadFailed := "Erreur lors du chargement des données"
  const AddFailed := "Erreur lors de l'ajout de l'infirmier(ère)"
  const DeleteFailed := "Erreur lors de la suppression de l'infirmier(ère)"
  const UpdateFailed := "Erreur lors de la mise à jour du planning"

  /**
   * The map `loadData` builds from the fetched rows, one row after the other:
   * a key is present exactly when some row carries it.
   */
  function BuildSchedule(rows: seq<ScheduleRow>): (m: MonthlySchedule)
    ensures forall k :: k in m <==> exists i :: 0 <= i < |rows| && rows[i].key == k
  {
    if rows == [] then map[]
    else
      var last := rows[|rows| - 1];
      BuildSchedule(rows[..|rows| - 1])[last.key := last.schedule]
  }

  /** Among rows sharing a key, the last one fetched is the one kept. */
  lemma {:induction false} LastRowWins(rows: seq<ScheduleRow>, i: nat)
    requires i < |rows|
    requires forall j :: i < j < |rows| ==> rows[j].key != rows[i].key
    ensures rows[i].key in BuildSchedule(rows)
    ensures BuildSchedule(rows)[rows[i].key] == rows[i].schedule
  {
    if i < |rows| - 1 {
      LastRowWins(rows[..|rows| - 1], i);
    }
  }

  /** The nurse list after `deleteNurse(nurseId)`: every nurse but those with that id, in order. */
  function WithoutNurse(nurses: seq<Nurse>, nurseId: string): seq<Nurse> {
    Filter(nurses, (n: Nurse) => n.id != nurseId)
  }

  /** No nurse with the deleted id is left, and every other nurse is kept in its order. */
  lemma WithoutNurseKeepsOthers(nurses: seq<Nurse>, nurseId: string, a: seq<Nurse>, b: seq<Nurse>)
    ensures forall n :: n in WithoutNurse(nurses, nurseId) ==> n.id != nurseId
    ensures forall n :: n in nurses && n.id != nurseId ==> n in WithoutNurse(nurses, nurseId)
    ensures WithoutNurse(a + b, nurseId) == WithoutNurse(a, nurseId) + WithoutNurse(b, nurseId)
  {
    FilterAppend(a, b, (n: Nurse) => n.id != nurseId);
  }

  /**
   * The schedule map after `deleteNurse(nurseId)`, as the code filters it:
   * every key that contains the id anywhere is removed.
   */
  function DropKeysContaining(schedule: MonthlySchedule, nurseId: string): MonthlySchedule {
    map k | k in schedule && !Contains(k, nurseId) :: schedule[k]
  }

  /** Every key of the deleted nurse is gone, and every key not containing the id is kept with its value. */
  lemma DeleteDropsEveryKeyOfTheNurse(schedule: MonthlySchedule, nurseId: string, year: nat, month: nat)
    ensures ScheduleKey(year, month, nurseId) !in DropKeysContaining(schedule, nurseId)
    ensures forall k :: k in schedule && !Contains(k, nurseId) ==>
      k in DropKeysContaining(schedule, nurseId) && DropKeysContaining(schedule, nurseId)[k] == schedule[k]
  {
    ContainsSuffix(NatToString(year) + "-" + NatToString(month) + "-", nurseId);
  }

  /** The filter also removes the keys of any other nurse whose id contains the deleted one. */
  lemma DeleteDropsKeysOfOtherNurses(schedule: MonthlySchedule, nurseId: string, year: nat, month: nat, other: string)
    requires Contains(other, nurseId)
    ensures ScheduleKey(year, month, other) !in DropKeysContaining(schedule, nurseId)
  {
    ContainsExtend(NatToString(year) + "-" + NatToString(month) + "-", other, nurseId);
  }

  /** Deleting nurse "1" loses the May 2024 schedule of nurse "11". */
  lemma DeletingNurse1DropsNurse11()
    ensures var k := ScheduleKey(2024, 5, "11");
      && !KeyOfNurse(k, "1")
      && DropKeysContaining(map[k := [DefaultDay]], "1") == map[]
  {
    var k := ScheduleKey(2024, 5, "11");
    ParseScheduleKey(2024, 5, "11");
    DeleteDropsKeysOfOtherNurses(map[k := [DefaultDay]], "1", 2024, 5, "11");
    assert HasPrefix("11", "1");
  }

  /** The schedule map a nurse deletion evidently intends: only the keys that name that nurse are removed. */
  function DropKeysOfNurse(schedule: MonthlySchedule, nurseId: string): MonthlySchedule {
    map k | k in schedule && !KeyOfNurse(k, nurseId) :: schedule[k]
  }

  /** The structural filter removes every key of the nurse and keeps every other nurse's keys. */
  lemma DropKeysOfNurseIsExact(schedule: MonthlySchedule, nurseId: string, year: nat, month: nat, other: string)
    ensures ScheduleKey(year, month, nurseId) !in DropKeysOfNurse(schedule, nurseId)
    ensures other != nurseId && ScheduleKey(year, month, other) in schedule ==>
      && ScheduleKey(year, month, other) in DropKeysOfNurse(schedule, nurseId)
      && DropKeysOfNurse(schedule, nurseId)[ScheduleKey(year, month, other)] == schedule[ScheduleKey(year, month, other)]
  {
    ParseScheduleKey(year, month, nurseId);
    ParseScheduleKey(year, month, other);
  }

  /** The client-side schedule store (`useScheduleStore`). */
  class Store {
    var nurses: seq<Nurse>
    var schedule: MonthlySchedule
    var loading: bool
    var error: Option<string>

    constructor ()
      ensures nurses == [] && schedule == map[] && !loading && error == None
    {
      nurses := [];
      schedule := map[];
      loading := false;
      error := None;
    }

    /**
     * `loadData`: when both fetches succeed, the nurse list becomes the fetched
     * list and the map is rebuilt from scratch from the fetched rows; when
     * either fails, only `error` changes. Nothing is rethrown.
     */
    method LoadData(nursesReply: Reply<seq<Nurse>>, schedulesReply: Reply<seq<ScheduleRow>>)
      modifies this
      ensures !loading
      ensures nursesReply.Ok? && schedulesReply.Ok? ==>
        && nurses == nursesReply.data.GetOr([])
        && schedule == BuildSchedule(schedulesReply.data.GetOr([]))
        && error == None
      ensures !(nursesReply.Ok? && schedulesReply.Ok?) ==>
        nurses == old(nurses) && schedule == old(schedule) && error == Some(LoadFailed)
    {
      loading, error := true, None;
      if nursesReply.Err? || schedulesReply.Err? {
        error := Some(LoadFailed);
      } else {
        var rows := schedulesReply.data.GetOr([]);
        var data: MonthlySchedule := map[];
        var i := 0;
        while i < |rows|
          invariant 0 <= i <= |rows|
          invariant data == BuildSchedule(rows[..i])
        {
          assert rows[..i + 1][..i] == rows[..i];
          data := data[rows[i].key := rows[i].schedule];
          i := i + 1;
        }
        assert rows[..|rows|] == rows;
        nurses, schedule, error := nursesReply.data.GetOr([]), data, None;
      }
      loading := false;
    }

    /**
     * `addNurse`: on a successful insert the nurse is appended after the
     * existing ones; on a failed insert nothing but `error` changes and the
     * failure is rethrown.
     */
    method AddNurse(nurse: Nurse, insert: Write) returns (thrown: Option<Failure>)
      modifies this
      ensures !loading && schedule == old(schedule)
      ensures insert.Done? ==> nurses == old(nurses) + [nurse] && error == None && thrown == None
      ensures insert.Failed? ==>
        nurses == old(nurses) && error == Some(AddFailed) && thrown == Some(insert.failure)
    {
      loading, error := true, None;
      if insert.Failed? {
        error, thrown := Some(AddFailed), Some(insert.failure);
      } else {
        nurses, thrown := nurses + [nurse], None;
      }
      loading := false;
    }

    /**
     * `deleteNurse`: a failed nurse-row delete aborts it before the cascading
     * delete of schedule rows is made; the cascade's returned `{ error }` is
     * never looked at, but a cascade that throws aborts it too. On success the
     * nurses with that id and every key containing the id are dropped.
     */
    method DeleteNurse(nurseId: string, rowDelete: Write, cascadeDelete: Write) returns (thrown: Option<Failure>)
      modifies this
      ensures !loading
      ensures rowDelete.Done? && cascadeDelete != Failed(Thrown) ==>
        && nurses == WithoutNurse(old(nurses), nurseId)
        && schedule == DropKeysContaining(old(schedule), nurseId)
        && error == None && thrown == None
      ensures rowDelete.Failed? ==>
        && nurses == old(nurses) && schedule == old(schedule)
        && error == Some(DeleteFailed) && thrown == Some(rowDelete.failure)
      ensures rowDelete.Done? && cascadeDelete == Failed(Thrown) ==>
        && nurses == old(nurses) && schedule == old(schedule)
        && error == Some(DeleteFailed) && thrown == Some(Thrown)
    {
      loading, error := true, None;
      if rowDelete.Failed? {
        error, thrown := Some(DeleteFailed), Some(rowDelete.failure);
      } else if cascadeDelete == Failed(Thrown) {
        error, thrown := Some(DeleteFailed), Some(Thrown);
      } else {
        nurses := WithoutNurse(nurses, nurseId);
        schedule := DropKeysContaining(schedule, nurseId);
        thrown := None;
      }
      loading := false;
    }

    /**
     * `updateSchedule`: on a successful upsert the key of that nurse and month
     * holds exactly `newSchedule` (the whole array is replaced) and every other
     * key is untouched; on failure nothing but `error` changes and the failure
     * is rethrown.
     */
    method UpdateSchedule(nurseId: string, year: nat, month: nat, newSchedule: seq<DaySchedule>, upsert: Write)
      returns (thrown: Option<Failure>)
      modifies this
      ensures !loading && nurses == old(nurses)
      ensures upsert.Done? ==>
        && schedule == old(schedule)[ScheduleKey(year, month, nurseId) := newSchedule]
        && error == None && thrown == None
      ensures upsert.Failed? ==>
        schedule == old(schedule) && error == Some(UpdateFailed) && thrown == Some(upsert.failure)
    {
      loading, error := true, None;
      var key := ScheduleKey(year, month, nurseId);
      if upsert.Failed? {
        error, thrown := Some(UpdateFailed), Some(upsert.failure);
      } else {
        schedule, thrown := schedule[key := newSchedule], None;
      }
      loading := false;
    }
  }
}
