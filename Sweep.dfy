/** The scheduled `dailyReset` run, as a transition of the whole
    `routine_lists` collection. It runs every hour; in each list, every
    completed task whose refreshTime names the current hour of the list's
    timezone goes back to pending. */
module Sweep {
  import opened RoutineTypes
  import opened Tasks
  import opened Callables

  /** The current hour in each timezone at the moment of the run. A zone
      absent here is one the timezone conversion fails on: the run logs the
      error and goes on with the next list. */
  type ZoneHours = map<string, Hour>

  /** `list.timezone || "UTC"`. */
  function EffectiveZone(timezone: string): (zone: string)
    ensures zone != ""
    ensures timezone != "" ==> zone == timezone
    ensures timezone == "" ==> zone == "UTC"
  {
    if timezone == "" then "UTC" else timezone
  }

  /** The current hour in the list's timezone, or `None` when converting fails. */
  function ListHour(l: RoutineList, zones: ZoneHours): Option<Hour>
  {
    var zone := EffectiveZone(l.timezone);
    if zone in zones then Some(zones[zone]) else None
  }

  /** The run writes the list back: its hour is known and `needsUpdate` is raised. */
  predicate Writes(l: RoutineList, zones: ZoneHours)
  {
    ListHour(l, zones).Some? && NeedsReset(l.tasks, ListHour(l, zones).value)
  }

  /** One iteration of the loop over the documents. The conditional write
      saves a write but never a change: the result is the reset array
      whenever the hour is known. */
  function SweepList(l: RoutineList, zones: ZoneHours): (r: RoutineList)
    ensures r.name == l.name && r.timezone == l.timezone && r.admins == l.admins
    ensures ListHour(l, zones).None? ==> r == l
    ensures ListHour(l, zones).Some? ==> r.tasks == ResetTasks(l.tasks, ListHour(l, zones).value)
  {
    match ListHour(l, zones)
    case None => l
    case Some(h) =>
      NeedsResetIffChanged(l.tasks, h);
      if NeedsReset(l.tasks, h) then l.(tasks := ResetTasks(l.tasks, h)) else l
  }

  /** The collection after a run. A list whose timezone cannot be converted
      is left as it was and does not keep the others from being reset. */
  function DailyReset(db: Store, zones: ZoneHours): (r: Store)
    ensures r.Keys == db.Keys
    ensures forall id :: id in db ==>
              r[id].name == db[id].name && r[id].timezone == db[id].timezone && r[id].admins == db[id].admins
    ensures forall id :: id in db && ListHour(db[id], zones).None? ==> r[id] == db[id]
    ensures forall id :: id in db && ListHour(db[id], zones).Some? ==>
              r[id].tasks == ResetTasks(db[id].tasks, ListHour(db[id], zones).value)
  {
    map id | id in db :: SweepList(db[id], zones)
  }

  /** The documents a run writes back. */
  function Written(db: Store, zones: ZoneHours): set<ListId>
  {
    set id | id in db && Writes(db[id], zones)
  }

  /** A run writes a list exactly when the list changes. */
  lemma WrittenIffChanged(db: Store, zones: ZoneHours, id: ListId)
    requires id in db
    ensures id in Written(db, zones) <==> DailyReset(db, zones)[id] != db[id]
  {
    var h := ListHour(db[id], zones);
    if h.Some? {
      NeedsResetIffChanged(db[id].tasks, h.value);
    }
  }

  /** A second run in the same hour changes nothing and writes nothing. */
  lemma DailyResetIdempotent(db: Store, zones: ZoneHours)
    ensures DailyReset(DailyReset(db, zones), zones) == DailyReset(db, zones)
    ensures Written(DailyReset(db, zones), zones) == {}
  {
    var once := DailyReset(db, zones);
    forall id | id in db
      ensures DailyReset(once, zones)[id] == once[id]
      ensures !Writes(once[id], zones)
    {
      assert ListHour(once[id], zones) == ListHour(db[id], zones);
      var h := ListHour(db[id], zones);
      if h.Some? {
        ResetTasksIdempotent(db[id].tasks, h.value);
      }
    }
  }

  /** A run never marks a task done, keeps every list's tasks in place (same
      length, ids, descriptions and refreshTimes) and keeps the collection valid. */
  lemma DailyResetOnlyClears(db: Store, zones: ZoneHours, id: ListId, i: int)
    requires id in db && 0 <= i < |db[id].tasks|
    ensures var after := DailyReset(db, zones)[id].tasks;
            && |after| == |db[id].tasks|
            && after[i].id == db[id].tasks[i].id
            && after[i].description == db[id].tasks[i].description
            && after[i].refreshTime == db[id].tasks[i].refreshTime
            && (after[i].status ==> db[id].tasks[i].status)
  {
  }

  lemma DailyResetPreservesValid(db: Store, zones: ZoneHours)
    requires ValidStore(db)
    ensures ValidStore(DailyReset(db, zones))
  {
    var r := DailyReset(db, zones);
    forall id | id in r ensures ValidList(r[id]) {
      var before, after := db[id].tasks, r[id].tasks;
      forall t | t in after ensures t.description != "" && t.refreshTime != "" {
        var i :| 0 <= i < |after| && after[i] == t;
        assert before[i] in before;
      }
    }
  }

  /** A task marked done through `updateTaskStatus` whose refreshTime reads
      "HH:MM" is pending again after the run in hour HH of its list's timezone. */
  lemma CompletedTaskResetsAtItsHour(db: Store, caller: Caller, listId: ListId, taskId: TaskId,
                                     zones: ZoneHours, i: int, h: Hour, minutes: string)
    requires listId in db && 0 <= i < |db[listId].tasks| && db[listId].tasks[i].id == taskId
    requires db[listId].tasks[i].refreshTime == TwoDigits(h) + [':'] + minutes
    requires ListHour(db[listId], zones) == Some(h)
    ensures var out := UpdateTaskStatus(db, caller, Some(listId), Some(taskId), Some(true));
            out.result.Ok? ==>
              && out.store[listId].tasks[i].status
              && !DailyReset(out.store, zones)[listId].tasks[i].status
  {
    TaskHourOfClockText(h, minutes);
    ResetUndoesCompletion(db[listId].tasks, taskId, h, i);
  }
}
