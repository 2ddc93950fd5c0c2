/** The backend over a live `routine_lists` collection: every callable reads
    the documents it needs and updates them in place, and the hourly run
    walks all documents. Each method is specified by the transition of the
    same name in `Callables` or `Sweep`. */
module RoutineStore {
  import opened RoutineTypes
  import opened Tasks
  import Callables
  import Sweep

  class Database {
    /** The documents of `routine_lists`, keyed by document id. */
    var lists: map<ListId, RoutineList>

    constructor ()
      ensures lists == map[]
    {
      lists := map[];
    }

    method CreateRoutineList(caller: Caller, name: Option<string>, timezone: Option<string>, freshId: ListId)
      returns (r: Result<ListId>)
      requires freshId !in lists
      modifies this
      ensures Callables.Reply(r, lists) == Callables.CreateRoutineList(old(lists), caller, name, timezone, freshId)
    {
      var auth := Callables.GetUid(caller);
      if auth.Err? {
        return Err(auth.code);
      }
      if !Given(name) || !Given(timezone) {
        return Err(InvalidArgument);
      }
      var newList := RoutineList(name.value, timezone.value, [auth.value], []);
      lists := lists[freshId := newList];
      r := Ok(freshId);
    }

    // The two reads are kept on the class so that it offers every callable
    // the backend exports; each is specified by its transition in `Callables`.

    method GetRoutineLists(caller: Caller) returns (r: Result<map<ListId, RoutineList>>)
      ensures r == Callables.GetRoutineLists(lists, caller)
    {
      var auth := Callables.GetUid(caller);
      if auth.Err? {
        return Err(auth.code);
      }
      var uid := auth.value;
      r := Ok(map id | id in lists && uid in lists[id].admins :: lists[id]);
    }

    method GetRoutineListDetails(caller: Caller, listId: Option<ListId>) returns (r: Result<RoutineList>)
      ensures r == Callables.GetRoutineListDetails(lists, caller, listId)
    {
      var auth := Callables.GetUid(caller);
      if auth.Err? {
        return Err(auth.code);
      }
      if !Given(listId) {
        return Err(InvalidArgument);
      }
      if listId.value !in lists {
        return Err(NotFound);
      }
      var listData := lists[listId.value];
      if auth.value !in listData.admins {
        return Err(PermissionDenied);
      }
      r := Ok(listData);
    }

    method AddTask(caller: Caller, listId: Option<ListId>, description: Option<string>,
                   refreshTime: Option<string>, newId: TaskId) returns (r: Result<TaskId>)
      modifies this
      ensures Callables.Reply(r, lists)
              == Callables.AddTask(old(lists), caller, listId, description, refreshTime, newId)
    {
      var auth := Callables.GetUid(caller);
      if auth.Err? {
        return Err(auth.code);
      }
      if !Given(listId) || !Given(description) || !Given(refreshTime) {
        return Err(InvalidArgument);
      }
      if listId.value !in lists || auth.value !in lists[listId.value].admins {
        return Err(PermissionDenied);
      }
      var listData := lists[listId.value];
      var newTask := Task(newId, description.value, false, refreshTime.value);
      lists := lists[listId.value := listData.(tasks := ArrayUnion(listData.tasks, newTask))];
      r := Ok(newId);
    }

    method UpdateTaskStatus(caller: Caller, listId: Option<ListId>, taskId: Option<TaskId>, status: Option<bool>)
      returns (r: Result<()>)
      modifies this
      ensures Callables.Reply(r, lists) == Callables.UpdateTaskStatus(old(lists), caller, listId, taskId, status)
    {
      var auth := Callables.GetUid(caller);
      if auth.Err? {
        return Err(auth.code);
      }
      if !Given(listId) || !Given(taskId) || status.None? {
        return Err(InvalidArgument);
      }
      if listId.value !in lists || auth.value !in lists[listId.value].admins {
        return Err(PermissionDenied);
      }
      var listData := lists[listId.value];
      var newTasks := SetStatus(listData.tasks, taskId.value, status.value);
      lists := lists[listId.value := listData.(tasks := newTasks)];
      r := Ok(());
    }

    /** `users` stands for the accounts `getUserByEmail` can find. */
    method InviteAdmin(caller: Caller, listId: Option<ListId>, email: Option<Email>, users: map<Email, Uid>)
      returns (r: Result<()>)
      modifies this
      ensures Callables.Reply(r, lists) == Callables.InviteAdmin(old(lists), caller, listId, email, users)
    {
      var auth := Callables.GetUid(caller);
      if auth.Err? {
        return Err(auth.code);
      }
      if !Given(listId) || !Given(email) {
        return Err(InvalidArgument);
      }
      if listId.value !in lists || auth.value !in lists[listId.value].admins {
        return Err(PermissionDenied);
      }
      var listData := lists[listId.value];
      // try
      var thrown: Option<ErrorCode> := None;
      if email.value !in users {
        thrown := Some(NotFound);
      } else {
        var newAdminUid := users[email.value];
        if newAdminUid in listData.admins {
          thrown := Some(AlreadyExists);
        } else {
          lists := lists[listId.value := listData.(admins := ArrayUnion(listData.admins, newAdminUid))];
        }
      }
      // catch: whatever was thrown is reported as not-found
      if thrown.Some? {
        return Err(NotFound);
      }
      r := Ok(());
    }

    /** The scheduled run; `zones` gives the current hour in each timezone
        the conversion succeeds for. Returns the documents it wrote back. */
    method DailyReset(zones: Sweep.ZoneHours) returns (written: set<ListId>)
      modifies this
      ensures lists == Sweep.DailyReset(old(lists), zones)
      ensures written == Sweep.Written(old(lists), zones)
    {
      var snapshot := lists;
      written := {};
      if |snapshot| == 0 {
        return;
      }
      var pending := snapshot.Keys;
      while pending != {}
        invariant pending <= snapshot.Keys && written <= snapshot.Keys
        invariant lists.Keys == snapshot.Keys
        invariant forall id :: id in pending ==> lists[id] == snapshot[id] && id !in written
        invariant forall id :: id in snapshot && id !in pending ==>
                    lists[id] == Sweep.SweepList(snapshot[id], zones)
                    && (id in written <==> Sweep.Writes(snapshot[id], zones))
        decreases pending
      {
        var id :| id in pending;
        var newList, needsUpdate := ProcessList(snapshot[id], zones);
        if needsUpdate {
          lists := lists[id := newList];
          written := written + {id};
        }
        pending := pending - {id};
      }
    }
  }

  /** The body of the loop of `dailyReset` for one document: the list to
      write back and whether to write it. */
  method ProcessList(list: RoutineList, zones: Sweep.ZoneHours) returns (newList: RoutineList, needsUpdate: bool)
    ensures needsUpdate == Sweep.Writes(list, zones)
    ensures newList == Sweep.SweepList(list, zones)
    ensures !needsUpdate ==> newList == list
  {
    newList, needsUpdate := list, false;
    var timezone := Sweep.EffectiveZone(list.timezone);
    if timezone in zones {
      var newTasks;
      newTasks, needsUpdate := ResetList(list.tasks, zones[timezone]);
      if needsUpdate {
        newList := list.(tasks := newTasks);
      }
    }
  }
}
