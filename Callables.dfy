/** The callable functions of the backend as transitions of the
    `routine_lists` collection: each takes the collection, the caller and the
    request fields and gives the reply together with the collection after
    the call. */
module Callables {
  import opened RoutineTypes
  import opened Tasks

  /** What a callable answers, and the collection it leaves behind. */
  datatype Reply<+T> = Reply(result: Result<T>, store: Store)

  /** `getUid` succeeds: the request carries a non-empty uid. */
  predicate Authenticated(caller: Caller)
  {
    caller.SignedIn? && caller.uid != ""
  }

  /** `getUid` outside the emulator. */
  function GetUid(caller: Caller): (r: Result<Uid>)
    ensures r.Ok? <==> Authenticated(caller)
    ensures r.Ok? ==> r.value == caller.uid
    ensures r.Err? ==> r.code == Unauthenticated
  {
    if Authenticated(caller) then Ok(caller.uid) else Err(Unauthenticated)
  }

  /** The document exists and `admins.includes(uid)`. */
  predicate IsAdminOf(db: Store, listId: ListId, uid: Uid)
  {
    listId in db && uid in db[listId].admins
  }

  /** No list appears or disappears, and every list but `listId` is as it was. */
  predicate OnlyListChanged(db: Store, db': Store, listId: ListId)
  {
    db'.Keys == db.Keys && forall id :: id in db && id != listId ==> db'[id] == db[id]
  }

  /** `arrayUnion(task)` on the tasks of `before` gave `after`; nothing else changed. */
  predicate TaskAdded(before: RoutineList, after: RoutineList, task: Task)
  {
    && after.name == before.name && after.timezone == before.timezone && after.admins == before.admins
    && task in after.tasks
    && (task in before.tasks ==> after.tasks == before.tasks)
    && (task !in before.tasks ==> after.tasks == before.tasks + [task])
  }

  // ---------------------------------------------------------------------------
  // The callables
  // ---------------------------------------------------------------------------

  /** `createRoutineList`; `freshId` is the id `collection.add` picks, which
      names no existing document. */
  function CreateRoutineList(db: Store, caller: Caller, name: Option<string>, timezone: Option<string>,
                             freshId: ListId): (out: Reply<ListId>)
    requires freshId !in db
    ensures out.result.Err? ==> out.store == db
    ensures out.result == Err(Unauthenticated) <==> !Authenticated(caller)
    ensures out.result == Err(InvalidArgument) <==> Authenticated(caller) && !(Given(name) && Given(timezone))
    ensures out.result.Ok? <==> Authenticated(caller) && Given(name) && Given(timezone)
    ensures out.result.Ok? ==>
              && Given(name) && Given(timezone)
              && out.result.value == freshId
              && out.store.Keys == db.Keys + {freshId} && |out.store| == |db| + 1
              && (forall id :: id in db ==> out.store[id] == db[id])
              && out.store[freshId] == RoutineList(name.value, timezone.value, [caller.uid], [])
  {
    match GetUid(caller)
    case Err(code) => Reply(Err(code), db)
    case Ok(uid) =>
      if !Given(name) || !Given(timezone) then Reply(Err(InvalidArgument), db)
      else Reply(Ok(freshId), db[freshId := RoutineList(name.value, timezone.value, [uid], [])])
  }

  /** `getRoutineLists`: the documents whose `admins` contain the caller. */
  function GetRoutineLists(db: Store, caller: Caller): (r: Result<map<ListId, RoutineList>>)
    ensures r.Err? <==> !Authenticated(caller)
    ensures r.Err? ==> r.code == Unauthenticated
    ensures r.Ok? ==> forall id :: id in r.value <==> IsAdminOf(db, id, caller.uid)
    ensures r.Ok? ==> forall id :: id in r.value ==> id in db && r.value[id] == db[id]
  {
    match GetUid(caller)
    case Err(code) => Err(code)
    case Ok(uid) => Ok(map id | id in db && uid in db[id].admins :: db[id])
  }

  /** `getRoutineListDetails`: three guards in order, then the document. */
  function GetRoutineListDetails(db: Store, caller: Caller, listId: Option<ListId>): (r: Result<RoutineList>)
    ensures r == Err(Unauthenticated) <==> !Authenticated(caller)
    ensures r == Err(InvalidArgument) <==> Authenticated(caller) && !Given(listId)
    ensures r == Err(NotFound) <==> Authenticated(caller) && Given(listId) && listId.value !in db
    ensures r == Err(PermissionDenied) <==>
              Authenticated(caller) && Given(listId) && listId.value in db && caller.uid !in db[listId.value].admins
    ensures r.Ok? <==> Authenticated(caller) && Given(listId) && IsAdminOf(db, listId.value, caller.uid)
    ensures r.Ok? ==> Given(listId) && IsAdminOf(db, listId.value, caller.uid) && r.value == db[listId.value]
  {
    match GetUid(caller)
    case Err(code) => Err(code)
    case Ok(uid) =>
      if !Given(listId) then Err(InvalidArgument)
      else if listId.value !in db then Err(NotFound)
      else if uid !in db[listId.value].admins then Err(PermissionDenied)
      else Ok(db[listId.value])
  }

  /** `addTask`; `newId` is the value `uuidv4()` returned. A missing list and a
      non-admin caller both get permission-denied. */
  function AddTask(db: Store, caller: Caller, listId: Option<ListId>, description: Option<string>,
                   refreshTime: Option<string>, newId: TaskId): (out: Reply<TaskId>)
    ensures out.result.Err? ==> out.store == db
    ensures out.result == Err(Unauthenticated) <==> !Authenticated(caller)
    ensures out.result == Err(InvalidArgument) <==>
              Authenticated(caller) && !(Given(listId) && Given(description) && Given(refreshTime))
    ensures out.result == Err(PermissionDenied) <==>
              Authenticated(caller) && Given(listId) && Given(description) && Given(refreshTime)
              && !IsAdminOf(db, listId.value, caller.uid)
    ensures out.result.Ok? <==>
              Authenticated(caller) && Given(listId) && Given(description) && Given(refreshTime)
              && IsAdminOf(db, listId.value, caller.uid)
    ensures out.result.Ok? ==>
              && Given(listId) && Given(description) && Given(refreshTime)
              && IsAdminOf(db, listId.value, caller.uid)
              && out.result.value == newId
              && OnlyListChanged(db, out.store, listId.value)
              && TaskAdded(db[listId.value], out.store[listId.value],
                           Task(newId, description.value, false, refreshTime.value))
  {
    match GetUid(caller)
    case Err(code) => Reply(Err(code), db)
    case Ok(uid) =>
      if !Given(listId) || !Given(description) || !Given(refreshTime) then Reply(Err(InvalidArgument), db)
      else if !IsAdminOf(db, listId.value, uid) then Reply(Err(PermissionDenied), db)
      else
        var list := db[listId.value];
        var newTask := Task(newId, description.value, false, refreshTime.value);
        Reply(Ok(newId), db[listId.value := list.(tasks := ArrayUnion(list.tasks, newTask))])
  }

  /** `updateTaskStatus`; `status` is `None` when the request's status is not
      a boolean. The array is written back even when no task has `taskId`. */
  function UpdateTaskStatus(db: Store, caller: Caller, listId: Option<ListId>, taskId: Option<TaskId>,
                            status: Option<bool>): (out: Reply<()>)
    ensures out.result.Err? ==> out.store == db
    ensures out.result == Err(Unauthenticated) <==> !Authenticated(caller)
    ensures out.result == Err(InvalidArgument) <==>
              Authenticated(caller) && !(Given(listId) && Given(taskId) && status.Some?)
    ensures out.result == Err(PermissionDenied) <==>
              Authenticated(caller) && Given(listId) && Given(taskId) && status.Some?
              && !IsAdminOf(db, listId.value, caller.uid)
    ensures out.result.Ok? <==>
              Authenticated(caller) && Given(listId) && Given(taskId) && status.Some?
              && IsAdminOf(db, listId.value, caller.uid)
    ensures out.result.Ok? ==>
              && Given(listId) && Given(taskId) && status.Some?
              && IsAdminOf(db, listId.value, caller.uid)
              && OnlyListChanged(db, out.store, listId.value)
              && out.store[listId.value]
                 == db[listId.value].(tasks := SetStatus(db[listId.value].tasks, taskId.value, status.value))
  {
    match GetUid(caller)
    case Err(code) => Reply(Err(code), db)
    case Ok(uid) =>
      if !Given(listId) || !Given(taskId) || status.None? then Reply(Err(InvalidArgument), db)
      else if !IsAdminOf(db, listId.value, uid) then Reply(Err(PermissionDenied), db)
      else
        var list := db[listId.value];
        Reply(Ok(()), db[listId.value := list.(tasks := SetStatus(list.tasks, taskId.value, status.value))])
  }

  /** The `try` block of `inviteAdmin`: look the email up (`users` stands for
      the accounts `getUserByEmail` knows), refuse a uid that is already an
      admin, otherwise give the list with the uid added by `arrayUnion`. */
  function TryInvite(list: RoutineList, email: Email, users: map<Email, Uid>): (r: Result<RoutineList>)
    ensures r == Err(NotFound) <==> email !in users
    ensures r == Err(AlreadyExists) <==> email in users && users[email] in list.admins
    ensures r.Ok? <==> email in users && users[email] !in list.admins
    ensures r.Ok? ==> email in users && r.value == list.(admins := list.admins + [users[email]])
  {
    if email !in users then Err(NotFound)
    else if users[email] in list.admins then Err(AlreadyExists)
    else Ok(list.(admins := ArrayUnion(list.admins, users[email])))
  }

  /** `inviteAdmin`. Its `catch` turns every error of the `try` block,
      already-exists included, into not-found. */
  function InviteAdmin(db: Store, caller: Caller, listId: Option<ListId>, email: Option<Email>,
                       users: map<Email, Uid>): (out: Reply<()>)
    ensures out.result.Err? ==> out.store == db
    ensures out.result != Err(AlreadyExists)
    ensures out.result == Err(Unauthenticated) <==> !Authenticated(caller)
    ensures out.result == Err(InvalidArgument) <==> Authenticated(caller) && !(Given(listId) && Given(email))
    ensures out.result == Err(PermissionDenied) <==>
              Authenticated(caller) && Given(listId) && Given(email) && !IsAdminOf(db, listId.value, caller.uid)
    ensures out.result.Ok? <==>
              && Authenticated(caller) && Given(listId) && Given(email)
              && IsAdminOf(db, listId.value, caller.uid)
              && email.value in users && users[email.value] !in db[listId.value].admins
    ensures out.result == Err(NotFound) <==>
              && Authenticated(caller) && Given(listId) && Given(email)
              && IsAdminOf(db, listId.value, caller.uid)
              && (email.value !in users || users[email.value] in db[listId.value].admins)
    ensures out.result.Ok? ==>
              && OnlyListChanged(db, out.store, listId.value)
              && out.store[listId.value]
                 == db[listId.value].(admins := db[listId.value].admins + [users[email.value]])
  {
    match GetUid(caller)
    case Err(code) => Reply(Err(code), db)
    case Ok(uid) =>
      if !Given(listId) || !Given(email) then Reply(Err(InvalidArgument), db)
      else if !IsAdminOf(db, listId.value, uid) then Reply(Err(PermissionDenied), db)
      else
        match TryInvite(db[listId.value], email.value, users)
        case Ok(list) => Reply(Ok(()), db[listId.value := list])
        case Err(_) => Reply(Err(NotFound), db)
  }

  // ---------------------------------------------------------------------------
  // What the callables keep true of the collection
  // ---------------------------------------------------------------------------

  predicate UniqueTaskIds(tasks: seq<Task>)
  {
    forall i, j :: 0 <= i < j < |tasks| ==> tasks[i].id != tasks[j].id
  }

  /** What every document written by these functions satisfies. */
  predicate ValidList(l: RoutineList)
  {
    && l.name != "" && l.timezone != ""
    && |l.admins| > 0 && NoDuplicates(l.admins)
    && (forall t | t in l.tasks :: t.description != "" && t.refreshTime != "")
    && UniqueTaskIds(l.tasks)
  }

  predicate ValidStore(db: Store)
  {
    forall id | id in db :: ValidList(db[id])
  }

  /** `newId` names no task of any list (what a v4 UUID is relied on for). */
  predicate FreshTaskId(db: Store, newId: TaskId)
  {
    forall id, t | id in db && t in db[id].tasks :: t.id != newId
  }

  lemma CreatePreservesValid(db: Store, caller: Caller, name: Option<string>, timezone: Option<string>,
                             freshId: ListId)
    requires freshId !in db && ValidStore(db)
    ensures ValidStore(CreateRoutineList(db, caller, name, timezone, freshId).store)
  {
  }

  /** With a fresh id, `addTask` appends exactly one pending task and keeps
      the collection valid. */
  lemma AddTaskAppendsPending(db: Store, caller: Caller, listId: Option<ListId>, description: Option<string>,
                              refreshTime: Option<string>, newId: TaskId)
    requires ValidStore(db) && FreshTaskId(db, newId)
    ensures var out := AddTask(db, caller, listId, description, refreshTime, newId);
            && ValidStore(out.store)
            && (out.result.Ok? ==>
                  out.store[listId.value].tasks
                  == db[listId.value].tasks + [Task(newId, description.value, false, refreshTime.value)])
  {
    var out := AddTask(db, caller, listId, description, refreshTime, newId);
    if out.result.Ok? {
      var before, after := db[listId.value], out.store[listId.value];
      var task := Task(newId, description.value, false, refreshTime.value);
      assert task !in before.tasks;
      assert after.tasks == before.tasks + [task];
      forall i, j | 0 <= i < j < |after.tasks| ensures after.tasks[i].id != after.tasks[j].id {
        if j == |before.tasks| {
          assert after.tasks[i] in before.tasks;
        }
      }
      assert ValidList(after);
    }
  }

  lemma UpdateTaskStatusPreservesValid(db: Store, caller: Caller, listId: Option<ListId>, taskId: Option<TaskId>,
                                       status: Option<bool>)
    requires ValidStore(db)
    ensures ValidStore(UpdateTaskStatus(db, caller, listId, taskId, status).store)
  {
    var out := UpdateTaskStatus(db, caller, listId, taskId, status);
    if out.result.Ok? {
      var before, after := db[listId.value], out.store[listId.value];
      forall t | t in after.tasks ensures t.description != "" && t.refreshTime != "" {
        var i :| 0 <= i < |after.tasks| && after.tasks[i] == t;
        assert before.tasks[i] in before.tasks;
      }
      assert ValidList(after);
    }
  }

  lemma InviteAdminPreservesValid(db: Store, caller: Caller, listId: Option<ListId>, email: Option<Email>,
                                  users: map<Email, Uid>)
    requires ValidStore(db)
    ensures ValidStore(InviteAdmin(db, caller, listId, email, users).store)
  {
    var out := InviteAdmin(db, caller, listId, email, users);
    if out.result.Ok? {
      var before, after := db[listId.value], out.store[listId.value];
      forall i, j | 0 <= i < j < |after.admins| ensures after.admins[i] != after.admins[j] {
        if j == |before.admins| {
          assert after.admins[i] in before.admins;
        }
      }
      assert ValidList(after);
    }
  }

  /** Access control: a caller who is not an admin of list `id` changes
      nothing in it, whichever callable is used, and creating a list leaves
      every existing list alone. */
  lemma NonAdminsCannotChangeList(db: Store, caller: Caller, id: ListId, listId: Option<ListId>,
                                  description: Option<string>, refreshTime: Option<string>, newId: TaskId,
                                  taskId: Option<TaskId>, status: Option<bool>, email: Option<Email>,
                                  users: map<Email, Uid>, name: Option<string>, timezone: Option<string>,
                                  freshId: ListId)
    requires id in db && freshId !in db
    requires !(Authenticated(caller) && caller.uid in db[id].admins)
    ensures AddTask(db, caller, listId, description, refreshTime, newId).store[id] == db[id]
    ensures UpdateTaskStatus(db, caller, listId, taskId, status).store[id] == db[id]
    ensures InviteAdmin(db, caller, listId, email, users).store[id] == db[id]
    ensures CreateRoutineList(db, caller, name, timezone, freshId).store[id] == db[id]
  {
  }

  /** No callable removes a list or an admin: every admin of a list is still
      an admin of it afterwards. */
  lemma AdminsNeverLost(db: Store, caller: Caller, id: ListId, uid: Uid, listId: Option<ListId>,
                        description: Option<string>, refreshTime: Option<string>, newId: TaskId,
                        taskId: Option<TaskId>, status: Option<bool>, email: Option<Email>,
                        users: map<Email, Uid>, name: Option<string>, timezone: Option<string>,
                        freshId: ListId)
    requires IsAdminOf(db, id, uid) && freshId !in db
    ensures IsAdminOf(CreateRoutineList(db, caller, name, timezone, freshId).store, id, uid)
    ensures IsAdminOf(AddTask(db, caller, listId, description, refreshTime, newId).store, id, uid)
    ensures IsAdminOf(UpdateTaskStatus(db, caller, listId, taskId, status).store, id, uid)
    ensures IsAdminOf(InviteAdmin(db, caller, listId, email, users).store, id, uid)
  {
  }

  // ---------------------------------------------------------------------------
  // How the callables see each other's effects
  // ---------------------------------------------------------------------------

  /** The details of a list can be read exactly when the list is among the
      caller's lists, and both give the same document. */
  lemma DetailsAgreeWithListing(db: Store, caller: Caller, id: ListId)
    requires id != ""
    ensures var details := GetRoutineListDetails(db, caller, Some(id));
            var lists := GetRoutineLists(db, caller);
            && (details.Ok? <==> lists.Ok? && id in lists.value)
            && (details.Ok? ==> details.value == lists.value[id])
  {
  }

  /** The creator of a list finds it, empty, among their lists. */
  lemma CreatorSeesNewList(db: Store, caller: Caller, name: Option<string>, timezone: Option<string>,
                           freshId: ListId)
    requires freshId !in db && freshId != ""
    ensures var out := CreateRoutineList(db, caller, name, timezone, freshId);
            out.result.Ok? ==>
              && GetRoutineListDetails(out.store, caller, Some(freshId)).Ok?
              && GetRoutineListDetails(out.store, caller, Some(freshId)).value.tasks == []
              && freshId in GetRoutineLists(out.store, caller).value
  {
  }

  /** An authorised status update whose task id matches no task still
      reports success, and leaves the collection as it was. */
  lemma UnknownTaskIdStillSucceeds(db: Store, caller: Caller, listId: ListId, taskId: TaskId, status: bool)
    requires Authenticated(caller) && listId != "" && taskId != "" && IsAdminOf(db, listId, caller.uid)
    requires forall t | t in db[listId].tasks :: t.id != taskId
    ensures UpdateTaskStatus(db, caller, Some(listId), Some(taskId), Some(status)) == Reply(Ok(()), db)
  {
    SetStatusNoop(db[listId].tasks, taskId, status);
    assert db[listId := db[listId]] == db;
  }

  /** After a successful invitation the invitee can read the list and the
      inviter still can. */
  lemma InviteeGainsAccess(db: Store, caller: Caller, listId: Option<ListId>, email: Option<Email>,
                           users: map<Email, Uid>)
    ensures var out := InviteAdmin(db, caller, listId, email, users);
            out.result.Ok? && users[email.value] != "" ==>
              && GetRoutineListDetails(out.store, SignedIn(users[email.value]), listId).Ok?
              && GetRoutineListDetails(out.store, caller, listId).Ok?
  {
  }

  /** The already-exists error is swallowed: inviting a current admin by
      email is answered as if the email were unknown, and nothing changes. */
  lemma InvitingAnAdminReportsNotFound(db: Store, caller: Caller, listId: ListId, email: Email,
                                       users: map<Email, Uid>)
    requires Authenticated(caller) && listId != "" && email != "" && IsAdminOf(db, listId, caller.uid)
    requires email in users && users[email] in db[listId].admins
    ensures TryInvite(db[listId], email, users) == Err(AlreadyExists)
    ensures InviteAdmin(db, caller, Some(listId), Some(email), users) == Reply(Err(NotFound), db)
  {
  }
}
