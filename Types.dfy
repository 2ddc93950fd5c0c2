/** Values of the routine-list backend: the documents of the `routine_lists`
    collection, the caller of a callable function, the request fields it reads
    and the error codes it raises. */
module RoutineTypes {

  type Uid = string
  type ListId = string
  type TaskId = string
  type Email = string

  /** An hour of the day, as `format(..., 'HH')` followed by `parseInt` yields it. */
  type Hour = h: int | 0 <= h < 24

  datatype Option<+T> = None | Some(value: T)

  /** The `HttpsError` codes the callable functions raise. */
  datatype ErrorCode = Unauthenticated | InvalidArgument | NotFound | PermissionDenied | AlreadyExists

  datatype Result<+T> = Ok(value: T) | Err(code: ErrorCode)

  /** One checklist item; `refreshTime` is the "HH:MM" text the client sent. */
  datatype Task = Task(id: TaskId, description: string, status: bool, refreshTime: string)

  /** One document of `routine_lists`. */
  datatype RoutineList = RoutineList(name: string, timezone: string, admins: seq<Uid>, tasks: seq<Task>)

  /** The `routine_lists` collection, keyed by document id. */
  type Store = map<ListId, RoutineList>

  /** The auth context of a request: none, or a signed-in user's uid. */
  datatype Caller = Anonymous | SignedIn(uid: Uid)

  /** A string field of `request.data` that JavaScript treats as truthy:
      present and not the empty string. */
  predicate Given(field: Option<string>)
  {
    field.Some? && field.value != ""
  }

  /** `FieldValue.arrayUnion(x)` applied to one array: append `x` unless an
      equal element is already there. */
  function ArrayUnion<T(==)>(s: seq<T>, x: T): (r: seq<T>)
    ensures x in r && forall y :: y in s ==> y in r
    ensures x in s ==> r == s
    ensures x !in s ==> r == s + [x]
  {
    if x in s then s else s + [x]
  }

  predicate NoDuplicates<T(==)>(s: seq<T>)
  {
    forall i, j :: 0 <= i < j < |s| ==> s[i] != s[j]
  }
}
