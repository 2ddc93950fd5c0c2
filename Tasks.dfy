/** The rewrites of a list's task array: the status update of
    `updateTaskStatus` and the hour-of-day reset that `dailyReset` applies to
    each list. */
module Tasks {
  import opened RoutineTypes

  // ---------------------------------------------------------------------------
  // Reading the hour out of a task's refreshTime
  // ---------------------------------------------------------------------------

  /** `s.split(':')[0]`: the text before the first colon, or all of `s` when
      there is none. */
  function BeforeColon(s: string): (r: string)
    ensures |r| <= |s| && r == s[..|r|]
    ensures ':' !in r
    ensures |r| < |s| ==> s[|r|] == ':'
  {
    if s == [] || s[0] == ':' then [] else [s[0]] + BeforeColon(s[1..])
  }

  predicate IsDigit(c: char)
  {
    '0' <= c <= '9'
  }

  predicate AllDigits(s: string)
  {
    forall i :: 0 <= i < |s| ==> IsDigit(s[i])
  }

  /** The value of a string of decimal digits, most significant first. */
  function DecimalValue(s: string): nat
    requires AllDigits(s)
  {
    if s == [] then 0 else DecimalValue(s[..|s| - 1]) * 10 + (s[|s| - 1] as int - '0' as int)
  }

  /** The hour a task resets at: `Number` applied to the text before the
      first colon. `Number("")` is 0 and a string of decimal digits gives its
      value; every other text is `None` here, which never equals an hour
      (for JavaScript it is NaN, or a number written with a sign, blanks, a
      fraction or an exponent; see README). */
  function TaskHour(refreshTime: string): (h: Option<int>)
    ensures h.Some? <==> AllDigits(BeforeColon(refreshTime))
    ensures h.Some? ==> h.value >= 0
    ensures BeforeColon(refreshTime) == "" ==> h == Some(0)
  {
    var head := BeforeColon(refreshTime);
    if head == "" then Some(0)
    else if AllDigits(head) then Some(DecimalValue(head))
    else None
  }

  function DigitChar(d: nat): (c: char)
    requires d < 10
    ensures IsDigit(c)
  {
    ('0' as int + d) as char
  }

  /** The two-digit hour of an "HH:MM" time, as the client's time input writes it. */
  function TwoDigits(h: Hour): string
  {
    [DigitChar(h / 10), DigitChar(h % 10)]
  }

  /** Splitting at the first colon recovers any colon-free prefix. */
  lemma {:induction false} BeforeColonOfPrefix(p: string, rest: string)
    requires ':' !in p
    ensures BeforeColon(p + [':'] + rest) == p
  {
    if p != [] {
      assert (p + [':'] + rest)[1..] == p[1..] + [':'] + rest;
      BeforeColonOfPrefix(p[1..], rest);
    }
  }

  /** A refreshTime written as "HH:MM" resets in hour HH, whatever follows the colon. */
  lemma TaskHourOfClockText(h: Hour, minutes: string)
    ensures TaskHour(TwoDigits(h) + [':'] + minutes) == Some(h)
  {
    var hh := TwoDigits(h);
    BeforeColonOfPrefix(hh, minutes);
    assert hh[..1] == [hh[0]] && [hh[0]][..0] == [];
    assert DecimalValue([hh[0]]) == h / 10;
    assert DecimalValue(hh) == (h / 10) * 10 + h % 10;
  }

  // ---------------------------------------------------------------------------
  // The per-list reset of dailyReset
  // ---------------------------------------------------------------------------

  /** A task is reset in `hour` when it is completed and its refreshTime's
      hour is that hour. */
  predicate Due(t: Task, hour: Hour)
  {
    t.status && TaskHour(t.refreshTime) == Some(hour)
  }

  function ResetTask(t: Task, hour: Hour): Task
  {
    if Due(t, hour) then t.(status := false) else t
  }

  /** The array that `list.tasks.map(...)` builds in `dailyReset`. */
  function ResetTasks(tasks: seq<Task>, hour: Hour): (r: seq<Task>)
    ensures |r| == |tasks|
    ensures forall i :: 0 <= i < |tasks| ==>
              r[i].id == tasks[i].id && r[i].description == tasks[i].description
              && r[i].refreshTime == tasks[i].refreshTime
    ensures forall i :: 0 <= i < |tasks| ==>
              (r[i].status <==> tasks[i].status && TaskHour(tasks[i].refreshTime) != Some(hour))
    ensures forall i :: 0 <= i < |tasks| && r[i].status ==> tasks[i].status
  {
    seq(|tasks|, i requires 0 <= i < |tasks| => ResetTask(tasks[i], hour))
  }

  /** The final value of the `needsUpdate` flag. */
  predicate NeedsReset(tasks: seq<Task>, hour: Hour)
  {
    exists i :: 0 <= i < |tasks| && Due(tasks[i], hour)
  }

  /** The loop of `list.tasks.map(...)` that also raises `needsUpdate`. */
  method ResetList(tasks: seq<Task>, hour: Hour) returns (newTasks: seq<Task>, needsUpdate: bool)
    ensures newTasks == ResetTasks(tasks, hour)
    ensures needsUpdate == NeedsReset(tasks, hour)
  {
    newTasks, needsUpdate := [], false;
    var i := 0;
    while i < |tasks|
      invariant i <= |tasks|
      invariant |newTasks| == i
      invariant forall k :: 0 <= k < i ==> newTasks[k] == ResetTask(tasks[k], hour)
      invariant needsUpdate <==> exists k :: 0 <= k < i && Due(tasks[k], hour)
    {
      var task := tasks[i];
      if task.status {
        var taskHour := TaskHour(task.refreshTime);
        if taskHour == Some(hour) {
          needsUpdate := true;
          task := task.(status := false);
        }
      }
      newTasks := newTasks + [task];
      i := i + 1;
    }
  }

  /** The reset changes the array exactly when the flag is raised, so the
      conditional write in `dailyReset` never skips a change. */
  lemma NeedsResetIffChanged(tasks: seq<Task>, hour: Hour)
    ensures NeedsReset(tasks, hour) <==> ResetTasks(tasks, hour) != tasks
  {
    var r := ResetTasks(tasks, hour);
    if NeedsReset(tasks, hour) {
      var i :| 0 <= i < |tasks| && Due(tasks[i], hour);
      assert r[i].status != tasks[i].status;
    } else {
      assert forall i :: 0 <= i < |tasks| ==> r[i] == tasks[i];
    }
  }

  /** A second reset in the same hour finds nothing to do. */
  lemma ResetTasksIdempotent(tasks: seq<Task>, hour: Hour)
    ensures ResetTasks(ResetTasks(tasks, hour), hour) == ResetTasks(tasks, hour)
    ensures !NeedsReset(ResetTasks(tasks, hour), hour)
  {
    NeedsResetIffChanged(ResetTasks(tasks, hour), hour);
  }

  // ---------------------------------------------------------------------------
  // The status update of updateTaskStatus
  // ---------------------------------------------------------------------------

  /** The array that `listData.tasks.map(...)` builds in `updateTaskStatus`. */
  function SetStatus(tasks: seq<Task>, taskId: TaskId, status: bool): (r: seq<Task>)
    ensures |r| == |tasks|
    ensures forall i :: 0 <= i < |tasks| && tasks[i].id == taskId ==>
              r[i].status == status && r[i].id == taskId && r[i].description == tasks[i].description
              && r[i].refreshTime == tasks[i].refreshTime
    ensures forall i :: 0 <= i < |tasks| && tasks[i].id != taskId ==> r[i] == tasks[i]
  {
    seq(|tasks|, i requires 0 <= i < |tasks| => if tasks[i].id == taskId then tasks[i].(status := status) else tasks[i])
  }

  /** An unknown task id leaves the array as it was, and so does asking for
      the status every matching task already has. */
  lemma SetStatusNoop(tasks: seq<Task>, taskId: TaskId, status: bool)
    ensures SetStatus(tasks, taskId, status) == tasks
        <==> forall i :: 0 <= i < |tasks| && tasks[i].id == taskId ==> tasks[i].status == status
  {
    var r := SetStatus(tasks, taskId, status);
    if forall i :: 0 <= i < |tasks| && tasks[i].id == taskId ==> tasks[i].status == status {
      assert forall i :: 0 <= i < |tasks| ==> r[i] == tasks[i];
    }
  }

  /** A task marked done whose refreshTime names hour `h` is back to
      pending after a reset in hour `h`, and one marked pending stays so. */
  lemma ResetUndoesCompletion(tasks: seq<Task>, taskId: TaskId, h: Hour, i: int)
    requires 0 <= i < |tasks| && tasks[i].id == taskId
    ensures TaskHour(tasks[i].refreshTime) == Some(h) ==> !ResetTasks(SetStatus(tasks, taskId, true), h)[i].status
    ensures !ResetTasks(SetStatus(tasks, taskId, false), h)[i].status
  {
  }
}
