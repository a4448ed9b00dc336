// The server side of one websocket client: it is open until it is marked closed, sends
// payloads to its session, and keeps the tasks to run when it closes.  Running a task and
// sending a payload are recorded in logs, which stand for their effects on the world.

module BroadcastTargets {
  /** A close listener; `fails` says whether running it throws. */
  datatype Task = Task(name: string, fails: bool)

  /** The tasks of `tasks` that throw, in order: each is logged as a warning when run on close. */
  function Failing(tasks: seq<Task>): (r: seq<Task>)
    ensures |r| <= |tasks|
    ensures forall t :: t in r <==> t in tasks && t.fails
  {
    if |tasks| == 0 then []
    else (if tasks[0].fails then [tasks[0]] else []) + Failing(tasks[1..])
  }

  lemma {:induction false} FailingSnoc(tasks: seq<Task>, t: Task)
    ensures Failing(tasks + [t]) == Failing(tasks) + (if t.fails then [t] else [])
  {
    if |tasks| > 0 {
      assert (tasks + [t])[1..] == tasks[1..] + [t];
      FailingSnoc(tasks[1..], t);
    } else {
      assert tasks + [t] == [t];
    }
  }

  /**
   * Runs `tasks` in order after the tasks of `ran`, going on past a task that throws: it is
   * added to the warnings of `warnings`.
   */
  method RunTasks(tasks: seq<Task>, ran: seq<Task>, warnings: seq<Task>) returns (done: seq<Task>, logged: seq<Task>)
    ensures done == ran + tasks
    ensures logged == warnings + Failing(tasks)
  {
    done, logged := ran, warnings;
    var i := 0;
    while i < |tasks|
      invariant 0 <= i <= |tasks|
      invariant done == ran + tasks[..i]
      invariant logged == warnings + Failing(tasks[..i])
    {
      var task := tasks[i];
      assert tasks[..i + 1] == tasks[..i] + [task];
      FailingSnoc(tasks[..i], task);
      done := done + [task];
      if task.fails {
        logged := logged + [task];
      }
      i := i + 1;
    }
    assert tasks[..i] == tasks;
  }

  class SessionBroadcastTarget<S(==)> {
    const session: S
    /** The tasks waiting for the close, in registration order. */
    var onClose: seq<Task>
    var open: bool
    /** Every task run so far, in order. */
    var ran: seq<Task>
    /** The failing close listeners, logged as warnings. */
    var warnings: seq<Task>
    /** Every payload sent to the session, in order. */
    var sent: seq<string>

    constructor(session: S)
      ensures this.session == session && open && onClose == [] && ran == [] && warnings == [] && sent == []
    {
      this.session := session;
      onClose := [];
      open := true;
      ran := [];
      warnings := [];
      sent := [];
    }

    /** Sends a payload to the session (sending and logging the failure are the same for now). */
    method SendOrLog(payload: string)
      modifies this
      ensures sent == old(sent) + [payload]
      ensures open == old(open) && onClose == old(onClose) && ran == old(ran) && warnings == old(warnings)
    {
      sent := sent + [payload];
    }

    method SendOrThrow(payload: string)
      modifies this
      ensures sent == old(sent) + [payload]
      ensures open == old(open) && onClose == old(onClose) && ran == old(ran) && warnings == old(warnings)
    {
      SendOrLog(payload);
    }

    /**
     * Runs `task` when the target closes: while open the task waits; once closed it runs at
     * once, and `ok` is false when it throws (the exception reaches the caller).
     */
    method OnClose(task: Task) returns (ok: bool)
      modifies this
      ensures old(open) ==> ok && onClose == old(onClose) + [task] && ran == old(ran)
      ensures !old(open) ==> (ok <==> !task.fails) && onClose == old(onClose) && ran == old(ran) + [task]
      ensures open == old(open) && warnings == old(warnings) && sent == old(sent)
    {
      if open {
        onClose := onClose + [task];
        ok := true;
        return;
      }
      ran := ran + [task];
      ok := !task.fails;
    }

    function IsOpen(): (r: bool)
      reads this
      ensures r == open
    {
      open
    }

    /**
     * Closes the target and runs the waiting tasks in order, going on past a task that throws
     * (it is logged), then forgets them.  Closing a closed target fails and changes nothing.
     */
    method MarkClosed() returns (ok: bool)
      modifies this
      ensures ok <==> old(open)
      ensures !ok ==> open == old(open) && onClose == old(onClose) && ran == old(ran) && warnings == old(warnings)
      ensures ok ==> !open && onClose == [] && ran == old(ran) + old(onClose) && warnings == old(warnings) + Failing(old(onClose))
      ensures sent == old(sent)
    {
      if !open {
        return false;
      }
      var done, logged := RunTasks(onClose, ran, warnings);
      open, onClose, ran, warnings := false, [], done, logged;
      ok := true;
    }

    /** Targets are equal exactly when their sessions are. */
    predicate Equals(other: SessionBroadcastTarget<S>)
    {
      session == other.session
    }
  }

  /**
   * A task registered while the target is open runs when it closes; one registered after the
   * close runs at once; a second close fails and runs nothing more.
   */
  method CloseListenersRunOnce<S(==)>(session: S, early: Task, late: Task) returns (ran: seq<Task>, secondClose: bool)
    ensures ran == [early, late]
    ensures !secondClose
  {
    var target := new SessionBroadcastTarget(session);
    var _ := target.OnClose(early);
    assert target.ran == [];
    var first := target.MarkClosed();
    assert target.ran == [early];
    var _ := target.OnClose(late);
    secondClose := target.MarkClosed();
    ran := target.ran;
  }
}
