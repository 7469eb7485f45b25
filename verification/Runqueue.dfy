/** The task queue of runqueue.c. Its functions are cut at the callbacks, so that between any two pieces a callback
    may call any public function; every piece keeps the invariant. */
module Runqueue {
  import opened Common

  class Task {
    var queued: bool
    var running: bool
    var cancelled: bool

    constructor ()
      ensures !queued && !running && !cancelled
    {
      queued, running, cancelled := false, false, false;
    }
  }

  /** What the shared timer will do. */
  datatype Timer = Idle | StartNext | EmptyCallback

  /** What a callback may do to the queue. */
  datatype Call = Add(t: Task, canRun: bool, running: bool) | Complete(t: Task) | Cancel(t: Task) | Stop | Resume

  ghost predicate Among(calls: seq<Call>, all: set<Task>) { forall c <- calls :: c.Stop? || c.Resume? || c.t in all }

  /** What a queue does depends on this alone. */
  datatype Lists = Lists(active: seq<Task>, inactive: seq<Task>, stopped: bool, empty: bool)

  /** The queue after a call. */
  ghost function After(v: Lists, c: Call): (r: Lists)
    ensures r.empty ==> v.empty
  {
    match c
    case Add(t, canRun, running) =>
      if t in v.active || t in v.inactive || !(canRun || running) then v
      else if running then v.(active := v.active + [t], empty := false)
      else v.(inactive := v.inactive + [t], empty := false)
    case Complete(t) => Completed(v, t)
    case Cancel(t) => if t in v.inactive then Completed(v, t) else v
    case Stop => v.(stopped := true)
    case Resume => v.(stopped := false)
  }

  ghost function Completed(v: Lists, t: Task): Lists {
    v.(active := Without(v.active, t), inactive := Without(v.inactive, t))
  }

  ghost function AfterAll(v: Lists, calls: seq<Call>): (r: Lists)
    ensures r.empty ==> v.empty
  {
    if calls == [] then v else After(AfterAll(v, calls[..|calls| - 1]), calls[|calls| - 1])
  }

  function Scripted(script: seq<seq<Call>>, k: nat): seq<Call> { if k < |script| then script[k] else [] }

  ghost predicate AllAmong(script: seq<seq<Call>>, all: set<Task>) { forall calls <- script :: Among(calls, all) }

  lemma ScriptedAmong(script: seq<seq<Call>>, k: nat, all: set<Task>)
    requires AllAmong(script, all)
    ensures Among(Scripted(script, k), all)
  {
    assert k < |script| ==> script[k] in script;
  }

  /** The queue after its active tasks have been killed one after the other and the others cancelled. */
  ghost function Killed(v: Lists, script: seq<seq<Call>>, k: nat): Lists
    decreases if k < |script| then |script| - k else 0, |v.active|
  {
    if v.active == [] then v.(inactive := [])
    else
      var rest := v.(active := v.active[1..]);
      Killed(AfterAll(rest, Scripted(script, k)), script, k + 1)
  }

  lemma {:induction false} KilledPlain(v: Lists, k: nat)
    ensures Killed(v, [], k) == Lists([], [], v.stopped, v.empty)
    decreases |v.active|
  {
    if v.active != [] {
      KilledPlain(v.(active := v.active[1..]), k + 1);
    }
  }

  /** Whether a task can be started, the queue when this is the one that has waited longest, and when there is none. */
  ghost predicate Ready(v: Lists, limit: nat) {
    !v.stopped && v.inactive != [] && (limit > 0 ==> |v.active| < limit)
  }

  ghost function Opened(v: Lists): Lists
    requires v.inactive != []
  {
    v.(active := v.active + [v.inactive[0]], inactive := v.inactive[1..])
  }

  ghost function Closed(v: Lists): Lists { v.(empty := v.empty || (v.active == [] && v.inactive == [])) }

  /** The queue after as many tasks have been started as can be. */
  ghost function Started(v: Lists, limit: nat, script: seq<seq<Call>>, k: nat): Lists
    decreases if k < |script| then |script| - k else 0, |v.inactive|
  {
    if Ready(v, limit) then Started(AfterAll(Opened(v), Scripted(script, k)), limit, script, k + 1) else Closed(v)
  }

  /** The same from the middle of a round, when t has been started. */
  ghost function Resting(t: Task?, v: Lists, limit: nat, script: seq<seq<Call>>, k: nat): Lists {
    if t == null then v else Started(AfterAll(v, Scripted(script, k)), limit, script, k + 1)
  }

  lemma {:induction false} StartedEnds(v: Lists, limit: nat, script: seq<seq<Call>>, k: nat)
    ensures var r := Started(v, limit, script, k);
            !Ready(r, limit) && (r.active == [] && r.inactive == [] ==> r.empty)
    decreases if k < |script| then |script| - k else 0, |v.inactive|
  {
    if Ready(v, limit) {
      StartedEnds(AfterAll(Opened(v), Scripted(script, k)), limit, script, k + 1);
    }
  }

  /** If the callbacks do nothing the first tasks are started, up to the limit, in their order. */
  lemma {:induction false} StartedPlain(v: Lists, limit: nat, k: nat)
    ensures var room := if limit == 0 then |v.inactive| else if limit < |v.active| then 0 else limit - |v.active|;
            var n := if v.stopped then 0 else if room < |v.inactive| then room else |v.inactive|;
            var r := Started(v, limit, [], k);
            && r.active == v.active + v.inactive[..n] && r.inactive == v.inactive[n..] && r.stopped == v.stopped
            && (r.empty <==> v.empty || (v.active == [] && v.inactive == []))
    decreases |v.inactive|
  {
    if Ready(v, limit) {
      StartedPlain(Opened(v), limit, k + 1);
    }
  }

  class Queue {
    var active: seq<Task>
    var inactive: seq<Task>
    var runningTasks: int
    const maxRunning: nat
    const hasEmptyCb: bool
    var stopped: bool
    var empty: bool
    var timer: Timer
    /** Calls of __runqueue_start_next that have not returned, because a task they have started is in its callback. */
    ghost var starting: nat
    /** The tasks of this queue. */
    ghost var tasks: set<Task>

    constructor (maxRunning: nat, hasEmptyCb: bool)
      ensures Valid() && active == [] && inactive == [] && tasks == {}
    {
      active, inactive, runningTasks, stopped, empty, timer := [], [], 0, false, false, Idle;
      this.maxRunning, this.hasEmptyCb := maxRunning, hasEmptyCb;
      starting, tasks := 0, {};
    }

    ghost function Now(): Lists
      reads this
    {
      Lists(active, inactive, stopped, empty)
    }

    predicate AtLimit()
      reads this`runningTasks
    {
      maxRunning > 0 && runningTasks >= maxRunning
    }

    /** queued means on exactly one list, running means on the active one. */
    ghost predicate Filed()
      reads this`active, this`inactive, this`runningTasks, this`tasks, tasks
    {
      && runningTasks == |active| && Distinct(active) && Distinct(inactive)
      && (forall t <- active :: t in tasks && t.queued && t.running)
      && (forall t <- inactive :: t in tasks && t.queued && !t.running)
      && (forall t <- tasks :: t.queued ==> t in active || t in inactive)
      && (forall t <- tasks :: !t.queued ==> !t.running)
    }

    /** No wakeup is lost: if a task could start, somebody will start it. */
    ghost predicate Awake()
      reads this
    {
      && (empty ==> active == [] && inactive == [])
      && (inactive != [] && !stopped && !AtLimit() ==> timer == StartNext || starting > 0)
    }

    ghost predicate Valid()
      reads this, tasks
    {
      Filed() && Awake()
    }

    /** runqueue_start_next */
    method Arm()
      requires Filed() && (empty ==> active == [] && inactive == [])
      modifies this`timer
      ensures Valid()
    {
      if empty {
        return;
      }
      timer := StartNext;
    }

    /** runqueue_task_add; a task without a run callback can only be added running. */
    method TaskAdd(t: Task, canRun: bool, running: bool)
      requires Valid() && (t.queued ==> t in tasks)
      modifies this`active, this`inactive, this`runningTasks, this`timer, this`empty, this`tasks, t
      ensures Valid() && tasks <= old(tasks) + {t} && old(tasks) <= tasks && (t.queued ==> t in tasks)
      ensures if old(t.queued) || !(canRun || running) then active == old(active) && inactive == old(inactive)
              else if running then active == old(active) + [t] && inactive == old(inactive)
              else active == old(active) && inactive == old(inactive) + [t]
      ensures if old(t.queued) || !(canRun || running) then empty == old(empty) else !empty && !t.cancelled
    {
      if t.queued || !(canRun || running) {
        return;
      }
      if running {
        runningTasks := runningTasks + 1;
        active := active + [t];
      } else {
        inactive := inactive + [t];
      }
      t.cancelled, t.queued, t.running := false, true, running;
      tasks := tasks + {t};
      empty := false;
      Arm();
    }

    /** The list part of runqueue_task_complete */
    method Remove(t: Task)
      requires Filed() && t in tasks && t.queued
      modifies this`active, this`inactive, this`runningTasks, t
      ensures Filed() && !t.queued && !t.running && !t.cancelled
      ensures active == old(if t.running then Without(active, t) else active)
      ensures inactive == old(if t.running then inactive else Without(inactive, t))
      ensures |inactive| == old(|inactive| - if t.running then 0 else 1)
    {
      if t.running {
        runningTasks := runningTasks - 1;
        WithoutOne(active, t);
        active := Without(active, t);
      } else {
        WithoutOne(inactive, t);
        inactive := Without(inactive, t);
      }
      t.queued, t.running, t.cancelled := false, false, false;
    }

    /** runqueue_task_complete */
    method TaskComplete(t: Task)
      requires Valid() && (t.queued ==> t in tasks)
      modifies this`active, this`inactive, this`runningTasks, this`timer, t
      ensures Valid() && !t.queued && (t in tasks ==> !t.running)
      ensures active == old(if t.queued && t.running then Without(active, t) else active)
      ensures inactive == old(if t.queued && !t.running then Without(inactive, t) else inactive)
      ensures |inactive| == old(|inactive| - if t.queued && !t.running then 1 else 0)
      ensures old(t.queued) ==> !t.cancelled
    {
      if !t.queued {
        return;
      }
      Remove(t);
      Arm();
    }

    /** runqueue_task_cancel; returns whether the cancel callback of a running task is to be called. */
    method TaskCancel(t: Task) returns (callback: bool)
      requires Valid() && (t.queued ==> t in tasks)
      modifies this`active, this`inactive, this`runningTasks, this`timer, t
      ensures Valid() && callback == old(t.queued && t.running) == t.queued
      ensures if callback then active == old(active) && inactive == old(inactive) && t.cancelled
              else active == old(active) && inactive == old(if t.queued then Without(inactive, t) else inactive)
      ensures |inactive| == old(|inactive| - if t.queued && !t.running then 1 else 0)
    {
      if !t.queued {
        return false;
      }
      if !t.running {
        TaskComplete(t);
        return false;
      }
      t.cancelled := true;
      return true;
    }

    /** runqueue_task_kill up to the callbacks; returns whether they are to be called. Arm is what it does after
        them. */
    method TaskKill(t: Task) returns (callbacks: bool)
      requires Valid() && (t.queued ==> t in tasks)
      modifies this`active, this`inactive, this`runningTasks, this`timer, t
      ensures Valid() && callbacks == old(t.queued) && !t.queued
      ensures active == old(if t.queued && t.running then Without(active, t) else active)
      ensures inactive == old(if t.queued && !t.running then Without(inactive, t) else inactive)
    {
      callbacks := t.queued;
      if callbacks {
        TaskComplete(t);
      }
    }

    /** The shared timer fires. __runqueue_start_next begins, or the empty callback is called. */
    method Fire() returns (emptyCb: bool)
      requires Valid() && timer != Idle
      modifies this`timer, this`starting
      ensures Valid() && timer == Idle && emptyCb == (old(timer) == EmptyCallback)
      ensures starting == old(starting) + if emptyCb then 0 else 1
    {
      emptyCb := timer == EmptyCallback;
      timer := Idle;
      if !emptyCb {
        starting := starting + 1;
      }
    }

    /** One round of the loop in __runqueue_start_next: a task that is to run, or the end of the loop. It never
        starts a task at the limit or while the queue is stopped. */
    method StartOne() returns (t: Task?)
      requires Valid() && starting > 0
      modifies this`active, this`inactive, this`runningTasks, this`timer, this`empty, this`starting, inactive`running
      ensures Valid() && (t != null <==> old(Ready(Now(), maxRunning)))
      ensures t != null ==> old(inactive) == [t] + inactive && active == old(active) + [t]
      ensures t != null ==> Now() == old(Opened(Now()))
      ensures t != null ==> starting == old(starting) && timer == old(timer)
      ensures t == null ==> starting == old(starting) - 1 && Now() == old(Closed(Now()))
      ensures t == null ==> timer == if empty && !old(empty) && hasEmptyCb then EmptyCallback else old(timer)
    {
      if stopped || inactive == [] || AtLimit() {
        Close();
        return null;
      }
      t := inactive[0];
      assert inactive == [t] + inactive[1..];
      Open();
    }

    /** Its end: a queue that has run empty calls back. */
    method Close()
      requires Valid() && starting > 0 && !Ready(Now(), maxRunning)
      modifies this`timer, this`empty, this`starting
      ensures Valid() && starting == old(starting) - 1 && Now() == old(Closed(Now()))
      ensures timer == if empty && !old(empty) && hasEmptyCb then EmptyCallback else old(timer)
    {
      starting := starting - 1;
      if !empty && active == [] && inactive == [] {
        empty := true;
        if hasEmptyCb {
          timer := EmptyCallback;
        }
      }
    }

    lemma OpenedLists(a: seq<Task>, b: seq<Task>)
      requires Distinct(a) && Distinct(b) && b != [] && b[0] !in a
      ensures Distinct(a + [b[0]]) && Distinct(b[1..]) && b[0] in b && b[0] !in b[1..]
      ensures forall t :: t in b <==> t == b[0] || t in b[1..]
      ensures forall t :: t in a + [b[0]] <==> t == b[0] || t in a
    {
      assert b == [b[0]] + b[1..];
    }

    method Open()
      requires Valid() && starting > 0 && inactive != []
      modifies this`active, this`inactive, this`runningTasks, inactive`running
      ensures Valid() && Now() == old(Opened(Now()))
    {
      var t := inactive[0];
      OpenedLists(active, inactive);
      inactive := inactive[1..];
      active := active + [t];
      t.running := true;
      runningTasks := runningTasks + 1;
    }

    /** runqueue_stop */
    method Stop()
      requires Valid()
      modifies this`stopped
      ensures Valid() && stopped
    {
      stopped := true;
    }

    /** runqueue_resume */
    method Resume()
      requires Valid()
      modifies this`stopped, this`timer
      ensures Valid() && !stopped
    {
      stopped := false;
      Arm();
    }

    /** runqueue_cancel_pending */
    method CancelPending()
      requires Valid()
      modifies this`active, this`inactive, this`runningTasks, this`timer, tasks
      ensures Valid() && inactive == [] && active == old(active)
    {
      while inactive != []
        invariant Valid() && active == old(active)
        decreases |inactive|
      {
        var t := inactive[0];
        assert t in inactive;
        var callback := TaskCancel(t);
      }
    }

    /** The end of runqueue_kill, when no active task is left: nothing can start, so the timer may go. */
    method KillRest()
      requires Valid() && active == []
      modifies this`active, this`inactive, this`runningTasks, this`timer, tasks
      ensures Valid() && active == [] && inactive == [] && timer == Idle
    {
      CancelPending();
      timer := Idle;
    }

    /** The tasks that there are: one that is queued is a task of this queue. */
    ghost predicate Owns(all: set<Task>)
      reads this, all
    {
      tasks <= all && forall t <- all :: t.queued ==> t in tasks
    }

    ghost predicate Sane(all: set<Task>)
      reads this, tasks, all
    {
      (Valid() && Owns(all)) == true
    }

    /** A task is queued if it is on a list. */
    lemma Kept(t: Task, all: set<Task>)
      requires Sane(all) && t in all
      ensures (t.queued <==> t in active || t in inactive) && (t.queued ==> (t.running <==> t in active))
      ensures (t !in active ==> Without(active, t) == active) && (t !in inactive ==> Without(inactive, t) == inactive)
    {
      if t !in active {
        WithoutNone(active, t);
      }
      if t !in inactive {
        WithoutNone(inactive, t);
      }
    }

    method DoAdd(t: Task, canRun: bool, running: bool, ghost all: set<Task>)
      requires Sane(all) && t in all
      modifies this, all
      ensures Sane(all) && starting == old(starting) && Now() == After(old(Now()), Add(t, canRun, running))
    {
      Kept(t, all);
      TaskAdd(t, canRun, running);
    }

    method DoRemove(t: Task, cancel: bool, ghost all: set<Task>)
      requires Sane(all) && t in all
      modifies this, all
      ensures Sane(all) && starting == old(starting)
      ensures Now() == After(old(Now()), if cancel then Cancel(t) else Complete(t))
    {
      Kept(t, all);
      if cancel {
        var callback := TaskCancel(t);
      } else {
        TaskComplete(t);
      }
    }

    method Do(c: Call, ghost all: set<Task>)
      requires Sane(all) && (c.Stop? || c.Resume? || c.t in all)
      modifies this, all
      ensures Sane(all) && starting == old(starting) && Now() == After(old(Now()), c)
    {
      match c
      case Add(t, canRun, running) => DoAdd(t, canRun, running, all);
      case Complete(t) => DoRemove(t, false, all);
      case Cancel(t) => DoRemove(t, true, all);
      case Stop => Stop();
      case Resume => Resume();
    }

    /** What the callbacks of a task do. */
    method Callback(calls: seq<Call>, ghost all: set<Task>)
      requires Sane(all) && Among(calls, all)
      modifies this, all
      ensures Sane(all) && starting == old(starting) && Now() == AfterAll(old(Now()), calls)
    {
      for k := 0 to |calls|
        invariant Sane(all) && starting == old(starting) && Now() == AfterAll(old(Now()), calls[..k])
      {
        assert calls[k] in calls && calls[..k + 1][..k] == calls[..k];
        Do(calls[k], all);
      }
      assert calls[..|calls|] == calls;
    }

    /** runqueue_task_kill of the first active task, with its callbacks */
    method KillFirst(calls: seq<Call>, ghost all: set<Task>)
      requires Sane(all) && active != [] && Among(calls, all)
      modifies this, all
      ensures Sane(all) && starting == old(starting)
      ensures Now() == AfterAll(old(Now().(active := active[1..])), calls)
    {
      assert active[0] in active;
      var callbacks := TaskKill(active[0]);
      Callback(calls, all);
      Arm();
    }

    /** runqueue_kill. The callbacks of the k-th task do what script[k] says, and later ones do nothing. Whatever they
        do, the queue is empty and idle at the end. */
    method Kill(script: seq<seq<Call>>, ghost all: set<Task>)
      requires Sane(all) && AllAmong(script, all)
      modifies this, all
      ensures Valid() && active == [] && inactive == [] && timer == Idle && starting == old(starting)
      ensures Now() == Killed(old(Now()), script, 0)
    {
      var k := 0;
      ghost var end := Killed(Now(), script, 0);
      while active != []
        invariant Sane(all) && starting == old(starting) && Killed(Now(), script, k) == end
        decreases if k < |script| then |script| - k else 0, |active|
      {
        var calls := Scripted(script, k);
        ScriptedAmong(script, k, all);
        KillFirst(calls, all);
        k := k + 1;
      }
      KillRest();
    }

    /** __runqueue_start_next, when the timer has fired. Task after task is started, and the callback of the k-th does
        what script[k] says. At the end the queue is stopped, no task waits, or the limit is reached; a queue that has
        run empty knows it, and its empty callback will be called. */
    method StartAll(script: seq<seq<Call>>, ghost all: set<Task>)
      requires Sane(all) && starting > 0 && AllAmong(script, all)
      modifies this, all
      ensures Sane(all) && starting == old(starting) - 1 && (stopped || inactive == [] || AtLimit())
      ensures Now() == Started(old(Now()), maxRunning, script, 0)
      ensures active == [] && inactive == [] ==> empty && (hasEmptyCb && !old(empty) ==> timer == EmptyCallback)
    {
      var k := 0;
      ghost var end := Started(Now(), maxRunning, script, 0);
      StartedEnds(Now(), maxRunning, script, 0);
      var t := StartOne();
      while t != null
        invariant Sane(all) && starting == old(starting) - if t == null then 1 else 0
        invariant empty && !old(empty) ==> t == null && (hasEmptyCb ==> timer == EmptyCallback)
        invariant end == Resting(t, Now(), maxRunning, script, k)
        decreases if k < |script| then |script| - k else 0, |inactive|, t != null
      {
        ScriptedAmong(script, k, all);
        t := StartRound(Scripted(script, k), all);
        k := k + 1;
      }
    }

    /** The callback of a task that has been started, and the next round. */
    method StartRound(calls: seq<Call>, ghost all: set<Task>) returns (t: Task?)
      requires Sane(all) && starting > 0 && Among(calls, all)
      modifies this, all
      ensures Sane(all) && starting == old(starting) - if t == null then 1 else 0
      ensures var v := AfterAll(old(Now()), calls);
              && (t != null <==> Ready(v, maxRunning)) && Now() == (if t != null then Opened(v) else Closed(v))
              && (t == null && empty && !old(empty) && hasEmptyCb ==> timer == EmptyCallback)
    {
      Callback(calls, all);
      t := StartOne();
    }
  }
}
