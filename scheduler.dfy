/** The SDK's cooperative scheduler, seen only through the calls the application makes:
    register, unregister, plan now, plan relative, and the "current task" variants. Its
    state is the table of registered tasks, each with the tick it is next due at. */
module Scheduler {
  import opened Primitives

  type TaskId = nat

  /** When a task is next due: at a tick, or never (`TICK_INFINITY`). */
  datatype Due = At(tick: nat) | Never

  /** Task functions the application registers. */
  datatype Job = BatteryMeasure | Ds18b20Measure | SleepMode

  /** One registered task: the function it runs and when it is next due. */
  datatype Entry = Entry(job: Job, due: Due)

  /** The table with task `id`, when registered, re-planned to `due`; a re-plan of an id that
      is not registered changes nothing. */
  function Replan(tasks: map<TaskId, Entry>, id: TaskId, due: Due): (r: map<TaskId, Entry>)
    ensures r.Keys == tasks.Keys
    ensures forall j :: j in tasks ==> r[j].job == tasks[j].job
    ensures forall j :: j in tasks && j != id ==> r[j] == tasks[j]
    ensures id in tasks ==> r[id].due == due
  {
    if id in tasks then tasks[id := tasks[id].(due := due)] else tasks
  }

  /** A second re-plan of the same task overrides the first. */
  lemma ReplanTwice(tasks: map<TaskId, Entry>, id: TaskId, first: Due, second: Due)
    ensures Replan(Replan(tasks, id, first), id, second) == Replan(tasks, id, second)
  {
  }

  /** A table that holds every id below `n` has at least `n` entries. */
  lemma {:induction false} PrefixBound(keys: set<TaskId>, n: nat)
    requires forall j :: 0 <= j < n ==> j in keys
    ensures n <= |keys|
  {
    if n > 0 {
      var rest := keys - {n - 1};
      PrefixBound(rest, n - 1);
      assert |keys| == |rest| + 1;
    }
  }

  /** The slot `register` fills: the lowest id with no registered task. */
  method LeastFreeId(tasks: map<TaskId, Entry>) returns (id: TaskId)
    ensures id !in tasks
    ensures forall j :: 0 <= j < id ==> j in tasks
    ensures id <= |tasks|
  {
    id := 0;
    while id in tasks
      invariant forall j :: 0 <= j < id ==> j in tasks
      invariant id <= |tasks|
      decreases |tasks.Keys| - id
    {
      PrefixBound(tasks.Keys, id + 1);
      id := id + 1;
    }
  }

  class Scheduler {
    /** The registered tasks. */
    var tasks: map<TaskId, Entry>
    /** The current tick. */
    var now: nat
    /** The scheduled task whose function is running, if any; `None` while a driver delivers an event. */
    var current: Option<TaskId>

    constructor ()
      ensures tasks == map[] && now == 0 && current == None
    {
      tasks := map[];
      now := 0;
      current := None;
    }

    /** `register(task, param, tick)`: a new task in a free slot, due at `due`. */
    method Register(job: Job, due: Due) returns (id: TaskId)
      modifies this
      ensures id !in old(tasks)
      ensures forall j :: 0 <= j < id ==> j in old(tasks)
      ensures id <= |old(tasks)|
      ensures tasks == old(tasks)[id := Entry(job, due)]
      ensures now == old(now) && current == old(current)
    {
      id := LeastFreeId(tasks);
      tasks := tasks[id := Entry(job, due)];
    }

    /** `unregister(id)`: that task is gone; an id with no task is a no-op. */
    method Unregister(id: TaskId)
      modifies this
      ensures tasks == old(tasks) - {id}
      ensures now == old(now) && current == old(current)
    {
      tasks := tasks - {id};
    }

    /** `plan_now(id)`: due at once. */
    method PlanNow(id: TaskId)
      modifies this
      ensures tasks == Replan(old(tasks), id, At(now))
      ensures now == old(now) && current == old(current)
    {
      tasks := Replan(tasks, id, At(now));
    }

    /** `plan_current_now()`: the running task is due again at once. */
    method PlanCurrentNow()
      modifies this
      ensures tasks == if current.Some? then Replan(old(tasks), current.value, At(now)) else old(tasks)
      ensures now == old(now) && current == old(current)
    {
      if current.Some? {
        tasks := Replan(tasks, current.value, At(now));
      }
    }

    /** `plan_current_relative(delay)`: the running task is due again `delay` ticks from now. */
    method PlanCurrentRelative(delay: nat)
      modifies this
      ensures tasks == if current.Some? then Replan(old(tasks), current.value, At(now + delay)) else old(tasks)
      ensures now == old(now) && current == old(current)
    {
      if current.Some? {
        tasks := Replan(tasks, current.value, At(now + delay));
      }
    }

    /** Time passes, up to the next tick a task is due at: the run loop fires every task
        whose tick has come before the clock moves on. */
    method AdvanceTo(tick: nat)
      requires now <= tick
      requires forall j :: j in tasks && tasks[j].due.At? ==> tick <= tasks[j].due.tick
      modifies this
      ensures now == tick && tasks == old(tasks) && current == old(current)
    {
      now := tick;
    }

    /** The scheduler starts a due task: it is parked (so it runs once unless it re-plans
        itself) and becomes the current task. */
    method Enter(id: TaskId)
      requires id in tasks
      modifies this
      ensures tasks == Replan(old(tasks), id, Never)
      ensures current == Some(id) && now == old(now)
    {
      tasks := Replan(tasks, id, Never);
      current := Some(id);
    }

    /** The running function has returned. */
    method Leave()
      modifies this
      ensures current == None
      ensures tasks == old(tasks) && now == old(now)
    {
      current := None;
    }
  }
}
