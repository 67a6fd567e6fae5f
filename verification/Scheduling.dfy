/** Tasks, the ready queue, wait queues and the scheduler.

    Interrupt gates keep the kernel uninterrupted from entry to exit, so every system call and
    every timer interrupt is one step on the state below. */
module Scheduling {
  import opened Lists

  const DEFAULT_QUANTUM: nat := 10
  const PID_MAX: nat := 32768

  /** Identity of a task structure, distinct from its pid. */
  type Tid = nat

  datatype Option<+T> = None | Some(value: T)

  datatype TaskState = New | Running | Waiting | Zombie

  /** The wait queues: the global one of sleepers, and each task's queue for its children. */
  datatype Queue = Sleep | Children(owner: Tid)

  /** Where a task resumes: in user code, inside `waitpid(pid)`, or inside `timer_ksleep`. */
  datatype Resume = User | InWaitpid(pid: int) | InSleep

  datatype Task = Task(
    pid: nat, state: TaskState, parent: Option<Tid>, children: seq<Tid>,
    on: Option<Queue>, resume: Resume, quantum: nat, wakeAt: nat, exitCode: nat)

  datatype Sys = Sys(
    tasks: map<Tid, Task>, ready: seq<Tid>, queues: map<Queue, seq<Tid>>,
    cur: Tid, idle: Tid, init: Tid, ticks: nat, pids: set<nat>, panic: bool)

  function Q(s: Sys, q: Queue): seq<Tid> {
    if q in s.queues then s.queues[q] else []
  }

  function Put(s: Sys, t: Tid, task: Task): Sys {
    s.(tasks := s.tasks[t := task])
  }

  // ---------------------------------------------------------------- invariant

  ghost predicate ReadyOk(s: Sys) {
    && NoDup(s.ready)
    && s.cur in s.tasks && s.idle in s.tasks && s.init in s.tasks && s.idle != s.init
    && (forall t :: t in s.ready ==>
          t in s.tasks && s.tasks[t].state == Running && t != s.idle && t != s.cur)
    && (forall t :: t in s.tasks && s.tasks[t].state == Running && t != s.idle && t != s.cur
                    ==> t in s.ready)
  }

  ghost predicate QueuesOk(s: Sys) {
    && (forall q :: NoDup(Q(s, q)))
    && (forall q, t :: t in Q(s, q) ==> t in s.tasks && s.tasks[t].on == Some(q))
    && (forall t :: t in s.tasks && s.tasks[t].on.Some? ==> t in Q(s, s.tasks[t].on.value))
  }

  ghost predicate TaskOk(s: Sys, t: Tid, task: Task) {
    && (task.state == Waiting <==> task.on.Some?)
    && (task.state == New ==> t == s.idle)
    && (t == s.idle ==> task.state == New || task.state == Running)
    && (task.on.Some? && task.on.value.Children? ==> task.on.value.owner == t && task.resume.InWaitpid?)
  }

  ghost predicate TasksOk(s: Sys) {
    forall t :: t in s.tasks ==> TaskOk(s, t, s.tasks[t])
  }

  /** What holds even inside a system call, while the current task may be about to stop. */
  ghost predicate Core(s: Sys) {
    ReadyOk(s) && QueuesOk(s) && TasksOk(s) && s.tasks[s.cur].state != New && !s.panic
  }

  /** What holds whenever the kernel returns to a task. */
  ghost predicate Safe(s: Sys) {
    && Core(s)
    && s.tasks[s.cur].state == Running
    && (s.cur != s.idle ==> 1 <= s.tasks[s.cur].quantum <= DEFAULT_QUANTUM)
  }

  // ---------------------------------------------------------------- primitives

  function Enqueue(s: Sys, t: Tid): Sys
    requires t in s.tasks
  {
    if t in s.ready then s
    else Put(s, t, s.tasks[t].(state := Running)).(ready := s.ready + [t])
  }

  function Schedule(s: Sys): Sys
    requires s.cur in s.tasks && s.idle in s.tasks
    requires forall t :: t in s.ready ==> t in s.tasks
  {
    var s1 := if s.tasks[s.cur].state == Running && s.cur != s.idle then Enqueue(s, s.cur) else s;
    if s1.ready != [] then
      var next := s1.ready[0];
      var s2 := s1.(ready := s1.ready[1..]);
      if s2.tasks[next].state != Running then s2.(panic := true)
      else Dispatch(s2, next)
    else if s1.cur == s1.idle then s1
    else Dispatch(Put(s1, s1.idle, s1.tasks[s1.idle].(state := Running)), s1.idle)
  }

  function Dispatch(s: Sys, t: Tid): Sys
    requires t in s.tasks
  {
    Put(s, t, s.tasks[t].(quantum := DEFAULT_QUANTUM)).(cur := t)
  }

  function WqPrepare(s: Sys, q: Queue, t: Tid): Sys
    requires t in s.tasks
  {
    var on := s.tasks[t].on;
    var qs := if on.Some? then s.queues[on.value := Remove(Q(s, on.value), t)] else s.queues;
    var l := if q in qs then qs[q] else [];
    Put(s, t, s.tasks[t].(state := Waiting, on := Some(q)))
      .(ready := Remove(s.ready, t), queues := qs[q := [t] + l])
  }

  function WqFinish(s: Sys, t: Tid): Sys
    requires t in s.tasks
  {
    var on := s.tasks[t].on;
    if on.None? then s
    else
      var s1 := s.(queues := s.queues[on.value := Remove(Q(s, on.value), t)]);
      Enqueue(Put(s1, t, s1.tasks[t].(state := Running, on := None)), t)
  }

  /** Finishing every entry of a list, in order. */
  function WakeList(s: Sys, l: seq<Tid>): Sys
    requires forall t :: t in l ==> t in s.tasks
    decreases |l|
  {
    if l == [] then s
    else WakeList(WqFinish(s, l[0]), l[1..])
  }

  /** The same for the entries whose time has come. */
  function WakeExpired(s: Sys, l: seq<Tid>): Sys
    requires forall t :: t in l ==> t in s.tasks
    decreases |l|
  {
    if l == [] then s
    else if s.tasks[l[0]].wakeAt <= s.ticks then WakeExpired(WqFinish(s, l[0]), l[1..])
    else WakeExpired(s, l[1..])
  }

  // ---------------------------------------------------------------- what the primitives keep

  /** Parents, children, pids and the set of zombies are as before, and nobody started waiting. */
  ghost predicate SameTree(s: Sys, s': Sys) {
    && s'.tasks.Keys == s.tasks.Keys && s'.pids == s.pids && s'.idle == s.idle && s'.init == s.init
    && forall t :: t in s.tasks ==>
         var x, y := s.tasks[t], s'.tasks[t];
         && y.pid == x.pid && y.parent == x.parent && y.children == x.children
         && (y.state == Zombie <==> x.state == Zombie) && y.exitCode == x.exitCode
         && (y.on == None || (y.on == x.on && y.resume == x.resume))
  }

  /** The ready queue from which the scheduler picks. */
  function Contenders(s: Sys): seq<Tid>
    requires s.cur in s.tasks
  {
    if s.tasks[s.cur].state == Running && s.cur != s.idle then s.ready + [s.cur] else s.ready
  }

  /** Closed form of `schedule`: the head of the contenders runs for a full quantum, or idle. */
  lemma ScheduleEffect(s: Sys)
    requires Core(s)
    ensures var r, s' := Contenders(s), Schedule(s);
            if r != [] then
              r[0] in s.tasks && s.tasks[r[0]].state == Running
              && s' == Dispatch(s.(ready := r[1..]), r[0])
            else if s.cur == s.idle then s' == s
            else s' == Dispatch(Put(s, s.idle, s.tasks[s.idle].(state := Running)), s.idle)
  {
    var r := Contenders(s);
    if s.tasks[s.cur].state == Running && s.cur != s.idle {
      assert s.tasks[s.cur := s.tasks[s.cur].(state := Running)] == s.tasks;
    }
    if r != [] { assert r[0] in r; }
  }

  lemma DispatchReady(s: Sys)
    requires ReadyOk(s) && Contenders(s) != []
    ensures var r := Contenders(s); r[0] in s.tasks && ReadyOk(Dispatch(s.(ready := r[1..]), r[0]))
  {
    hide NoDup;
    if s.tasks[s.cur].state == Running && s.cur != s.idle { AppendFacts(s.ready, s.cur); }
    TailFacts(Contenders(s));
  }

  /** The wait queues depend only on the link that each task records. */
  lemma QueuesFrame(s: Sys, s': Sys)
    requires QueuesOk(s) && s'.queues == s.queues && s'.tasks.Keys == s.tasks.Keys
    requires forall t :: t in s.tasks ==> s'.tasks[t].on == s.tasks[t].on
    ensures QueuesOk(s')
  {
    assert forall q :: Q(s', q) == Q(s, q);
    hide Q;
  }

  lemma TasksFrame(s: Sys, t: Tid, task: Task, s': Sys)
    requires TasksOk(s) && t in s.tasks && TaskOk(s, t, task)
    requires s'.tasks == s.tasks[t := task] && s'.idle == s.idle
    ensures TasksOk(s')
  {
  }

  /** Handing over to `t`, which is ready to run as it is or is the idle task. */
  lemma DispatchKeeps(s: Sys, r: seq<Tid>, t: Tid, task: Task)
    requires QueuesOk(s) && TasksOk(s) && t in s.tasks
    requires task == s.tasks[t] || (t == s.idle && task == s.tasks[t].(state := Running))
    ensures var s' := Dispatch(Put(s, t, task).(ready := r), t);
            QueuesOk(s') && TasksOk(s') && SameTree(s, s')
  {
    hide QueuesOk;
    var s' := Dispatch(Put(s, t, task).(ready := r), t);
    assert TaskOk(s, t, s.tasks[t]);
    assert s'.tasks == s.tasks[t := task.(quantum := DEFAULT_QUANTUM)];
    TasksFrame(s, t, task.(quantum := DEFAULT_QUANTUM), s');
    QueuesFrame(s, s');
  }

  /** From any coherent state, the scheduler never panics and hands over to a running task. */
  lemma ScheduleSafe(s: Sys)
    requires Core(s)
    ensures Safe(Schedule(s)) && SameTree(s, Schedule(s)) && Schedule(s).queues == s.queues
  {
    hide QueuesOk;
    hide SameTree;
    ScheduleEffect(s);
    var r, s' := Contenders(s), Schedule(s);
    if r != [] {
      DispatchReady(s);
      DispatchKeeps(s, r[1..], r[0], s.tasks[r[0]]);
      assert Put(s, r[0], s.tasks[r[0]]) == s;
    } else if s.cur == s.idle {
      assert TaskOk(s, s.idle, s.tasks[s.idle]);
      SameTreeRefl(s);
    } else {
      DispatchKeeps(s, s.ready, s.idle, s.tasks[s.idle].(state := Running));
    }
  }

  lemma SameTreeRefl(s: Sys)
    ensures SameTree(s, s)
  {
  }

  lemma FinishContents(s: Sys, t: Tid, q: Queue)
    requires t in s.tasks && s.tasks[t].on.Some?
    ensures Q(WqFinish(s, t), q) == if s.tasks[t].on == Some(q) then Remove(Q(s, q), t) else Q(s, q)
  {
  }

  lemma FinishQueues(s: Sys, t: Tid)
    requires QueuesOk(s) && t in s.tasks && s.tasks[t].on.Some?
    requires WqFinish(s, t).tasks == s.tasks[t := s.tasks[t].(state := Running, on := None)]
    ensures QueuesOk(WqFinish(s, t))
  {
    hide Q;
    hide NoDup;
    hide WqFinish;
    var s' := WqFinish(s, t);
    var q0 := s.tasks[t].on.value;
    assert NoDup(Q(s, q0));
    RemoveFacts(Q(s, q0), t);
    forall q ensures NoDup(Q(s', q)) {
      FinishContents(s, t, q);
    }
    forall q, u | u in Q(s', q) ensures u in s'.tasks && s'.tasks[u].on == Some(q) {
      FinishContents(s, t, q);
      assert u in Q(s, q);
    }
    forall u | u in s'.tasks && s'.tasks[u].on.Some? ensures u in Q(s', s'.tasks[u].on.value) {
      FinishContents(s, t, s'.tasks[u].on.value);
    }
  }

  lemma FinishReady(s: Sys, t: Tid)
    requires ReadyOk(s) && TasksOk(s) && t in s.tasks && s.tasks[t].on.Some? && t != s.cur
    ensures ReadyOk(WqFinish(s, t)) && WqFinish(s, t).ready == s.ready + [t]
    ensures WqFinish(s, t).tasks == s.tasks[t := s.tasks[t].(state := Running, on := None)]
  {
    hide NoDup;
    hide Q;
    assert TaskOk(s, t, s.tasks[t]);
    AppendFacts(s.ready, t);
  }

  /** Finishing a wait keeps every invariant, and moves the task to the end of the ready queue. */
  lemma WqFinishCore(s: Sys, t: Tid)
    requires Core(s) && t in s.tasks && s.tasks[s.cur].on.None?
    ensures Core(WqFinish(s, t)) && SameTree(s, WqFinish(s, t))
    ensures WqFinish(s, t).ready == if s.tasks[t].on.None? then s.ready else s.ready + [t]
    ensures WqFinish(s, t).cur == s.cur && WqFinish(s, t).tasks[s.cur] == s.tasks[s.cur]
    ensures WqFinish(s, t).tasks[t].on.None?
  {
    hide QueuesOk;
    hide Q;
    hide NoDup;
    hide ReadyOk;
    hide TasksOk;
    CoreTask(s, t);
    if s.tasks[t].on.Some? {
      FinishReady(s, t);
      FinishQueues(s, t);
      TasksFrame(s, t, s.tasks[t].(state := Running, on := None), WqFinish(s, t));
    }
  }

  lemma CoreTask(s: Sys, t: Tid)
    requires Core(s) && t in s.tasks
    ensures TaskOk(s, t, s.tasks[t]) && s.cur in s.tasks
  {
  }
}
