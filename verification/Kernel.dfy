/** The process core as the kernel runs it: global queues and tasks updated in place. Each method is
    proved against the step of the same name. */
module Kernel {
  import opened Lists
  import opened Ids
  import opened Scheduling
  import opened Processes
  import opened ProcessSteps
  import opened ProcessRuns
  import opened Answers

  class ProcessCore {
    var tasks: map<Tid, Task>
    var ready: seq<Tid>
    var queues: map<Queue, seq<Tid>>
    var cur: Tid
    var ticks: nat
    var pids: set<nat>
    const idle: Tid
    const init: Tid

    ghost function State(): Sys
      reads this
    {
      Sys(tasks, ready, queues, cur, idle, init, ticks, pids, false)
    }

    method SchedEnqueue(t: Tid)
      requires t in tasks
      modifies this
      ensures State() == Enqueue(old(State()), t)
    {
      if t in ready {
        return;
      }
      tasks := tasks[t := tasks[t].(state := Running)];
      ready := ready + [t];
    }

    /** `schedule`: the panic on a task that is not running cannot be reached. */
    method Schedule()
      requires Core(State())
      modifies this
      ensures State() == Scheduling.Schedule(old(State())) && Safe(State())
    {
      hide Core;
      hide Safe;
      ghost var s := State();
      CoreShape(s);
      ScheduleEffect(s);
      ScheduleSafe(s);
      if tasks[cur].state == Running && cur != idle {
        SchedEnqueue(cur);
      }
      var next := idle;
      if ready != [] {
        next := ready[0];
        ready := ready[1..];
        if tasks[next].state != Running {
          assert false;  // "non-RUNNING task in ready queue" is unreachable
        }
      } else {
        if cur == idle {
          return;
        }
        tasks := tasks[next := tasks[next].(state := Running)];
      }
      cur := next;
      tasks := tasks[next := tasks[next].(quantum := DEFAULT_QUANTUM)];
    }

    method WqPrepare(q: Queue, t: Tid)
      requires t in tasks
      modifies this
      ensures State() == Scheduling.WqPrepare(old(State()), q, t)
    {
      var linked := tasks[t].on;
      tasks := tasks[t := tasks[t].(state := Waiting, on := Some(q))];
      ready := Remove(ready, t);
      if linked.Some? {
        var l := if linked.value in queues then queues[linked.value] else [];
        queues := queues[linked.value := Remove(l, t)];
      }
      queues := queues[q := [t] + if q in queues then queues[q] else []];
    }

    method WqFinish(t: Tid)
      requires t in tasks
      modifies this
      ensures State() == Scheduling.WqFinish(old(State()), t)
    {
      var linked := tasks[t].on;
      if linked.None? {
        return;
      }
      var l := if linked.value in queues then queues[linked.value] else [];
      queues := queues[linked.value := Remove(l, t)];
      tasks := tasks[t := tasks[t].(state := Running, on := None)];
      SchedEnqueue(t);
    }

    /** `wq_wake_all`: finish the first entry until the queue is empty. */
    method WqWakeAll(q: Queue)
      requires Core(State()) && tasks[cur].on.None?
      modifies this
      ensures forall t :: t in Q(old(State()), q) ==> t in old(tasks)
      ensures State() == WakeList(old(State()), Q(old(State()), q))
    {
      hide Core;
      ghost var s := State();
      CoreShape(s);
      while q in queues && queues[q] != []
        invariant Core(State()) && cur in tasks && tasks[cur].on.None?
        invariant forall t :: t in Q(State(), q) ==> t in tasks
        invariant WakeList(State(), Q(State(), q)) == WakeList(s, Q(s, q))
        decreases |Q(State(), q)|
      {
        ghost var m := State();
        var t := queues[q][0];
        FirstWoken(m, q);
        WqFinish(t);
        CoreShape(State());
      }
    }

    /** `task_wake_up_sleepers`: one pass over the sleepers, removing those whose time has come. */
    method WakeUpSleepers()
      requires Core(State()) && tasks[cur].on.None?
      modifies this
      ensures QueuesOk(old(State())) && State() == WakeSleepers(old(State()))
      ensures WokenExactly(old(State()), State(), Q(old(State()), Sleep))
    {
      hide WokenExactly;
      hide Core;
      hide QueuesOk;
      hide SameTree;
      hide Scheduling.WqFinish;
      ghost var s := State();
      CoreShape(s);
      var l := if Sleep in queues then queues[Sleep] else [];
      assert l == Q(s, Sleep);
      WakeExpiredFacts(s, l);
      hide Q;
      var i := 0;
      while i < |l|
        invariant 0 <= i <= |l| && forall t :: t in l ==> t in s.tasks
        invariant Core(State()) && cur in tasks && tasks[cur].on.None? && tasks.Keys == s.tasks.Keys
        invariant WakeExpired(State(), l[i..]) == WakeExpired(s, l)
      {
        assert l[i..][0] == l[i] && l[i..][1..] == l[i + 1..];
        assert l[i] in l;
        if tasks[l[i]].wakeAt <= ticks {
          WqFinishCore(State(), l[i]);
          TreeKeys(State(), Scheduling.WqFinish(State(), l[i]));
          WqFinish(l[i]);
        }
        i := i + 1;
      }
    }

    method TimerHandle()
      requires Inv(State())
      modifies this
      ensures State() == TickStep(old(State())) && Inv(State()) && Core(old(State()))
      ensures old(cur != idle && cur in tasks && tasks[cur].quantum > 1) ==>
                && cur == old(cur) && ready == Queued(old(State())) && cur in tasks
                && tasks[cur] == old(tasks[cur]).(quantum := old(tasks[cur].quantum) - 1)
      ensures old(cur == idle || (cur in tasks && tasks[cur].quantum == 1)) ==>
                var c := AtTurn(old(State()));
                if c == [] then cur == idle && ready == []
                else cur == c[0] && ready == c[1..] && cur in tasks && tasks[cur].quantum == 10
    {
      hide Core;
      hide Queued;
      hide AtTurn;
      hide Inv;
      hide WakeSleepers;
      hide Scheduling.Schedule;
      hide SameTree;
      ghost var s := State();
      InvSafe(s);
      TickWakes(s);
      TickKeeps(s);
      TickAnswers(s);
      ticks := ticks + 1;
      WakeUpSleepers();
      CoreShape(State());
      if cur != idle {
        var q := tasks[cur].quantum;
        assert q != 0;  // the unsigned decrement cannot wrap
        tasks := tasks[cur := tasks[cur].(quantum := q - 1)];
        if tasks[cur].quantum > 0 {
          return;
        }
      }
      Schedule();
    }

    /** Successful and failing `fork`, as far as tasks, pids and queues go; `t` is the address of
        the new task structure. */
    method Fork(t: Tid) returns (pid: int)
      requires Inv(State()) && Enabled(State(), Event.Fork(t))
      modifies this
      ensures State() == AddChild(old(State()), old(cur), t, true) && Inv(State())
      ensures pid == LeastClear(old(pids), 0, PID_MAX)
      ensures pid >= 0 ==> t in tasks && tasks[t].pid == pid && tasks[t].parent == Some(cur) && tasks[t].children == []
                           && tasks[t].state == Running && tasks[t].quantum == tasks[cur].quantum
      ensures pid >= 0 ==> cur == old(cur) && ready == old(ready) + [t] && cur in tasks && tasks[cur].children == [t] + old(tasks[cur].children)
    {
      hide Core;
      hide TreeOk;
      hide PidsOk;
      hide NoLostWakeup;
      ghost var s := State();
      CoreShape(s);
      ForkKeeps(s, cur, t, true);
      pid := LeastClear(pids, 0, PID_MAX);
      if pid < 0 {
        return;
      }
      AddChildEffect(s, cur, t, true);
      pids := pids + {pid};
      var child := Task(pid, Running, Some(cur), [], None, User, tasks[cur].quantum, tasks[cur].wakeAt, 0);
      tasks := tasks[cur := tasks[cur].(children := [t] + tasks[cur].children)];
      tasks := tasks[t := child];
      SchedEnqueue(t);
    }

    /** `__task_reparent_children`: move the first child to kitoxD until none is left. */
    method ReparentChildren(p: Tid)
      requires TreeOk(State()) && p in tasks && p != init
      modifies this
      ensures State() == Reparent(old(State()), p)
    {
      hide TreeOk;
      ghost var s := State();
      while tasks[p].children != []
        invariant TreeOk(State()) && p in tasks && Reparent(State(), p) == Reparent(s, p)
        decreases |tasks[p].children|
      {
        NodeAt(State(), p);
        ChildrenTail(State(), p);
        MoveChildTree(State(), p);
        MoveChildFacts(State(), p);
        ghost var m := State();
        var c := tasks[p].children[0];
        tasks := tasks[c := tasks[c].(parent := Some(init))];
        tasks := tasks[p := tasks[p].(children := tasks[p].children[1..])];
        tasks := tasks[init := tasks[init].(children := [c] + tasks[init].children)];
        assert State() == MoveChild(m, p);
      }
    }

    /** `do_exit`: the panic after the scheduler cannot be reached. */
    method DoExit(status: int)
      requires Inv(State()) && Enabled(State(), Exit(status))
      modifies this
      ensures State() == ExitStep(old(State()), status) && Inv(State())
    {
      hide Safe;
      hide TreeOk;
      hide PidsOk;
      hide NoLostWakeup;
      hide Core;
      hide SameTree;
      hide WokenOnly;
      hide Reparent;
      hide WakeList;
      hide Scheduling.Schedule;
      ghost var s := State();
      var me, parent := cur, tasks[cur].parent;
      ExitMarkFacts(s, status);
      ExitWakes(s, status);
      ExitKeeps(s, status);
      tasks := tasks[me := tasks[me].(exitCode := status % 256 * 256)];
      CurrentNotQueued(s);
      assert me !in ready;  // nothing to unlink
      TreeFrame(s, State());
      ReparentChildren(me);
      ReparentFacts(SetExitCode(s, status), me);
      tasks := tasks[me := tasks[me].(state := Zombie)];
      assert State() == ExitMark(s, status);
      ExitWakeShape(s, status);
      WqWakeAll(Children(parent.value));
      assert State() == ExitWake(s, status);
      Schedule();
      if cur == me {
        assert false;  // "Returned after task_exit_cleanup" is unreachable
      }
    }

    /** `find_zombie_child`: the first child, in list order, that is a matching zombie. */
    method FindZombieChild(parent: Tid, pid: int) returns (r: Option<Tid>)
      requires parent in tasks && forall c :: c in tasks[parent].children ==> c in tasks
      ensures r == FindZombie(State(), tasks[parent].children, pid)
    {
      var l := tasks[parent].children;
      var i := 0;
      while i < |l|
        invariant 0 <= i <= |l|
        invariant FindZombie(State(), l[i..], pid) == FindZombie(State(), l, pid)
      {
        assert l[i..][0] == l[i] && l[i..][1..] == l[i + 1..];
        assert l[i] in l;
        if tasks[l[i]].state == Zombie && (pid == -1 || tasks[l[i]].pid == pid) {
          return Some(l[i]);
        }
        i := i + 1;
      }
      return None;
    }

    method TaskHasChildPid(parent: Tid, pid: int) returns (b: bool)
      requires parent in tasks && forall c :: c in tasks[parent].children ==> c in tasks
      ensures b == HasChildPid(State(), tasks[parent].children, pid)
    {
      var l := tasks[parent].children;
      var i := 0;
      while i < |l|
        invariant 0 <= i <= |l|
        invariant HasChildPid(State(), l[i..], pid) == HasChildPid(State(), l, pid)
      {
        assert l[i..][0] == l[i] && l[i..][1..] == l[i + 1..];
        assert l[i] in l;
        if tasks[l[i]].pid == pid {
          return true;
        }
        i := i + 1;
      }
      return false;
    }

    method TaskRelease(z: Tid)
      requires z in tasks && tasks[z].parent.Some? && tasks[z].parent.value in tasks
      modifies this
      ensures State() == Release(old(State()), z)
    {
      var p := tasks[z].parent.value;
      pids := pids - {tasks[z].pid};
      tasks := tasks[p := tasks[p].(children := Remove(tasks[p].children, z))] - {z};
    }

    /** One pass through the `waitpid` loop: it returns, or blocks the caller and switches away. */
    method SysWaitpid(pid: int, fault: bool) returns (r: WaitResult)
      requires MayWait(State())
      modifies this
      ensures (State(), r) == WaitStep(old(State()), pid, fault) && Inv(State())
      ensures Answer(old(State()), pid, fault, State(), r)
    {
      hide Safe;
      hide TreeOk;
      hide PidsOk;
      hide NoLostWakeup;
      hide Scheduling.Schedule;
      hide Answer;
      hide Scheduling.WqPrepare;
      ghost var s := State();
      WaitKeeps(s, pid, fault);
      WaitAnswers(s, pid, fault);
      if pid == 0 || pid < -1 {
        tasks := tasks[cur := tasks[cur].(resume := User)];
        return Returned(-EINVAL);
      }
      if tasks[cur].children == [] {
        if cur != init {
          tasks := tasks[cur := tasks[cur].(resume := User)];
          return Returned(-ECHILD);
        }
      } else if pid > 0 {
        var has := TaskHasChildPid(cur, pid);
        if !has {
          tasks := tasks[cur := tasks[cur].(resume := User)];
          return Returned(-ECHILD);
        }
      }
      var zombie := FindZombieChild(cur, pid);
      FindZombieFacts(s, tasks[cur].children, pid);
      if zombie.Some? {
        var z := zombie.value;
        var ret, code := tasks[z].pid, tasks[z].exitCode;
        if fault {
          tasks := tasks[cur := tasks[cur].(resume := User)];
          return Returned(-EFAULT);
        }
        ZombieChild(s, z);
        TaskRelease(z);
        tasks := tasks[cur := tasks[cur].(resume := User)];
        return Collected(ret, code);
      }
      WaitMayBlock(s, pid);
      PrepareCore(SetResume(s, InWaitpid(pid)), Children(cur));
      tasks := tasks[cur := tasks[cur].(resume := InWaitpid(pid))];
      WqPrepare(Children(cur), cur);
      Schedule();
      return Blocked;
    }

    /** `timer_ksleep`, up to the switch away from the caller. */
    method KSleep(seconds: nat)
      requires Inv(State()) && cur != idle
      modifies this
      ensures State() == SleepStep(old(State()), seconds) && Inv(State())
    {
      hide Core;
      hide TreeOk;
      hide PidsOk;
      hide NoLostWakeup;
      hide Scheduling.Schedule;
      hide Scheduling.WqPrepare;
      ghost var s := State();
      CoreShape(s);
      SleepKeeps(s, seconds);
      SleepMayBlock(s, seconds);
      PrepareCore(SleepMark(s, seconds), Sleep);
      tasks := tasks[cur := tasks[cur].(wakeAt := (ticks + TICKS_PER_SECOND * seconds) % 0x1_0000_0000, resume := InSleep)];
      WqPrepare(Sleep, cur);
      Schedule();
    }

    /** `timer_ksleep`, from the switch back to its return. */
    method KSleepReturn()
      requires Inv(State()) && Enabled(State(), SleepReturn)
      modifies this
      ensures State() == SleepEnd(old(State())) && Inv(State())
      ensures tasks[cur].wakeAt == 0 && tasks[cur].resume == User
    {
      hide Safe, TreeOk, PidsOk, NoLostWakeup;
      SleepEndKeeps(State());
      tasks := tasks[cur := tasks[cur].(resume := User, wakeAt := 0)];
    }
  }

  /** Both cases of a tick. */
  lemma TickAnswers(s: Sys)
    requires Inv(s)
    ensures Core(s) && s.cur in s.tasks
    ensures s.cur != s.idle && s.tasks[s.cur].quantum > 1 ==>
              var s' := TickStep(s);
              && s'.cur == s.cur && s.cur in s'.tasks && s'.ready == Queued(s)
              && s'.tasks[s.cur] == s.tasks[s.cur].(quantum := s.tasks[s.cur].quantum - 1)
    ensures s.cur == s.idle || s.tasks[s.cur].quantum == 1 ==>
              var s', c := TickStep(s), AtTurn(s);
              if c == [] then s'.cur == s.idle && s'.ready == []
              else s'.cur == c[0] && s'.ready == c[1..] && c[0] in s'.tasks && s'.tasks[c[0]].quantum == 10
  {
    hide TickStep, Queued, AtTurn, TreeOk, PidsOk, NoLostWakeup, QueuesOk;
    if s.cur != s.idle && s.tasks[s.cur].quantum > 1 { TickKeepsCurrent(s); }
    if s.cur == s.idle || s.tasks[s.cur].quantum == 1 { TickSwitches(s); }
  }

  lemma CurrentNotQueued(s: Sys)
    requires Inv(s)
    ensures s.cur !in s.ready
  {
  }

  lemma InvSafe(s: Sys)
    requires Inv(s)
    ensures Safe(s) && s.cur in s.tasks && s.tasks[s.cur].on.None?
  {
    CoreTask(s, s.cur);
  }

  /** Finishing the first waiter leaves the others in place. */
  lemma FirstWoken(m: Sys, q: Queue)
    requires Core(m) && m.tasks[m.cur].on.None? && q in m.queues && m.queues[q] != []
    ensures var l, t := m.queues[q], m.queues[q][0];
            && l == Q(m, q) && t in m.tasks && m.tasks[t].on == Some(q)
            && var m' := Scheduling.WqFinish(m, t);
               && Core(m') && m'.cur == m.cur && m'.tasks[m.cur] == m.tasks[m.cur]
               && Q(m', q) == l[1..] && (forall u :: u in l[1..] ==> u in m'.tasks)
               && (forall u :: u in l ==> u in m.tasks)
               && WakeList(m', Q(m', q)) == WakeList(m, l)
  {
    var t := m.queues[q][0];
    assert t in Q(m, q);
    WqFinishCore(m, t);
    FinishContents(m, t, q);
  }
}
