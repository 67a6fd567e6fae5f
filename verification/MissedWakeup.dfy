/** The one wake-up that can be missed: kitoxD blocked in `waitpid`, inheriting a zombie. When exactly it
    happens, over whole runs, and a run from boot in which it does. */
module MissedWakeup {
  import opened Lists
  import opened Ids
  import opened Scheduling
  import opened Processes
  import opened ProcessSteps
  import opened ProcessRuns

  // ---------------------------------------------------------------- the exit that kitoxD misses

  /** kitoxD is blocked in `waitpid`, is not the parent of the current task, and would inherit from it
      a zombie that it accepts. */
  ghost predicate OrphansZombie(s: Sys) {
    && BlockedInWaitpid(s, s.init) && s.cur in s.tasks
    && s.tasks[s.cur].parent != Some(s.init)
    && exists c :: c in s.tasks[s.cur].children && c in s.tasks && Match(s.tasks[s.init].resume.pid, s.tasks[c])
  }

  lemma ScheduleWaits(s: Sys, t: Tid)
    requires Core(s) && t in s.tasks
    ensures t in Schedule(s).tasks && Schedule(s).tasks[t].on == s.tasks[t].on
    ensures Schedule(s).tasks[t].resume == s.tasks[t].resume
  {
    hide NoDup;
    hide QueuesOk;
    hide TasksOk;
    ScheduleEffect(s);
  }

  /** An exiting task makes kitoxD miss a wake-up exactly when kitoxD is blocked in `waitpid`, is
      not the parent of the exiting task, and inherits from it a zombie that it would accept. */
  lemma ExitMissesKitoxd(s: Sys, status: int)
    requires MayExit(s) && !LostWakeup(s, s.init)
    ensures LostWakeup(ExitStep(s, status), s.init) <==> OrphansZombie(s)
  {
    hide Core;
    hide TreeOk;
    hide PidsOk;
    hide NoLostWakeup;
    hide LostWakeup;
    hide BlockedInWaitpid;
    hide SameTree;
    hide ExitMarked;
    hide WokenOnly;
    hide ExitMark;
    hide ExitWake;
    hide Schedule;
    ExitMarkFacts(s, status);
    ExitWakes(s, status);
    var s1, s2 := ExitMark(s, status), ExitWake(s, status);
    CoreShape(s);
    CoreShape(s2);
    ScheduleSafe(s2);
    ExitKeeps(s, status);
    SameTreeTrans(s1, s2, Schedule(s2));
    SameIdle(s1, s2);
    MarkedInit(s, s1, status);
    ScheduleBlocked(s2, s.init);
    InheritedChildren(s, s1, status);
    WhoIsWoken(s, s1, s2);
    OwnChildren(s);
    LostIff(s, s1, Schedule(s2), status);
  }

  lemma MarkedInit(s: Sys, s1: Sys, status: int)
    requires ExitMarked(s, s1, status) && s.init in s.tasks && s.cur != s.init
    ensures s1.init == s.init && s.init in s1.tasks
    ensures BlockedInWaitpid(s1, s.init) <==> BlockedInWaitpid(s, s.init)
  {
  }

  lemma ScheduleBlocked(s: Sys, t: Tid)
    requires Core(s) && t in s.tasks
    ensures s.cur in s.tasks && s.idle in s.tasks && forall u :: u in s.ready ==> u in s.tasks
    ensures BlockedInWaitpid(Schedule(s), t) <==> BlockedInWaitpid(s, t)
  {
    hide Core;
    hide Schedule;
    CoreShape(s);
    ScheduleWaits(s, t);
  }

  /** The condition on the state before, from the facts about the state after. */
  lemma LostIff(s: Sys, s1: Sys, s3: Sys, status: int)
    requires s.cur in s.tasks && s.init in s.tasks && s.cur != s.init && !LostWakeup(s, s.init)
    requires ExitMarked(s, s1, status) && SameTree(s1, s3) && s.tasks[s.cur].state == Running
    requires forall c :: c in s.tasks[s.init].children ==> c in s.tasks
    requires forall c :: c in s1.tasks[s.init].children <==>
               c in s.tasks[s.init].children || c in s.tasks[s.cur].children
    requires s.cur !in s.tasks[s.cur].children
    requires BlockedInWaitpid(s3, s.init) <==>
               BlockedInWaitpid(s, s.init) && s.tasks[s.cur].parent != Some(s.init)
    requires s.cur in s.tasks[s.init].children ==> s.tasks[s.cur].parent == Some(s.init)
    ensures LostWakeup(s3, s.init) <==> OrphansZombie(s)
  {
    var k := s.init;
    if BlockedInWaitpid(s3, k) {
      var pid := s.tasks[k].resume.pid;
      assert s3.tasks[k].resume == s.tasks[k].resume;
      forall c | c in s3.tasks[k].children && c in s3.tasks && Match(pid, s3.tasks[c])
        ensures c in s.tasks[s.cur].children && c in s.tasks && Match(pid, s.tasks[c])
      {
        assert c != s.cur;
        assert Match(pid, s.tasks[c]);
      }
      forall c | c in s.tasks[s.cur].children && c in s.tasks && Match(pid, s.tasks[c])
        ensures c in s3.tasks[k].children && c in s3.tasks && Match(pid, s3.tasks[c])
      {
      }
    }
  }

  /** kitoxD's children after the exit: its own and those it inherits. */
  lemma InheritedChildren(s: Sys, s1: Sys, status: int)
    requires TreeOk(s) && TreeOk(s1) && ExitMarked(s, s1, status) && s.cur != s.init
    ensures forall c :: c in s1.tasks[s.init].children <==>
              c in s.tasks[s.init].children || c in s.tasks[s.cur].children
  {
    hide NoDup;
    hide TreeOk;
    NodeAt(s, s.init);
    NodeAt(s1, s.init);
    NodeAt(s, s.cur);
    forall c ensures c in s1.tasks[s.init].children <==>
                     c in s.tasks[s.init].children || c in s.tasks[s.cur].children
    {
      NodeAt(s, c);
      NodeAt(s1, c);
    }
  }

  /** kitoxD is woken by the exit exactly when it waits for its children and is the parent. */
  lemma WhoIsWoken(s: Sys, s1: Sys, s2: Sys)
    requires Core(s1) && s.cur in s.tasks && s.tasks[s.cur].parent.Some? && s.init in s1.tasks
    requires SameTree(s1, s2)
    requires WokenOnly(s1, s2, Q(s1, ParentQueue(s)))
    ensures BlockedInWaitpid(s2, s.init) <==>
              BlockedInWaitpid(s1, s.init) && s.tasks[s.cur].parent != Some(s.init)
  {
    hide NoDup;
    hide ReadyOk;
    hide TasksOk;
    hide Q;
    var k := s.init;
    if s1.tasks[k].on == Some(Children(k)) {
      assert k in Q(s1, Children(k));
    }
  }

  lemma OwnChildren(s: Sys)
    requires Inv(s) && s.cur in s.tasks && s.cur != s.init
    ensures s.init in s.tasks && s.cur !in s.tasks[s.cur].children && s.tasks[s.cur].state == Running
    ensures forall c :: c in s.tasks[s.init].children ==> c in s.tasks
    ensures s.cur in s.tasks[s.init].children ==> s.tasks[s.cur].parent == Some(s.init)
  {
  }

  // ---------------------------------------------------------------- all other steps

  lemma TreeLost(s: Sys, s': Sys, t: Tid)
    requires SameTree(s, s') && LostWakeup(s', t)
    ensures LostWakeup(s, t)
  {
  }

  lemma BlockLost(s: Sys, q: Queue, t: Tid)
    requires MayBlock(s, q) && !LostWakeup(s, t)
    requires t == s.cur && q == Children(t) && s.tasks[t].resume.InWaitpid? ==>
               forall c :: c in s.tasks[t].children && c in s.tasks ==> !Match(s.tasks[t].resume.pid, s.tasks[c])
    ensures !LostWakeup(Block(s, q), t)
  {
    hide Core, SameTree;
    CoreShape(s);
    PrepareCore(s, q);
    var s1 := WqPrepare(s, q, s.cur);
    CoreShape(s1);
    ScheduleSafe(s1);
    assert !LostWakeup(s1, t);
    if LostWakeup(Schedule(s1), t) { TreeLost(s1, Schedule(s1), t); }
  }

  lemma WaitLost(s: Sys, pid: int, fault: bool, t: Tid)
    requires MayWait(s) && !LostWakeup(s, t)
    ensures !LostWakeup(WaitStep(s, pid, fault).0, t)
  {
    hide Safe, PidsOk, NoLostWakeup, TreeOk, Block;
    var l := s.tasks[s.cur].children;
    FindZombieFacts(s, l, pid);
    match FindZombie(s, l, pid)
    case Some(x) =>
      ZombieChild(s, x);
      ReleaseLost(s, x, t);
    case None =>
      WaitMayBlock(s, pid);
      CurrentFree(s);
      BlockLost(SetResume(s, InWaitpid(pid)), Children(s.cur), t);
  }

  lemma CurrentFree(s: Sys)
    requires Inv(s)
    ensures s.cur in s.tasks && s.tasks[s.cur].on.None?
  {
    CoreTask(s, s.cur);
  }

  lemma ReleaseLost(s: Sys, x: Tid, t: Tid)
    requires s.cur in s.tasks && x in s.tasks && s.tasks[x].parent == Some(s.cur) && s.cur != x
    requires Inv(s) && !LostWakeup(s, t)
    ensures !LostWakeup(SetResume(Release(s, x), User), t) && !LostWakeup(SetResume(s, User), t)
  {
    hide Safe, PidsOk, NoLostWakeup, TreeOk, Remove;
    CurrentFree(s);
  }

  lemma TickLost(s: Sys, t: Tid)
    requires Inv(s) && !LostWakeup(s, t)
    ensures !LostWakeup(TickStep(s), t)
  {
    hide Core, TreeOk, PidsOk, NoLostWakeup, LostWakeup, WakeSleepers, Charge, SameTree, WokenExactly;
    TickWakes(s);
    CoreShape(s);
    var s1 := WakeSleepers(s.(ticks := s.ticks + 1));
    var s2 := Charge(s1);
    ChargeCore(s1);
    SameTreeTrans(s, s1, s2);
    CoreShape(s2);
    ScheduleSafe(s2);
    SameTreeTrans(s, s2, Schedule(s2));
    if LostWakeup(TickStep(s), t) {
      if TickStep(s) == s2 { TreeLost(s, s2, t); } else { TreeLost(s, Schedule(s2), t); }
    }
  }

  lemma ForkLost(s: Sys, parent: Tid, c: Tid, forked: bool, t: Tid)
    requires MayFork(s, parent, c) && !LostWakeup(s, t)
    ensures !LostWakeup(AddChild(s, parent, c, forked), t)
  {
    hide Inv;
    if LeastClear(s.pids, 0, PID_MAX) >= 0 { AddChildEffect(s, parent, c, forked); }
  }

  lemma SleepLost(s: Sys, seconds: nat, t: Tid)
    requires Inv(s) && s.cur != s.idle && !LostWakeup(s, t)
    ensures !LostWakeup(SleepStep(s, seconds), t)
  {
    hide Core, TreeOk, PidsOk, NoLostWakeup;
    SleepMayBlock(s, seconds);
    if LostWakeup(SleepMark(s, seconds), t) { TreeLost(s, SleepMark(s, seconds), t); }
    BlockLost(SleepMark(s, seconds), Sleep, t);
  }

  lemma SignalLost(s: Sys, u: Tid, t: Tid)
    requires Inv(s) && !LostWakeup(s, t)
    ensures !LostWakeup(SignalStep(s, u), t)
  {
    hide Core, TreeOk, PidsOk, NoLostWakeup, SameTree, WqFinish, LostWakeup;
    if u in s.tasks {
      CurrentFree(s);
      WqFinishCore(s, u);
      if LostWakeup(WqFinish(s, u), t) { TreeLost(s, WqFinish(s, u), t); }
    }
  }

  lemma SleepEndLost(s: Sys, t: Tid)
    requires Inv(s) && s.cur in s.tasks && !LostWakeup(s, t)
    ensures !LostWakeup(SleepEnd(s), t)
  {
    hide TreeOk, PidsOk, NoLostWakeup;
    CurrentFree(s);
  }

  /** No step but an exit makes any task miss a wake-up. */
  lemma OthersMissNothing(s: Sys, e: Event, t: Tid)
    requires Inv(s) && Enabled(s, e) && !e.Exit? && !LostWakeup(s, t)
    ensures !LostWakeup(Next(s, e), t)
  {
    hide Inv, LostWakeup;
    InvShape(s);
    match e
    case Tick => TickLost(s, t);
    case Fork(c) => ForkLost(s, s.cur, c, true, t);
    case Spawn(c) => ForkLost(s, s.init, c, false, t);
    case Waitpid(pid, fault) => WaitLost(s, pid, fault, t);
    case SleepFor(seconds) => SleepLost(s, seconds, t);
    case SleepReturn => SleepEndLost(s, t);
    case Signal(u) => SignalLost(s, u, t);
  }

  /** Over every run: kitoxD comes to miss a wake-up at step `i` if and only if that step is an exit
      that orphans a zombie to it. */
  lemma KitoxdMissesIff(ss: seq<Sys>, es: seq<Event>, i: nat)
    requires Run(ss, es) && Inv(ss[0]) && i < |es| && !LostWakeup(ss[i], ss[i].init)
    ensures LostWakeup(ss[i + 1], ss[i].init) <==> es[i].Exit? && OrphansZombie(ss[i])
  {
    hide LostWakeup, OrphansZombie, Inv, Safe;
    RunSafe(ss, es, i);
    var s, e := ss[i], es[i];
    InvShape(s);
    if e.Exit? { ExitMissesKitoxd(s, e.status); } else { OthersMissNothing(s, e, s.init); }
  }

  // ---------------------------------------------------------------- a run from boot

  /** kitoxD (1) forks 2 and waits; 2 forks 3 and waits; 3 forks 4 and sleeps; 4 exits; the timer wakes 3,
      which exits and leaves the zombie 4 to kitoxD. */
  const Story: seq<Event> :=
    [Fork(2), Waitpid(-1, false), Fork(3), Waitpid(-1, false), Fork(4), SleepFor(0), Exit(0), Tick, SleepReturn, Exit(0)]

  const Idle0: Task := Task(0, New, None, [], None, User, 0, 0, 0)
  const Idle1: Task := Task(0, Running, None, [], None, User, 10, 0, 0)
  const Waiter1: Task := Task(1, Waiting, None, [2], Some(Children(1)), InWaitpid(-1), 10, 0, 0)
  const Waiter2: Task := Task(2, Waiting, Some(1), [3], Some(Children(2)), InWaitpid(-1), 10, 0, 0)

  function Child(pid: nat, children: seq<Tid>): Task
    requires pid > 0
  {
    Task(pid, Running, Some(pid - 1), children, None, User, 10, 0, 0)
  }

  function State1(): Sys {
    Sys(map[0 := Idle0, 1 := Task(1, Running, None, [2], None, User, 10, 0, 0), 2 := Child(2, [])],
        [2], map[], 1, 0, 1, 0, {0, 1, 2}, false)
  }

  function State2(): Sys {
    Sys(map[0 := Idle0, 1 := Waiter1, 2 := Child(2, [])],
        [], map[Children(1) := [1]], 2, 0, 1, 0, {0, 1, 2}, false)
  }

  function State3(): Sys {
    Sys(map[0 := Idle0, 1 := Waiter1, 2 := Child(2, [3]), 3 := Child(3, [])],
        [3], map[Children(1) := [1]], 2, 0, 1, 0, {0, 1, 2, 3}, false)
  }

  function State4(): Sys {
    Sys(map[0 := Idle0, 1 := Waiter1, 2 := Waiter2, 3 := Child(3, [])],
        [], map[Children(1) := [1], Children(2) := [2]], 3, 0, 1, 0, {0, 1, 2, 3}, false)
  }

  function State5(): Sys {
    Sys(map[0 := Idle0, 1 := Waiter1, 2 := Waiter2, 3 := Child(3, [4]), 4 := Child(4, [])],
        [4], map[Children(1) := [1], Children(2) := [2]], 3, 0, 1, 0, {0, 1, 2, 3, 4}, false)
  }

  function State6(): Sys {
    Sys(map[0 := Idle0, 1 := Waiter1, 2 := Waiter2,
            3 := Task(3, Waiting, Some(2), [4], Some(Sleep), InSleep, 10, 0, 0), 4 := Child(4, [])],
        [], map[Children(1) := [1], Children(2) := [2], Sleep := [3]], 4, 0, 1, 0, {0, 1, 2, 3, 4}, false)
  }

  function State7(): Sys {
    Sys(map[0 := Idle1, 1 := Waiter1, 2 := Waiter2,
            3 := Task(3, Waiting, Some(2), [4], Some(Sleep), InSleep, 10, 0, 0), 4 := Child(4, []).(state := Zombie)],
        [], map[Children(1) := [1], Children(2) := [2], Sleep := [3]], 0, 0, 1, 0, {0, 1, 2, 3, 4}, false)
  }

  function State8(): Sys {
    Sys(map[0 := Idle1, 1 := Waiter1, 2 := Waiter2,
            3 := Child(3, [4]).(resume := InSleep), 4 := Child(4, []).(state := Zombie)],
        [], map[Children(1) := [1], Children(2) := [2], Sleep := []], 3, 0, 1, 1, {0, 1, 2, 3, 4}, false)
  }

  function State9(): Sys {
    Sys(map[0 := Idle1, 1 := Waiter1, 2 := Waiter2, 3 := Child(3, [4]), 4 := Child(4, []).(state := Zombie)],
        [], map[Children(1) := [1], Children(2) := [2], Sleep := []], 3, 0, 1, 1, {0, 1, 2, 3, 4}, false)
  }

  ghost predicate Leads(s: Sys, e: Event, s': Sys) {
    Inv(s) && Enabled(s, e) && Next(s, e) == s' && Inv(s')
  }

  lemma LeadsTo(s: Sys, e: Event, s': Sys)
    requires Leads(s, e, s')
    ensures Inv(s')
  {
  }

  /** The step of a fork, when the pids in use are `0 ..< c` and nobody is ready. */
  lemma ForkIs(s: Sys, c: Tid, s': Sys)
    requires Inv(s) && Enabled(s, Fork(c)) && |s.ready| == 0 && c < PID_MAX
    requires forall n: nat :: n in s.pids <==> n < c
    requires s' == s.(tasks := s'.tasks, ready := [c], pids := s'.pids) && s'.pids == s.pids + {c}
    requires s'.tasks == s.tasks[s.cur := s.tasks[s.cur].(children := [c] + s.tasks[s.cur].children)]
                                [c := NewChild(s, c, s.cur, true)]
    ensures Leads(s, Fork(c), s')
  {
    hide Inv;
    InvShape(s);
    NextKeeps(s, Fork(c));
    LeastClearIs(s.pids, 0, PID_MAX, c);
    AddChildEffect(s, s.cur, c, true);
  }

  /** The step of a wait for any child by a task with one running child, the only one ready. */
  lemma WaitIs(s: Sys, c: Tid, s': Sys)
    requires Inv(s) && Enabled(s, Waitpid(-1, false)) && s.ready == [c] && s.tasks[s.cur].children == [c]
    requires c in s.tasks && s.tasks[c].state == Running && Children(s.cur) !in s.queues
    requires s' == s.(tasks := s'.tasks, ready := [], queues := s'.queues, cur := c)
    requires s'.queues == s.queues[Children(s.cur) := [s.cur]]
    requires s'.tasks == s.tasks[s.cur := s.tasks[s.cur].(state := Waiting, on := Some(Children(s.cur)), resume := InWaitpid(-1))]
                                [c := s.tasks[c].(quantum := DEFAULT_QUANTUM)]
    ensures Leads(s, Waitpid(-1, false), s')
  {
    hide Inv, Schedule;
    InvShape(s);
    NextKeeps(s, Waitpid(-1, false));
    FindZombieFacts(s, s.tasks[s.cur].children, -1);
    WaitMayBlock(s, -1);
    var s1 := SetResume(s, InWaitpid(-1));
    CurrentFree(s);
    BlockIs(s1, Children(s.cur), c);
    assert Next(s, Waitpid(-1, false)) == s';
  }

  /** Blocking hands over to the one ready task. */
  lemma BlockIs(s: Sys, q: Queue, c: Tid)
    requires MayBlock(s, q) && s.ready == [c] && c != s.cur && c in s.tasks && s.tasks[c].state == Running
    requires s.tasks[s.cur].on.None? && Q(s, q) == []
    ensures Block(s, q) ==
            s.(tasks := s.tasks[s.cur := s.tasks[s.cur].(state := Waiting, on := Some(q))]
                               [c := s.tasks[c].(quantum := DEFAULT_QUANTUM)],
               ready := [], queues := s.queues[q := [s.cur]], cur := c)
  {
    hide Core;
    CoreShape(s);
    PrepareCore(s, q);
    CoreShape(WqPrepare(s, q, s.cur));
    assert [s.cur] + [] == [s.cur];
  }

  lemma SleepIs(s: Sys, c: Tid, s': Sys)
    requires Inv(s) && Enabled(s, SleepFor(0)) && s.ready == [c] && c in s.tasks && s.tasks[c].state == Running
    requires Sleep !in s.queues && s.ticks == 0 && c != s.cur
    requires s' == s.(tasks := s'.tasks, ready := [], queues := s.queues[Sleep := [s.cur]], cur := c)
    requires s'.tasks == s.tasks[s.cur := s.tasks[s.cur].(state := Waiting, on := Some(Sleep), wakeAt := 0, resume := InSleep)]
                                [c := s.tasks[c].(quantum := DEFAULT_QUANTUM)]
    ensures Leads(s, SleepFor(0), s')
  {
    hide Inv, Schedule, Safe, Block, Core, SameTree, TreeOk, WqPrepare;
    InvParts(s);
    NextKeeps(s, SleepFor(0));
    SleepMayBlock(s, 0);
    CurrentFree(s);
    BlockIs(SleepMark(s, 0), Sleep, c);
    assert Next(s, SleepFor(0)) == s';
  }

  lemma InvParts(s: Sys)
    requires Inv(s)
    ensures Safe(s) && Core(s) && TreeOk(s)
  {
  }

  /** Exit of a childless task that nobody waits for, with nobody ready: the idle task takes over. */
  lemma ExitIs(s: Sys, p: Tid, s': Sys)
    requires Inv(s) && Enabled(s, Exit(0)) && s.ready == [] && s.tasks[s.cur].children == [] && s.idle in s.tasks
    requires s.tasks[s.cur].parent == Some(p) && Q(s, Children(p)) == []
    requires s' == s.(tasks := s'.tasks, cur := s.idle)
    requires s'.tasks == s.tasks[s.cur := s.tasks[s.cur].(state := Zombie, exitCode := 0)]
                                [s.idle := s.tasks[s.idle].(state := Running, quantum := DEFAULT_QUANTUM)]
    ensures Leads(s, Exit(0), s')
  {
    hide Inv, Core, TreeOk, Safe, SameTree, WokenOnly, ExitMark, ExitWake;
    InvParts(s);
    NextKeeps(s, Exit(0));
    ExitWakes(s, 0);
    var m := ExitWake(s, 0);
    ExitWakeIs(s, p);
    CoreShape(m);
    ScheduleIdle(m);
  }

  lemma ScheduleIdle(m: Sys)
    requires Core(m) && m.ready == [] && m.tasks[m.cur].state == Zombie && m.cur != m.idle
    ensures Schedule(m) == m.(tasks := m.tasks[m.idle := m.tasks[m.idle].(state := Running, quantum := DEFAULT_QUANTUM)],
                              cur := m.idle)
  {
    hide QueuesOk, TasksOk;
  }

  lemma ExitWakeIs(s: Sys, p: Tid)
    requires MayExit(s) && s.tasks[s.cur].children == [] && s.tasks[s.cur].parent == Some(p) && Q(s, Children(p)) == []
    ensures ExitWake(s, 0) == s.(tasks := s.tasks[s.cur := s.tasks[s.cur].(state := Zombie, exitCode := 0)])
  {
    hide Inv, Core, TreeOk, Safe, ExitMarked;
    InvParts(s);
    var a := SetExitCode(s, 0);
    TreeFrame(s, a);
    assert Reparent(a, s.cur) == a;
    ExitMarkFacts(s, 0);
    ExitWakeShape(s, 0);
    assert Q(ExitMark(s, 0), ParentQueue(s)) == [];
  }

  /** A tick on the idle task that wakes the one sleeper. */
  lemma TickIs(s: Sys, c: Tid, s': Sys)
    requires Inv(s) && s.cur == s.idle && s.ready == [] && Sleep in s.queues && s.queues[Sleep] == [c]
    requires c in s.tasks && s.tasks[c].on == Some(Sleep) && s.tasks[c].wakeAt <= s.ticks + 1 && c != s.cur
    requires s' == s.(tasks := s'.tasks, queues := s.queues[Sleep := []], cur := c, ticks := s.ticks + 1)
    requires s'.tasks == s.tasks[c := s.tasks[c].(state := Running, on := None, quantum := DEFAULT_QUANTUM)]
    ensures Leads(s, Tick, s')
  {
    hide Inv, Core, TreeOk, Safe, SameTree, WokenExactly, WakeSleepers, Schedule;
    InvParts(s);
    CoreShape(s);
    NextKeeps(s, Tick);
    TickWakes(s);
    var s2 := WakeSleepers(s.(ticks := s.ticks + 1));
    WakeOne(s, c);
    CoreShape(s2);
    ScheduleOne(s2, c);
    assert Next(s, Tick) == s';
  }

  lemma WakeOne(s: Sys, c: Tid)
    requires QueuesOk(s.(ticks := s.ticks + 1)) && s.ready == [] && Sleep in s.queues && s.queues[Sleep] == [c]
    requires c in s.tasks && s.tasks[c].on == Some(Sleep) && s.tasks[c].wakeAt <= s.ticks + 1
    ensures WakeSleepers(s.(ticks := s.ticks + 1)) ==
            s.(tasks := s.tasks[c := s.tasks[c].(state := Running, on := None)], queues := s.queues[Sleep := []],
               ready := [c], ticks := s.ticks + 1)
  {
    hide QueuesOk;
    var s1 := s.(ticks := s.ticks + 1);
    assert Remove([c], c) == [] && Q(s1, Sleep) == [c] && [c][1..] == [];
    assert WakeExpired(s1, [c]) == WakeExpired(WqFinish(s1, c), []);
  }

  lemma ScheduleOne(m: Sys, c: Tid)
    requires Core(m) && m.cur == m.idle && m.ready == [c] && c in m.tasks && m.tasks[c].state == Running
    ensures Schedule(m) == m.(tasks := m.tasks[c := m.tasks[c].(quantum := DEFAULT_QUANTUM)], ready := [], cur := c)
  {
    hide QueuesOk, TasksOk;
  }

  lemma SleepEndIs(s: Sys, s': Sys)
    requires Inv(s) && Enabled(s, SleepReturn) && s' == s.(tasks := s'.tasks)
    requires s'.tasks == s.tasks[s.cur := s.tasks[s.cur].(resume := User, wakeAt := 0)]
    ensures Leads(s, SleepReturn, s')
  {
    hide Inv;
    NextKeeps(s, SleepReturn);
  }

  lemma Step1()
    ensures Leads(Boot(0, 1), Fork(2), State1())
  {
    hide Inv, Leads;
    var s, s' := Boot(0, 1), State1();
    BootInv(0, 1);
    assert [2] + s.tasks[1].children == [2];
    ForkIs(s, 2, s');
  }

  lemma Step2()
    ensures Leads(State1(), Waitpid(-1, false), State2())
  {
    hide Inv, Leads;
    var s, s' := State1(), State2();
    Step1();
    LeadsTo(Boot(0, 1), Fork(2), s);
    WaitIs(s, 2, s');
  }

  lemma Step3()
    ensures Leads(State2(), Fork(3), State3())
  {
    hide Inv, Leads;
    var s, s' := State2(), State3();
    Step2();
    LeadsTo(State1(), Waitpid(-1, false), s);
    assert [3] + s.tasks[2].children == [3];
    ForkIs(s, 3, s');
  }

  lemma Step4()
    ensures Leads(State3(), Waitpid(-1, false), State4())
  {
    hide Inv, Leads;
    var s, s' := State3(), State4();
    Step3();
    LeadsTo(State2(), Fork(3), s);
    WaitIs(s, 3, s');
  }

  lemma Step5()
    ensures Leads(State4(), Fork(4), State5())
  {
    hide Inv, Leads;
    var s, s' := State4(), State5();
    Step4();
    LeadsTo(State3(), Waitpid(-1, false), s);
    assert [4] + s.tasks[3].children == [4];
    ForkIs(s, 4, s');
  }

  lemma Step6()
    ensures Leads(State5(), SleepFor(0), State6())
  {
    hide Inv, Leads;
    var s, s' := State5(), State6();
    Step5();
    LeadsTo(State4(), Fork(4), s);
    SleepIs(s, 4, s');
  }

  lemma Step7()
    ensures Leads(State6(), Exit(0), State7())
  {
    hide Inv, Leads;
    var s, s' := State6(), State7();
    Step6();
    LeadsTo(State5(), SleepFor(0), s);
    ExitIs(s, 3, s');
  }

  lemma Step8()
    ensures Leads(State7(), Tick, State8())
  {
    hide Inv, Leads;
    var s, s' := State7(), State8();
    Step7();
    LeadsTo(State6(), Exit(0), s);
    TickIs(s, 3, s');
  }

  lemma Step9()
    ensures Leads(State8(), SleepReturn, State9())
  {
    hide Inv, Leads;
    var s, s' := State8(), State9();
    Step8();
    LeadsTo(State7(), Tick, s);
    SleepEndIs(s, s');
  }

  /** The last step: task 3 exits. */
  lemma LastExit(s: Sys) returns (s': Sys)
    requires Inv(s) && Enabled(s, Exit(0)) && !LostWakeup(s, s.init) && OrphansZombie(s)
    ensures Leads(s, Exit(0), s') && LostWakeup(s', s.init)
  {
    hide Inv, LostWakeup, OrphansZombie, ExitStep;
    s' := Next(s, Exit(0));
    NextKeeps(s, Exit(0));
    ExitMissesKitoxd(s, 0);
  }

  lemma Orphaning()
    ensures !LostWakeup(State9(), 1) && OrphansZombie(State9())
  {
    var s := State9();
    assert s.tasks[1].children == [2] && s.tasks[2].state == Waiting && s.tasks[3].children == [4];
    assert 4 in s.tasks[3].children && Match(-1, s.tasks[4]);
  }

  lemma LeadsRun(ss: seq<Sys>, es: seq<Event>)
    requires |ss| == |es| + 1 && forall i :: 0 <= i < |es| ==> Leads(ss[i], es[i], ss[i + 1])
    ensures Run(ss, es)
  {
    hide Inv, Enabled;
    forall i | 0 <= i < |es| ensures Enabled(ss[i], es[i]) && (Inv(ss[i]) ==> ss[i + 1] == Next(ss[i], es[i])) {
      assert Leads(ss[i], es[i], ss[i + 1]);
    }
  }

  /** A run from boot after which kitoxD sits in `waitpid` although a child of it is a zombie. */
  lemma KitoxdMissesZombie() returns (ss: seq<Sys>)
    ensures Run(ss, Story) && ss[0] == Boot(0, 1) && LostWakeup(ss[|Story|], ss[0].init)
  {
    hide Leads, LostWakeup, OrphansZombie, Inv, Run, Boot;
    hide State1, State2, State3, State4, State5, State6, State7, State8;
    Step1();
    Step2();
    Step3();
    Step4();
    Step5();
    Step6();
    Step7();
    Step8();
    Step9();
    LeadsTo(State8(), SleepReturn, State9());
    Orphaning();
    var last := LastExit(State9());
    ss := [Boot(0, 1), State1(), State2(), State3(), State4(), State5(), State6(), State7(), State8(), State9(), last];
    LeadsRun(ss, Story);
    BootInit();
  }

  lemma BootInit()
    ensures Boot(0, 1).init == 1
  {
  }
}
