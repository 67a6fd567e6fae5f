/** Whole runs of the process core: safety, fairness of the ready queue, and the fate of zombies. */
module ProcessRuns {
  import opened Lists
  import opened Ids
  import opened Scheduling
  import opened Processes
  import opened ProcessSteps

  /** When the kernel can take the step: system calls come from the current task, which is not
      idle; exit is refused (by a panic) to kitoxD. */
  ghost predicate Enabled(s: Sys, e: Event) {
    && s.cur in s.tasks
    && match e
       case Tick => true
       case Signal(_) => true
       case Fork(t) => s.cur != s.idle && s.tasks[s.cur].resume == User && t !in s.tasks
       case Spawn(t) => t !in s.tasks
       case Exit(_) => s.cur != s.idle && s.cur != s.init
       case Waitpid(pid, _) => s.cur != s.idle && (s.tasks[s.cur].resume == User || s.tasks[s.cur].resume == InWaitpid(pid))
       case SleepFor(_) => s.cur != s.idle && s.tasks[s.cur].resume == User
       case SleepReturn => s.tasks[s.cur].resume == InSleep
  }

  lemma InvShape(s: Sys)
    requires Inv(s)
    ensures s.cur in s.tasks && s.idle in s.tasks && s.init in s.tasks
    ensures forall c :: c in s.tasks[s.cur].children ==> c in s.tasks
    ensures s.tasks[s.cur].state == Running && s.tasks[s.init].state != Zombie
    ensures s.idle != s.init
  {
  }

  function Next(s: Sys, e: Event): Sys
    requires Inv(s) && Enabled(s, e)
  {
    InvShape(s);
    match e
    case Tick => TickStep(s)
    case Fork(t) => AddChild(s, s.cur, t, true)
    case Spawn(t) => AddChild(s, s.init, t, false)
    case Exit(status) => ExitStep(s, status)
    case Waitpid(pid, fault) => WaitStep(s, pid, fault).0
    case SleepFor(seconds) => SleepStep(s, seconds)
    case SleepReturn => SleepEnd(s)
    case Signal(t) => SignalStep(s, t)
  }

  // ---------------------------------------------------------------- safety

  /** The current quantum is at least 1 before a tick, so the decrement does not underflow. */
  lemma ChargeSafe(s: Sys)
    requires Core(s) && s.tasks[s.cur].state == Running && s.cur != s.idle
    requires 1 <= s.tasks[s.cur].quantum <= DEFAULT_QUANTUM
    ensures Charge(s).tasks[s.cur].quantum == s.tasks[s.cur].quantum - 1
    ensures Charge(s).tasks[s.cur].quantum > 0 ==> Safe(Charge(s))
  {
    hide Core;
    CoreShape(s);
    ChargeCore(s);
  }

  lemma TickKeeps(s: Sys)
    requires Inv(s)
    ensures Inv(TickStep(s))
  {
    hide Core;
    hide TreeOk;
    hide PidsOk;
    hide NoLostWakeup;
    hide WakeSleepers;
    hide Charge;
    hide SameTree;
    hide WokenExactly;
    hide Schedule;
    TickWakes(s);
    CoreShape(s);
    var s1 := WakeSleepers(s.(ticks := s.ticks + 1));
    var s2 := Charge(s1);
    ChargeCore(s1);
    SameTreeTrans(s, s1, s2);
    TreeKept(s, s2);
    CoreShape(s2);
    if s1.cur != s1.idle { ChargeSafe(s1); }
    ScheduleSafe(s2);
    TreeKept(s2, Schedule(s2));
    SameIdle(s1, s2);
    SameIdle(s, s1);
  }

  lemma SameIdle(s: Sys, s': Sys)
    requires SameTree(s, s')
    ensures s'.idle == s.idle && s'.init == s.init
  {
  }

  lemma SleepKeeps(s: Sys, seconds: nat)
    requires Inv(s) && s.cur != s.idle
    ensures Inv(SleepStep(s, seconds))
  {
    hide Core;
    hide TreeOk;
    hide PidsOk;
    hide NoLostWakeup;
    SleepMayBlock(s, seconds);
    TreeKept(s, SleepMark(s, seconds));
    BlockKeeps(SleepMark(s, seconds), Sleep);
  }

  lemma SignalKeeps(s: Sys, t: Tid)
    requires Inv(s)
    ensures Inv(SignalStep(s, t))
  {
    hide Core;
    hide TreeOk;
    hide PidsOk;
    hide NoLostWakeup;
    if t in s.tasks {
      CoreShape(s);
      CoreTask(s, s.cur);
      WqFinishCore(s, t);
      TreeKept(s, WqFinish(s, t));
    }
  }

  /** Every step keeps every invariant: queue discipline, the process tree, pids, wake-ups, and the
      absence of panics. */
  lemma NextKeeps(s: Sys, e: Event)
    requires Inv(s) && Enabled(s, e)
    ensures Inv(Next(s, e))
  {
    hide Inv;
    InvShape(s);
    match e
    case Tick => TickKeeps(s);
    case Fork(t) => ForkKeeps(s, s.cur, t, true);
    case Spawn(t) => ForkKeeps(s, s.init, t, false);
    case Exit(status) => ExitKeeps(s, status);
    case Waitpid(pid, fault) => WaitKeeps(s, pid, fault);
    case SleepFor(seconds) => SleepKeeps(s, seconds);
    case SleepReturn => SleepEndKeeps(s);
    case Signal(t) => SignalKeeps(s, t);
  }

  /** A run: each state follows from the one before by an enabled step. A step is only defined from
      a coherent state; the definition leaves it open otherwise, and `RunSafe` closes that gap. */
  ghost predicate Run(ss: seq<Sys>, es: seq<Event>) {
    && |ss| == |es| + 1
    && forall i :: 0 <= i < |es| ==>
         Enabled(ss[i], es[i]) && (Inv(ss[i]) ==> ss[i + 1] == Next(ss[i], es[i]))
  }

  /** Every state of every run is coherent, and none has panicked. */
  lemma {:induction false} RunSafe(ss: seq<Sys>, es: seq<Event>, i: nat)
    requires Run(ss, es) && Inv(ss[0]) && i <= |es|
    ensures Inv(ss[i]) && !ss[i].panic
  {
    hide Enabled;
    hide Inv;
    hide Next;
    if i > 0 {
      RunSafe(ss, es, i - 1);
      NextKeeps(ss[i - 1], es[i - 1]);
    }
    NoPanic(ss[i]);
  }

  lemma NoPanic(s: Sys)
    requires Inv(s)
    ensures !s.panic
  {
  }

  /** The state after the first dispatch, with the idle task and kitoxD. */
  function Boot(idle: Tid, init: Tid): Sys
    requires idle != init
  {
    Sys(map[idle := Task(0, New, None, [], None, User, 0, 0, 0),
            init := Task(1, Running, None, [], None, User, DEFAULT_QUANTUM, 0, 0)],
        [], map[], init, idle, init, 0, {0, 1}, false)
  }

  lemma BootInv(idle: Tid, init: Tid)
    requires idle != init
    ensures Inv(Boot(idle, init))
  {
    hide NoDup;
    EmptyNoDup<Tid>();
    BootPids(idle, init);
    hide PidsOk;
    assert forall q :: Q(Boot(idle, init), q) == [];
  }

  lemma BootPids(idle: Tid, init: Tid)
    requires idle != init
    ensures PidsOk(Boot(idle, init))
  {
    var s := Boot(idle, init);
    assert s.tasks[idle].pid == 0 && s.tasks[init].pid == 1;
    assert s.pids == set t | t in s.tasks :: s.tasks[t].pid by {
      assert idle in s.tasks && init in s.tasks;
    }
  }

  // ---------------------------------------------------------------- bounded waiting

  /** Timer ticks after which the task at index `k` of the ready queue must have run: what is left
      of the current quantum, and a full quantum for each task ahead. */
  ghost function Bound(s: Sys, k: nat): int
    requires s.cur in s.tasks
  {
    (if s.cur == s.idle then 1 else s.tasks[s.cur].quantum) + DEFAULT_QUANTUM * k
  }

  ghost function TickCost(e: Event): nat {
    if e.Tick? then 1 else 0
  }

  /** Task `t` runs, or waits at some index with a bound of at most `n`. */
  ghost predicate Closer(s: Sys, t: Tid, n: int) {
    s.cur == t || (s.cur in s.tasks && exists k :: 0 <= k < |s.ready| && s.ready[k] == t && Bound(s, k) <= n)
  }

  /** Handing over to the next task moves everyone in the ready queue one place ahead. */
  lemma ScheduleCloser(s: Sys, m: Sys, k: nat)
    requires Core(m) && k < |s.ready| && s.ready <= m.ready
    ensures Closer(Schedule(m), s.ready[k], DEFAULT_QUANTUM * k)
  {
    hide NoDup;
    hide QueuesOk;
    hide TasksOk;
    ScheduleEffect(m);
    var r, m' := Contenders(m), Schedule(m);
    assert r[k] == s.ready[k];
    if k > 0 {
      assert m'.ready[k - 1] == s.ready[k];
      assert Bound(m', k - 1) == DEFAULT_QUANTUM * k;
    }
  }

  lemma StayCloser(s: Sys, s': Sys, k: nat, n: int)
    requires s.cur in s.tasks && k < |s.ready| && s.ready <= s'.ready && s'.cur == s.cur
    requires s'.idle == s.idle && s.cur in s'.tasks
    requires Bound(s', k) <= n
    ensures Closer(s', s.ready[k], n)
  {
  }

  lemma SafeQuantum(s: Sys)
    requires Inv(s)
    ensures s.cur in s.tasks && Core(s) && (s.cur != s.idle ==> 1 <= s.tasks[s.cur].quantum <= DEFAULT_QUANTUM)
  {
  }

  lemma ChargeReady(s: Sys)
    requires s.cur in s.tasks
    ensures Charge(s).ready == s.ready && Charge(s).cur == s.cur
  {
  }

  lemma TickCloser(s: Sys, k: nat)
    requires Inv(s) && k < |s.ready|
    ensures s.cur in s.tasks && Closer(TickStep(s), s.ready[k], Bound(s, k) - 1)
  {
    hide Core;
    hide TreeOk;
    hide PidsOk;
    hide NoLostWakeup;
    hide WakeSleepers;
    hide Charge;
    hide Schedule;
    hide SameTree;
    hide Closer;
    SafeQuantum(s);
    TickWakes(s);
    var s1 := WakeSleepers(s.(ticks := s.ticks + 1));
    var s2 := Charge(s1);
    CoreShape(s2);
    ChargeReady(s1);
    ChargeCore(s1);
    SameIdle(s, s1);
    SameIdle(s1, s2);
    if s1.cur != s1.idle { ChargeSafe(s1); }
    if s2.cur != s2.idle && s2.tasks[s2.cur].quantum > 0 {
      StayCloser(s, s2, k, Bound(s, k) - 1);
    } else {
      ScheduleCloser(s, s2, k);
      CloserMore(Schedule(s2), s.ready[k], DEFAULT_QUANTUM * k, Bound(s, k) - 1);
    }
  }

  lemma CloserMore(s: Sys, t: Tid, n: int, n': int)
    requires Closer(s, t, n) && n <= n'
    ensures Closer(s, t, n')
  {
  }

  lemma BlockCloser(s: Sys, m: Sys, q: Queue, k: nat)
    requires MayBlock(m, q) && k < |s.ready| && s.ready == m.ready
    ensures Closer(Block(m, q), s.ready[k], DEFAULT_QUANTUM * k)
  {
    hide Core;
    hide WqPrepare;
    CoreShape(m);
    PrepareCore(m, q);
    ScheduleCloser(s, WqPrepare(m, q, m.cur), k);
  }

  lemma WaitCloser(s: Sys, pid: int, fault: bool, k: nat)
    requires MayWait(s) && k < |s.ready|
    ensures Closer(WaitStep(s, pid, fault).0, s.ready[k], Bound(s, k))
  {
    hide Inv;
    hide Core;
    hide Closer;
    hide Block;
    SafeQuantum(s);
    SetResumeKeeps(s, User);
    StayCloser(s, SetResume(s, User), k, Bound(s, k));
    var l := s.tasks[s.cur].children;
    FindZombieFacts(s, l, pid);
    match FindZombie(s, l, pid)
    case Some(z) =>
      ReapKeeps(s, z);
      StayCloser(s, SetResume(Release(s, z), User), k, Bound(s, k));
    case None =>
      WaitMayBlock(s, pid);
      var m := SetResume(s, InWaitpid(pid));
      BlockCloser(s, m, Children(s.cur), k);
      CloserMore(Block(m, Children(s.cur)), s.ready[k], DEFAULT_QUANTUM * k, Bound(s, k));
  }

  lemma ExitCloser(s: Sys, status: int, k: nat)
    requires MayExit(s) && k < |s.ready|
    ensures Closer(ExitStep(s, status), s.ready[k], DEFAULT_QUANTUM * k)
  {
    hide Inv;
    hide Core;
    hide ExitWake;
    ExitWakes(s, status);
    ExitKeeps(s, status);
    CoreShape(ExitWake(s, status));
    ScheduleCloser(s, ExitWake(s, status), k);
  }

  /** One step: a ready task is never overtaken. It runs, or its bound has not grown, and each tick
      has lowered it. */
  lemma NextCloser(s: Sys, e: Event, k: nat)
    requires Inv(s) && Enabled(s, e) && k < |s.ready|
    ensures Closer(Next(s, e), s.ready[k], Bound(s, k) - TickCost(e))
  {
    hide Inv;
    hide Core;
    InvShape(s);
    SafeQuantum(s);
    var n := Bound(s, k);
    match e
    case Tick => TickCloser(s, k);
    case Fork(t) => ForkKeeps(s, s.cur, t, true); StayCloser(s, AddChild(s, s.cur, t, true), k, n);
    case Spawn(t) => ForkKeeps(s, s.init, t, false); StayCloser(s, AddChild(s, s.init, t, false), k, n);
    case Exit(status) => ExitCloser(s, status, k);
    case Waitpid(pid, fault) => WaitCloser(s, pid, fault, k);
    case SleepFor(seconds) => SleepCloser(s, seconds, k);
    case SleepReturn => SleepEndKeeps(s); StayCloser(s, SleepEnd(s), k, n);
    case Signal(t) => SignalCloser(s, t, k);
  }

  lemma SleepCloser(s: Sys, seconds: nat, k: nat)
    requires Inv(s) && s.cur != s.idle && k < |s.ready|
    ensures Closer(SleepStep(s, seconds), s.ready[k], DEFAULT_QUANTUM * k)
  {
    hide Core;
    hide TreeOk;
    hide PidsOk;
    hide NoLostWakeup;
    SleepMayBlock(s, seconds);
    BlockCloser(s, SleepMark(s, seconds), Sleep, k);
  }

  lemma SignalCloser(s: Sys, t: Tid, k: nat)
    requires Inv(s) && k < |s.ready| && s.cur in s.tasks
    ensures Closer(SignalStep(s, t), s.ready[k], Bound(s, k))
  {
    hide Core;
    hide TreeOk;
    hide PidsOk;
    hide NoLostWakeup;
    if t in s.tasks {
      CoreTask(s, s.cur);
      WqFinishCore(s, t);
    }
    StayCloser(s, SignalStep(s, t), k, Bound(s, k));
  }

  ghost function Ticks(es: seq<Event>): nat {
    if es == [] then 0 else TickCost(es[0]) + Ticks(es[1..])
  }

  lemma {:induction false} TicksAppend(es: seq<Event>, e: Event)
    ensures Ticks(es + [e]) == Ticks(es) + TickCost(e)
  {
    if es == [] {
      assert es + [e] == [e] && [e][1..] == [];
    } else {
      assert (es + [e])[1..] == es[1..] + [e];
      TicksAppend(es[1..], e);
    }
  }

  /** Bounded waiting: in any run with at least `Bound` ticks, the task at index `k` gets to run,
      whatever exits, waits, wake-ups, signals and forks intervene. */
  lemma {:induction false} BoundedWaiting(ss: seq<Sys>, es: seq<Event>, k: nat)
    requires Run(ss, es) && Inv(ss[0]) && k < |ss[0].ready| && ss[0].cur in ss[0].tasks
    requires Ticks(es) >= Bound(ss[0], k)
    ensures exists i :: 0 <= i < |ss| && ss[i].cur == ss[0].ready[k]
    decreases |es|
  {
    hide Inv;
    hide Enabled;
    hide Core;
    var t := ss[0].ready[k];
    SafeQuantum(ss[0]);
    assert es != [];
    NextKeeps(ss[0], es[0]);
    NextCloser(ss[0], es[0], k);
    var s1 := ss[1];
    if s1.cur != t {
      var k' :| 0 <= k' < |s1.ready| && s1.ready[k'] == t && Bound(s1, k') <= Bound(ss[0], k) - TickCost(es[0]);
      BoundedWaiting(ss[1..], es[1..], k');
      var i :| 0 <= i < |ss[1..]| && ss[1..][i].cur == t;
      assert ss[i + 1].cur == t;
    }
  }

  // ---------------------------------------------------------------- the fate of zombies

  ghost predicate StillZombie(s: Sys, s': Sys, z: Tid) {
    && z in s.tasks && z in s'.tasks && s'.tasks[z].state == Zombie
    && s'.tasks[z].pid == s.tasks[z].pid && s'.tasks[z].exitCode == s.tasks[z].exitCode
  }

  /** The current task reaped `z`: `waitpid` returned its pid and exit code, the pid is free again, and the
      task is gone. */
  ghost predicate Reaped(s: Sys, e: Event, s': Sys, z: Tid) {
    && MayWait(s) && e.Waitpid? && z in s.tasks[s.cur].children && Match(e.pid, s.tasks[z])
    && WaitStep(s, e.pid, e.fault).1 == Collected(s.tasks[z].pid, s.tasks[z].exitCode)
    && z !in s'.tasks && s.tasks[z].pid !in s'.pids
  }

  lemma TreeZombie(s: Sys, s': Sys, z: Tid)
    requires SameTree(s, s') && z in s.tasks && s.tasks[z].state == Zombie
    ensures StillZombie(s, s', z)
  {
  }

  lemma BlockZombie(s: Sys, q: Queue, z: Tid)
    requires MayBlock(s, q) && z in s.tasks && s.tasks[z].state == Zombie
    ensures StillZombie(s, Block(s, q), z)
  {
    hide Core;
    hide SameTree;
    CoreShape(s);
    PrepareCore(s, q);
    var s1 := WqPrepare(s, q, s.cur);
    CoreShape(s1);
    ScheduleSafe(s1);
    TreeZombie(s1, Schedule(s1), z);
  }

  lemma WaitZombie(s: Sys, pid: int, fault: bool, z: Tid)
    requires MayWait(s) && z in s.tasks && s.tasks[z].state == Zombie
    ensures var s' := WaitStep(s, pid, fault).0;
            StillZombie(s, s', z) || Reaped(s, Waitpid(pid, fault), s', z)
  {
    hide Safe;
    hide PidsOk;
    hide NoLostWakeup;
    hide TreeOk;
    hide Block;
    SafeNotZombie(s, z);
    var l := s.tasks[s.cur].children;
    FindZombieFacts(s, l, pid);
    match FindZombie(s, l, pid)
    case Some(x) =>
      ReapKeeps(s, x);
      PidFreed(s, x);
    case None =>
      WaitMayBlock(s, pid);
      BlockZombie(SetResume(s, InWaitpid(pid)), Children(s.cur), z);
  }

  lemma SafeNotZombie(s: Sys, z: Tid)
    requires Inv(s) && z in s.tasks && s.tasks[z].state == Zombie
    ensures z != s.cur && z != s.init && z != s.idle
  {
  }

  lemma PidFreed(s: Sys, x: Tid)
    requires s.cur in s.tasks && x in s.tasks && s.tasks[x].parent == Some(s.cur)
    ensures s.tasks[x].pid !in Release(s, x).pids && x !in Release(s, x).tasks
    ensures forall z :: z in s.tasks && z != x && z != s.cur ==>
              z in Release(s, x).tasks && Release(s, x).tasks[z] == s.tasks[z]
  {
  }

  /** A zombie stays a zombie, with its pid and exit code, until its parent's `waitpid` returns its
      pid; that step removes it, so it is reaped at most once. */
  lemma ZombieFate(s: Sys, e: Event, z: Tid)
    requires Inv(s) && Enabled(s, e) && z in s.tasks && s.tasks[z].state == Zombie
    ensures StillZombie(s, Next(s, e), z) || Reaped(s, e, Next(s, e), z)
  {
    hide Inv;
    hide Core;
    hide SameTree;
    hide StillZombie;
    InvShape(s);
    SafeNotZombie(s, z);
    match e
    case Tick => TickZombie(s, z);
    case Fork(t) => ForkZombie(s, s.cur, t, true, z);
    case Spawn(t) => ForkZombie(s, s.init, t, false, z);
    case Exit(status) => ExitZombie(s, status, z);
    case Waitpid(pid, fault) => WaitZombie(s, pid, fault, z);
    case SleepFor(seconds) => SleepZombie(s, seconds, z);
    case SleepReturn => ResumeZombie(s, z);
    case Signal(t) => SignalZombie(s, t, z);
  }

  lemma ResumeZombie(s: Sys, z: Tid)
    requires s.cur in s.tasks && z in s.tasks && s.tasks[z].state == Zombie && z != s.cur
    ensures StillZombie(s, SleepEnd(s), z)
  {
  }

  lemma SignalZombie(s: Sys, t: Tid, z: Tid)
    requires Inv(s) && z in s.tasks && s.tasks[z].state == Zombie
    ensures StillZombie(s, SignalStep(s, t), z)
  {
    hide Core;
    hide TreeOk;
    if t in s.tasks {
      CoreShape(s);
      CoreTask(s, s.cur);
      WqFinishCore(s, t);
      TreeZombie(s, WqFinish(s, t), z);
    }
  }

  lemma SleepZombie(s: Sys, seconds: nat, z: Tid)
    requires Inv(s) && s.cur != s.idle && z in s.tasks && s.tasks[z].state == Zombie
    ensures StillZombie(s, SleepStep(s, seconds), z)
  {
    hide Core;
    hide TreeOk;
    hide Block;
    SleepMayBlock(s, seconds);
    TreeZombie(s, SleepMark(s, seconds), z);
    BlockZombie(SleepMark(s, seconds), Sleep, z);
  }

  lemma TickZombie(s: Sys, z: Tid)
    requires Inv(s) && z in s.tasks && s.tasks[z].state == Zombie
    ensures StillZombie(s, TickStep(s), z)
  {
    hide Core;
    hide TreeOk;
    hide PidsOk;
    hide NoLostWakeup;
    hide WakeSleepers;
    hide Charge;
    hide Schedule;
    hide SameTree;
    TickWakes(s);
    CoreShape(s);
    var s1 := WakeSleepers(s.(ticks := s.ticks + 1));
    var s2 := Charge(s1);
    ChargeCore(s1);
    SameTreeTrans(s, s1, s2);
    CoreShape(s2);
    ScheduleSafe(s2);
    SameTreeTrans(s, s2, Schedule(s2));
    TreeZombie(s, s2, z);
    TreeZombie(s, Schedule(s2), z);
  }

  lemma ForkZombie(s: Sys, parent: Tid, t: Tid, forked: bool, z: Tid)
    requires MayFork(s, parent, t) && z in s.tasks && s.tasks[z].state == Zombie
    ensures StillZombie(s, AddChild(s, parent, t, forked), z)
  {
    hide Inv;
    if LeastClear(s.pids, 0, PID_MAX) >= 0 { AddChildEffect(s, parent, t, forked); }
  }

  lemma ExitZombie(s: Sys, status: int, z: Tid)
    requires MayExit(s) && z in s.tasks && s.tasks[z].state == Zombie
    ensures StillZombie(s, ExitStep(s, status), z)
  {
    hide Safe;
    hide PidsOk;
    hide NoLostWakeup;
    hide Core;
    hide TreeOk;
    hide SameTree;
    hide ExitMark;
    hide ExitWake;
    hide Schedule;
    SafeNotZombie(s, z);
    ExitMarkFacts(s, status);
    ExitWakes(s, status);
    ExitKeeps(s, status);
    var s1, s2 := ExitMark(s, status), ExitWake(s, status);
    CoreShape(s2);
    ScheduleSafe(s2);
    SameTreeTrans(s1, s2, Schedule(s2));
    TreeZombie(s1, Schedule(s2), z);
  }
}
