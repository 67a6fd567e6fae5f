/** How long a task sleeps: over whole runs it is back among the runnable tasks at the tick it asked for,
    if and only if that tick fits in the 32-bit counter. */
module SleepRuns {
  import opened Lists
  import opened Ids
  import opened Scheduling
  import opened Processes
  import opened ProcessSteps
  import opened ProcessRuns

  const TWO32: nat := 0x1_0000_0000

  ghost predicate Asleep(s: Sys, t: Tid, w: nat) {
    t in s.tasks && s.tasks[t].on == Some(Sleep) && s.tasks[t].wakeAt == w
  }

  ghost predicate Awake(s: Sys, t: Tid) {
    && t in s.tasks && s.tasks[t].state == Running && s.tasks[t].on.None?
    && (t in s.ready || t == s.cur)
  }

  // ---------------------------------------------------------------- who wakes when

  /** A task that waits is not touched by a change of the running task. */
  lemma ScheduleSleeper(s: Sys, t: Tid)
    requires Core(s) && t in s.tasks && s.tasks[t].on.Some?
    ensures s.cur in s.tasks && s.idle in s.tasks && forall u :: u in s.ready ==> u in s.tasks
    ensures t in Schedule(s).tasks && Schedule(s).tasks[t] == s.tasks[t] && Schedule(s).ticks == s.ticks
  {
    hide NoDup, QueuesOk;
    CoreTask(s, t);
    assert TaskOk(s, t, s.tasks[t]) && TaskOk(s, s.idle, s.tasks[s.idle]);
    ScheduleEffect(s);
  }

  lemma SleeperIsNotCurrent(s: Sys, t: Tid, w: nat)
    requires Safe(s) && Asleep(s, t, w)
    ensures t != s.cur && t != s.idle && t in Q(s, Sleep) && s.tasks[t].state == Waiting
  {
    hide NoDup;
    assert TaskOk(s, t, s.tasks[t]) && TaskOk(s, s.idle, s.tasks[s.idle]) && TaskOk(s, s.cur, s.tasks[s.cur]);
  }

  lemma BlockSleeper(s: Sys, q: Queue, t: Tid, w: nat)
    requires MayBlock(s, q) && Asleep(s, t, w) && t != s.cur
    ensures Asleep(Block(s, q), t, w) && Block(s, q).ticks == s.ticks
  {
    hide Core, SameTree;
    CoreShape(s);
    PrepareCore(s, q);
    ScheduleSleeper(WqPrepare(s, q, s.cur), t);
  }

  lemma BlockClock(s: Sys, q: Queue)
    requires MayBlock(s, q)
    ensures Block(s, q).ticks == s.ticks
  {
    hide Core, SameTree;
    CoreShape(s);
    PrepareCore(s, q);
    ScheduleClock(WqPrepare(s, q, s.cur));
  }

  lemma ScheduleClock(s: Sys)
    requires Core(s)
    ensures s.cur in s.tasks && s.idle in s.tasks && forall u :: u in s.ready ==> u in s.tasks
    ensures Schedule(s).ticks == s.ticks
  {
    hide QueuesOk, TasksOk;
  }

  lemma TickSleeper(s: Sys, t: Tid, w: nat)
    requires Inv(s) && Asleep(s, t, w)
    ensures TickStep(s).ticks == s.ticks + 1
    ensures if w <= s.ticks + 1 then Awake(TickStep(s), t) else Asleep(TickStep(s), t, w)
  {
    hide Core, TreeOk, PidsOk, NoLostWakeup, WakeSleepers, SameTree, Schedule;
    SleeperIsNotCurrent(s, t, w);
    TickKeeps(s);
    TickWakes(s);
    CoreShape(s);
    var s1 := WakeSleepers(s.(ticks := s.ticks + 1));
    var s2 := Charge(s1);
    ChargeCore(s1);
    CoreShape(s2);
    ScheduleClock(s2);
    if w <= s.ticks + 1 {
      TickAwake(s, s1, s2, TickStep(s), t);
    } else {
      ScheduleSleeper(s2, t);
    }
  }

  lemma TickAwake(s: Sys, s1: Sys, s2: Sys, s': Sys, t: Tid)
    requires Inv(s) && SameTree(s, s1) && SameTree(s1, s2) && Core(s2)
    requires t in s1.tasks && s1.tasks[t].on.None? && t in s.tasks && s.tasks[t].state == Waiting
    requires Inv(s') && (s' == s2 || s' == Schedule(s2))
    ensures Awake(s', t)
  {
    hide Inv, Core, Schedule, SameTree, Awake;
    CoreShape(s2);
    ScheduleSafe(s2);
    SameTreeTrans(s1, s2, Schedule(s2));
    StillFree(s, s1, s2, t);
    StillFree(s, s1, Schedule(s2), t);
    AwakeOtherwise(s, s', t);
  }

  lemma StillFree(s: Sys, s1: Sys, s2: Sys, t: Tid)
    requires SameTree(s, s1) && SameTree(s1, s2) && t in s.tasks && s.tasks[t].state == Waiting && s1.tasks[t].on.None?
    ensures t in s2.tasks && s2.tasks[t].on.None? && s2.tasks[t].state != Zombie && s2.idle == s.idle
  {
  }

  /** A task that waits for nothing, is no zombie and not the idle task is runnable. */
  lemma AwakeOtherwise(s: Sys, s': Sys, t: Tid)
    requires Inv(s) && Inv(s') && s'.idle == s.idle && t in s.tasks && s.tasks[t].state == Waiting
    requires t in s'.tasks && s'.tasks[t].on.None? && s'.tasks[t].state != Zombie
    ensures Awake(s', t)
  {
    hide NoDup, QueuesOk, TreeOk, PidsOk, NoLostWakeup;
    assert TaskOk(s, s.idle, s.tasks[s.idle]) && TaskOk(s', t, s'.tasks[t]);
  }

  lemma ExitSleeper(s: Sys, status: int, t: Tid, w: nat)
    requires MayExit(s) && Asleep(s, t, w)
    ensures Asleep(ExitStep(s, status), t, w) && ExitStep(s, status).ticks == s.ticks
  {
    hide Core, TreeOk, PidsOk, NoLostWakeup, SameTree, ExitMark, ExitWake, Schedule, LostWakeup;
    SleeperIsNotCurrent(s, t, w);
    ExitMarkFacts(s, status);
    ExitWakes(s, status);
    ExitKeeps(s, status);
    var s1, s2 := ExitMark(s, status), ExitWake(s, status);
    SleepersElsewhere(s1, ParentQueue(s), t, w);
    ScheduleSleeper(s2, t);
  }

  lemma SleepersElsewhere(s: Sys, q: Queue, t: Tid, w: nat)
    requires Core(s) && Asleep(s, t, w) && q != Sleep
    ensures t !in Q(s, q)
  {
    hide NoDup, ReadyOk, TasksOk, Q;
  }

  lemma ExitClock(s: Sys, status: int)
    requires MayExit(s)
    ensures ExitStep(s, status).ticks == s.ticks
  {
    hide Core, TreeOk, PidsOk, NoLostWakeup, SameTree, ExitMark, ExitWake, Schedule, LostWakeup;
    ExitMarkFacts(s, status);
    ExitWakes(s, status);
    ExitKeeps(s, status);
    ScheduleClock(ExitWake(s, status));
  }

  lemma WaitSleeper(s: Sys, pid: int, fault: bool, t: Tid, w: nat)
    requires MayWait(s) && Asleep(s, t, w)
    ensures Asleep(WaitStep(s, pid, fault).0, t, w) && WaitStep(s, pid, fault).0.ticks == s.ticks
  {
    hide PidsOk, NoLostWakeup, TreeOk, Block, Core;
    SleeperIsNotCurrent(s, t, w);
    var l := s.tasks[s.cur].children;
    FindZombieFacts(s, l, pid);
    match FindZombie(s, l, pid)
    case Some(x) =>
      ZombieChild(s, x);
    case None =>
      WaitMayBlock(s, pid);
      BlockSleeper(SetResume(s, InWaitpid(pid)), Children(s.cur), t, w);
  }

  lemma WaitClock(s: Sys, pid: int, fault: bool)
    requires MayWait(s)
    ensures WaitStep(s, pid, fault).0.ticks == s.ticks
  {
    hide PidsOk, NoLostWakeup, TreeOk, Block, Core;
    var l := s.tasks[s.cur].children;
    FindZombieFacts(s, l, pid);
    match FindZombie(s, l, pid)
    case Some(x) =>
      ZombieChild(s, x);
    case None =>
      WaitMayBlock(s, pid);
      BlockClock(SetResume(s, InWaitpid(pid)), Children(s.cur));
  }

  lemma ForkSleeper(s: Sys, parent: Tid, c: Tid, forked: bool, t: Tid, w: nat)
    requires MayFork(s, parent, c) && Asleep(s, t, w)
    ensures Asleep(AddChild(s, parent, c, forked), t, w)
  {
    hide Inv;
    if LeastClear(s.pids, 0, PID_MAX) >= 0 { AddChildEffect(s, parent, c, forked); }
  }

  lemma ForkClock(s: Sys, parent: Tid, c: Tid, forked: bool)
    requires MayFork(s, parent, c)
    ensures AddChild(s, parent, c, forked).ticks == s.ticks
  {
    hide Inv;
  }

  lemma NapSleeper(s: Sys, seconds: nat, t: Tid, w: nat)
    requires Inv(s) && s.cur != s.idle && Asleep(s, t, w)
    ensures Asleep(SleepStep(s, seconds), t, w)
  {
    hide Core, TreeOk, PidsOk, NoLostWakeup, Block;
    SleeperIsNotCurrent(s, t, w);
    SleepMayBlock(s, seconds);
    BlockSleeper(SleepMark(s, seconds), Sleep, t, w);
  }

  /** Falling asleep: the caller waits, with the wake-up time in 32-bit arithmetic. */
  lemma FallAsleep(s: Sys, seconds: nat)
    requires Inv(s) && s.cur != s.idle
    ensures Asleep(SleepStep(s, seconds), s.cur, WakeTime(s.ticks, seconds)) && SleepStep(s, seconds).ticks == s.ticks
  {
    hide Core, TreeOk, PidsOk, NoLostWakeup, SameTree;
    CoreShape(s);
    SleepMayBlock(s, seconds);
    var m := SleepMark(s, seconds);
    CoreShape(m);
    PrepareCore(m, Sleep);
    ScheduleSleeper(WqPrepare(m, Sleep, m.cur), s.cur);
  }

  lemma SignalSleeper(s: Sys, u: Tid, t: Tid, w: nat)
    requires Inv(s) && Asleep(s, t, w)
    ensures SignalStep(s, u).ticks == s.ticks
    ensures if u == t then Awake(SignalStep(s, u), t) else Asleep(SignalStep(s, u), t, w)
  {
    hide Core, TreeOk, PidsOk, NoLostWakeup;
    SleeperIsNotCurrent(s, t, w);
    SignalKeeps(s, u);
    if u in s.tasks {
      FinishOthers(s, u);
      if u == t { AwakeOtherwise(s, SignalStep(s, u), t); }
    }
  }

  // ---------------------------------------------------------------- steps and runs

  /** A sleeper leaves the sleep queue by a signal, or by the first tick that reaches its time; until
      then it stays there. */
  lemma SleeperStep(s: Sys, e: Event, t: Tid, w: nat)
    requires Inv(s) && Enabled(s, e) && Asleep(s, t, w)
    ensures if e == Signal(t) || (e.Tick? && w <= s.ticks + 1) then Awake(Next(s, e), t) else Asleep(Next(s, e), t, w)
  {
    hide Inv, Asleep, Awake;
    InvShape(s);
    match e
    case Tick => TickSleeper(s, t, w);
    case Fork(c) => ForkSleeper(s, s.cur, c, true, t, w);
    case Spawn(c) => ForkSleeper(s, s.init, c, false, t, w);
    case Exit(status) => ExitSleeper(s, status, t, w);
    case Waitpid(pid, fault) => WaitSleeper(s, pid, fault, t, w);
    case SleepFor(seconds) => NapSleeper(s, seconds, t, w);
    case SleepReturn => EndSleeper(s, t, w);
    case Signal(u) => SignalSleeper(s, u, t, w);
  }

  lemma EndSleeper(s: Sys, t: Tid, w: nat)
    requires Inv(s) && s.cur in s.tasks && Asleep(s, t, w)
    ensures Asleep(SleepEnd(s), t, w)
  {
    hide Core, TreeOk, PidsOk, NoLostWakeup;
    SleeperIsNotCurrent(s, t, w);
  }

  /** Only the timer moves the clock. */
  lemma Clock(s: Sys, e: Event)
    requires Inv(s) && Enabled(s, e)
    ensures Next(s, e).ticks == s.ticks + TickCost(e)
  {
    hide Inv;
    InvShape(s);
    match e
    case Tick => TickClock(s);
    case Fork(c) => ForkClock(s, s.cur, c, true);
    case Spawn(c) => ForkClock(s, s.init, c, false);
    case Exit(status) => ExitClock(s, status);
    case Waitpid(pid, fault) => WaitClock(s, pid, fault);
    case SleepFor(seconds) => FallAsleep(s, seconds);
    case SleepReturn =>
    case Signal(u) => if u in s.tasks { FinishOthers(s, u); }
  }

  lemma TickClock(s: Sys)
    requires Inv(s)
    ensures TickStep(s).ticks == s.ticks + 1
  {
    hide Core, TreeOk, PidsOk, NoLostWakeup, WakeSleepers, SameTree, Schedule;
    TickWakes(s);
    CoreShape(s);
    ScheduleClock(Charge(WakeSleepers(s.(ticks := s.ticks + 1))));
  }

  /** Ticks that a sleep asked for at tick `now` lasts. */
  function Due(now: nat, seconds: nat): nat {
    var w := WakeTime(now, seconds);
    if w <= now + 1 then 1 else w - now
  }

  /** The sleep lasts as long as asked for (at least one tick) if and only if its end fits in the 32-bit
      counter. */
  lemma DueIff(now: nat, seconds: nat)
    requires now < TWO32
    ensures Due(now, seconds) == (if seconds == 0 then 1 else TICKS_PER_SECOND * seconds) <==>
            now + TICKS_PER_SECOND * seconds < TWO32
  {
    var n := now + TICKS_PER_SECOND * seconds;
    if n < TWO32 { assert n % TWO32 == n; } else { assert n % TWO32 <= n - TWO32; }
  }

  /** `sleep(42949673)`, almost 500 days, is over after four ticks. */
  lemma LongSleepIsShort()
    ensures Due(0, 42949673) == 4
  {
  }

  /** In every run: a task that goes to sleep and is not signalled sleeps through fewer than `Due` ticks,
      and at the tick that makes them `Due` it is runnable again. */
  lemma {:induction false} SleepLasts(ss: seq<Sys>, es: seq<Event>, seconds: nat, j: nat)
    requires Run(ss, es) && Inv(ss[0]) && 0 < j <= |es| && es[0] == SleepFor(seconds)
    requires forall k :: 0 < k < j ==> es[k] != Signal(ss[0].cur)
    requires Ticks(es[..j - 1]) < Due(ss[0].ticks, seconds)
    ensures Ticks(es[..j]) <= Due(ss[0].ticks, seconds) && ss[j].ticks == ss[0].ticks + Ticks(es[..j])
    ensures var t, w := ss[0].cur, WakeTime(ss[0].ticks, seconds);
            if Ticks(es[..j]) < Due(ss[0].ticks, seconds) then Asleep(ss[j], t, w) else Awake(ss[j], t)
    decreases j
  {
    hide Inv, Enabled, Next, Asleep, Awake, WakeTime;
    var s0, t, w := ss[0], ss[0].cur, WakeTime(ss[0].ticks, seconds);
    RunSafe(ss, es, j - 1);
    assert es[..j] == es[..j - 1] + [es[j - 1]];
    TicksAppend(es[..j - 1], es[j - 1]);
    Clock(ss[j - 1], es[j - 1]);
    if j == 1 {
      SleepForIs(s0, seconds);
    } else {
      assert es[..j - 1] == es[..j - 2] + [es[j - 2]];
      TicksAppend(es[..j - 2], es[j - 2]);
      SleepLasts(ss, es, seconds, j - 1);
      SleeperStep(ss[j - 1], es[j - 1], t, w);
    }
  }

  lemma SleepForIs(s: Sys, seconds: nat)
    requires Inv(s) && Enabled(s, SleepFor(seconds))
    ensures Asleep(Next(s, SleepFor(seconds)), s.cur, WakeTime(s.ticks, seconds))
  {
    hide Inv;
    FallAsleep(s, seconds);
  }
}
