/** What the process core answers and does, in terms of the tasks alone: the result of `waitpid`, the status of
    an exit, who a signal wakes, and who has the processor after a tick. */
module Answers {
  import opened Lists
  import opened Ids
  import opened Scheduling
  import opened Processes
  import opened ProcessSteps
  import opened ProcessRuns

  // ---------------------------------------------------------------- waitpid

  ghost predicate BadPid(pid: int) {
    pid == 0 || pid < -1
  }

  /** The caller has nobody to wait for. */
  ghost predicate NoSuchChild(s: Sys, pid: int)
    requires s.cur in s.tasks
  {
    var l := s.tasks[s.cur].children;
    || (l == [] && s.cur != s.init)
    || (l != [] && pid > 0 && !exists c :: c in l && c in s.tasks && s.tasks[c].pid == pid)
  }

  /** Child `c` is a zombie that the call accepts. */
  ghost predicate Accepted(s: Sys, c: Tid, pid: int) {
    c in s.tasks && s.tasks[c].state == Zombie && (pid == -1 || s.tasks[c].pid == pid)
  }

  /** The answer of `waitpid(pid)`, and what it leaves. */
  ghost predicate Answer(s: Sys, pid: int, fault: bool, s': Sys, r: WaitResult)
    requires s.cur in s.tasks
  {
    var l := s.tasks[s.cur].children;
    if BadPid(pid) then r == Returned(-22) && s' == SetResume(s, User)
    else if NoSuchChild(s, pid) then r == Returned(-10) && s' == SetResume(s, User)
    else if !exists k :: 0 <= k < |l| && Accepted(s, l[k], pid) then
      && r == Blocked && s.cur in s'.tasks && s'.tasks[s.cur].state == Waiting
      && s'.tasks[s.cur].on == Some(Children(s.cur)) && s'.tasks[s.cur].resume == InWaitpid(pid)
    else if fault then r == Returned(-14) && s' == SetResume(s, User)
    else FirstCollected(s, l, pid, s', r)
  }

  /** The first accepted child is collected, and gone. */
  ghost predicate FirstCollected(s: Sys, l: seq<Tid>, pid: int, s': Sys, r: WaitResult) {
    exists k :: 0 <= k < |l| && Accepted(s, l[k], pid) && (forall j :: 0 <= j < k ==> !Accepted(s, l[j], pid))
                && r == Collected(s.tasks[l[k]].pid, s.tasks[l[k]].exitCode) && l[k] !in s'.tasks
  }

  lemma {:induction false} HasChildFacts(s: Sys, l: seq<Tid>, pid: int)
    requires forall c :: c in l ==> c in s.tasks
    ensures HasChildPid(s, l, pid) <==> exists c :: c in l && c in s.tasks && s.tasks[c].pid == pid
  {
    if l != [] {
      HasChildFacts(s, l[1..], pid);
      assert l[0] in l;
      assert forall c :: c in l <==> c == l[0] || c in l[1..];
    }
  }

  lemma {:induction false} FirstZombie(s: Sys, l: seq<Tid>, pid: int)
    requires forall c :: c in l ==> c in s.tasks
    ensures match FindZombie(s, l, pid)
            case None => forall k :: 0 <= k < |l| ==> !Accepted(s, l[k], pid)
            case Some(z) => exists k :: 0 <= k < |l| && l[k] == z && Accepted(s, l[k], pid)
                                        && forall j :: 0 <= j < k ==> !Accepted(s, l[j], pid)
  {
    if l != [] {
      assert l[0] in l;
      FirstZombie(s, l[1..], pid);
      match FindZombie(s, l[1..], pid) {
        case None => assert forall k :: 0 < k < |l| ==> l[k] == l[1..][k - 1];
        case Some(z) =>
          var k :| 0 <= k < |l[1..]| && l[1..][k] == z && Accepted(s, l[1..][k], pid)
                   && forall j :: 0 <= j < k ==> !Accepted(s, l[1..][j], pid);
          assert l[k + 1] == z;
          assert forall j :: 0 < j < k + 1 ==> l[j] == l[1..][j - 1];
      }
    }
  }

  /** `waitpid` gives exactly this answer, on every state and for every argument. */
  lemma WaitAnswers(s: Sys, pid: int, fault: bool)
    requires MayWait(s)
    ensures Answer(s, pid, fault, WaitStep(s, pid, fault).0, WaitStep(s, pid, fault).1)
  {
    hide Inv, Safe, TreeOk, PidsOk, NoLostWakeup, Block, FindZombie, HasChildPid, Accepted;
    var l := s.tasks[s.cur].children;
    InvShape(s);
    HasChildFacts(s, l, pid);
    FirstZombie(s, l, pid);
    FindZombieFacts(s, l, pid);
    match FindZombie(s, l, pid)
    case None =>
      WaitMayBlock(s, pid);
      BlockedTask(SetResume(s, InWaitpid(pid)), Children(s.cur));
    case Some(z) =>
      InvTree(s);
      ZombieChild(s, z);
      if !fault { assert z !in SetResume(Release(s, z), User).tasks; }
  }

  lemma InvTree(s: Sys)
    requires Inv(s)
    ensures TreeOk(s)
  {
  }

  lemma BlockedTask(s: Sys, q: Queue)
    requires MayBlock(s, q)
    ensures var t := Block(s, q).tasks; s.cur in t && t[s.cur].state == Waiting && t[s.cur].on == Some(q)
    ensures Block(s, q).tasks[s.cur].resume == s.tasks[s.cur].resume
  {
    hide NoDup, QueuesOk;
    PrepareCore(s, q);
    ScheduleEffect(WqPrepare(s, q, s.cur));
  }

  // ---------------------------------------------------------------- the status of an exit

  /** The exiting task is a childless zombie that remembers the low byte of the status, shifted, and its
      parent is the one it had. */
  lemma ExitLeavesZombie(s: Sys, status: int)
    requires MayExit(s)
    ensures var s' := ExitStep(s, status);
            && s.cur in s'.tasks && s'.tasks[s.cur].state == Zombie && s'.tasks[s.cur].children == []
            && s'.tasks[s.cur].exitCode == status % 256 * 256 && s'.tasks[s.cur].pid == s.tasks[s.cur].pid
            && s'.tasks[s.cur].parent == s.tasks[s.cur].parent
  {
    hide Core, TreeOk, PidsOk, NoLostWakeup, ExitMark, ExitWake, Schedule, LostWakeup, Safe, WokenOnly;
    ExitMarkFacts(s, status);
    ExitWakes(s, status);
    ExitKeeps(s, status);
    CoreShape(ExitWake(s, status));
    ScheduleSafe(ExitWake(s, status));
  }

  /** Step `k` of the run is a `waitpid` that collects `pid` with `code`. */
  ghost predicate CollectedAt(ss: seq<Sys>, es: seq<Event>, k: nat, pid: nat, code: nat) {
    && k < |es| && k < |ss| && es[k].Waitpid? && MayWait(ss[k])
    && WaitStep(ss[k], es[k].pid, es[k].fault).1 == Collected(pid, code)
  }

  /** Over every run: the status of an exit is what its parent's `waitpid` collects with the pid, or the task is
      still there as a zombie that holds it. */
  lemma {:induction false} ExitStatusArrives(ss: seq<Sys>, es: seq<Event>, status: int, j: nat)
    requires Run(ss, es) && Inv(ss[0]) && 0 < j <= |es| && es[0] == Exit(status) && ss[0].cur in ss[0].tasks
    ensures var z, pid := ss[0].cur, ss[0].tasks[ss[0].cur].pid;
            || (exists k :: 0 < k < j && CollectedAt(ss, es, k, pid, status % 256 * 256))
            || (z in ss[j].tasks && ss[j].tasks[z].state == Zombie && ss[j].tasks[z].pid == pid
                && ss[j].tasks[z].exitCode == status % 256 * 256)
    decreases j
  {
    hide Inv, Enabled, Next, WaitStep;
    var z := ss[0].cur;
    RunSafe(ss, es, j - 1);
    if j == 1 {
      FirstExit(ss[0], status);
    } else {
      ExitStatusArrives(ss, es, status, j - 1);
      if z in ss[j - 1].tasks && ss[j - 1].tasks[z].state == Zombie {
        ZombieFate(ss[j - 1], es[j - 1], z);
        if Reaped(ss[j - 1], es[j - 1], ss[j], z) && ss[j - 1].tasks[z].exitCode == status % 256 * 256
           && ss[j - 1].tasks[z].pid == ss[0].tasks[z].pid {
          assert CollectedAt(ss, es, j - 1, ss[0].tasks[z].pid, status % 256 * 256);
        }
      }
    }
  }

  lemma FirstExit(s: Sys, status: int)
    requires Inv(s) && Enabled(s, Exit(status)) && s.cur in s.tasks
    ensures var s' := Next(s, Exit(status));
            && s.cur in s'.tasks && s'.tasks[s.cur].state == Zombie && s'.tasks[s.cur].pid == s.tasks[s.cur].pid
            && s'.tasks[s.cur].exitCode == status % 256 * 256
  {
    hide Inv, ExitStep;
    ExitLeavesZombie(s, status);
  }

  // ---------------------------------------------------------------- signals

  /** A signal makes a waiting task runnable, last in the queue, and changes nothing for a task that does not
      wait. */
  lemma SignalWakes(s: Sys, t: Tid)
    requires Inv(s) && t in s.tasks
    ensures var s' := SignalStep(s, t);
            if s.tasks[t].on.None? then s' == s
            else && t in s'.tasks && s'.tasks[t] == s.tasks[t].(state := Running, on := None)
                 && s'.ready == s.ready + [t] && s'.cur == s.cur
                 && forall u :: u in s.tasks && u != t ==> u in s'.tasks && s'.tasks[u] == s.tasks[u]
  {
    hide Core, TreeOk, PidsOk, NoLostWakeup;
    CoreShape(s);
    CoreTask(s, s.cur);
    WqFinishCore(s, t);
    FinishOthers(s, t);
  }

  /** Waking a queue appends its entries to the ready queue in their order. */
  lemma {:induction false} WakeListReady(s: Sys, l: seq<Tid>)
    requires Core(s) && s.tasks[s.cur].on.None? && NoDup(l) && forall t :: t in l ==> t in s.tasks && s.tasks[t].on.Some?
    ensures WakeList(s, l).ready == s.ready + l
    decreases |l|
  {
    hide Core, NoDup, SameTree, Q, WqFinish;
    if l != [] {
      TailFacts(l);
      assert l[0] in l;
      CoreShape(s);
      WqFinishCore(s, l[0]);
      FinishOthers(s, l[0]);
      WakeListReady(WqFinish(s, l[0]), l[1..]);
      assert s.ready + [l[0]] + l[1..] == s.ready + l;
    }
  }

  // ---------------------------------------------------------------- the tick

  /** The entries of `l` whose time has come, in their order. */
  ghost function Expired(s: Sys, l: seq<Tid>, now: nat): seq<Tid>
    requires forall t :: t in l ==> t in s.tasks
  {
    if l == [] then []
    else (if s.tasks[l[0]].wakeAt <= now then [l[0]] else []) + Expired(s, l[1..], now)
  }

  lemma {:induction false} ExpiredSame(s: Sys, s': Sys, l: seq<Tid>, now: nat)
    requires forall t :: t in l ==> t in s.tasks && t in s'.tasks && s'.tasks[t].wakeAt == s.tasks[t].wakeAt
    ensures Expired(s', l, now) == Expired(s, l, now)
  {
    if l != [] {
      assert l[0] in l;
      ExpiredSame(s, s', l[1..], now);
    }
  }

  /** Waking the expired sleepers appends them to the ready queue in their order. */
  lemma {:induction false} WakeExpiredReady(s: Sys, l: seq<Tid>)
    requires Core(s) && s.tasks[s.cur].on.None? && NoDup(l) && forall t :: t in l ==> t in s.tasks && s.tasks[t].on.Some?
    ensures WakeExpired(s, l).ready == s.ready + Expired(s, l, s.ticks)
    decreases |l|
  {
    hide Core, NoDup, SameTree, Q, WqFinish;
    if l != [] {
      TailFacts(l);
      assert l[0] in l;
      if s.tasks[l[0]].wakeAt <= s.ticks {
        var s1 := WqFinish(s, l[0]);
        CoreShape(s);
        WqFinishCore(s, l[0]);
        FinishOthers(s, l[0]);
        WakeExpiredReady(s1, l[1..]);
        ExpiredSame(s, s1, l[1..], s.ticks);
      } else {
        WakeExpiredReady(s, l[1..]);
      }
    }
  }

  lemma SleepersShape(s: Sys)
    requires Core(s)
    ensures NoDup(Q(s, Sleep)) && forall t :: t in Q(s, Sleep) ==> t in s.tasks && s.tasks[t].on.Some?
  {
    hide NoDup, ReadyOk, TasksOk;
  }

  /** The ready queue at the tick: those who were ready, then the sleepers that it wakes. */
  ghost function Queued(s: Sys): seq<Tid>
    requires Core(s)
  {
    SleepersShape(s);
    s.ready + Expired(s, Q(s, Sleep), s.ticks + 1)
  }

  lemma TickQueue(s: Sys)
    requires Safe(s)
    ensures var s1 := s.(ticks := s.ticks + 1);
            QueuesOk(s1) && WakeSleepers(s1).ready == Queued(s)
  {
    hide NoDup, WakeExpired, Core, QueuesOk, SameTree, WokenExactly, Expired;
    var s1 := s.(ticks := s.ticks + 1);
    TickWakes(s);
    CoreShape(s1);
    CurrentWaitsForNothing(s);
    SleepersShape(s1);
    SleepersShape(s);
    assert Q(s1, Sleep) == Q(s, Sleep);
    WakeExpiredReady(s1, Q(s1, Sleep));
    ExpiredSame(s, s1, Q(s, Sleep), s.ticks + 1);
  }

  lemma CurrentWaitsForNothing(s: Sys)
    requires Safe(s)
    ensures s.cur in s.tasks && s.tasks[s.cur].on.None?
  {
    CoreTask(s, s.cur);
  }

  /** A task with ticks left keeps the processor and pays one tick. */
  lemma TickKeepsCurrent(s: Sys)
    requires Inv(s) && s.cur != s.idle && s.tasks[s.cur].quantum > 1
    ensures var s' := TickStep(s);
            && s'.cur == s.cur && s.cur in s'.tasks && s'.tasks[s.cur] == s.tasks[s.cur].(quantum := s.tasks[s.cur].quantum - 1)
            && s'.ready == Queued(s)
  {
    hide Core, TreeOk, PidsOk, NoLostWakeup, WakeSleepers, Schedule, SameTree, WokenExactly, Queued;
    TickWakes(s);
    TickQueue(s);
    CoreShape(s);
    SameIdle(s, WakeSleepers(s.(ticks := s.ticks + 1)));
  }

  /** Who contends for the processor when the quantum is over, or on the idle task. */
  ghost function AtTurn(s: Sys): seq<Tid>
    requires Core(s)
  {
    Queued(s) + if s.cur == s.idle then [] else [s.cur]
  }

  /** At the last tick of a quantum, and on the idle task, the first contender gets a full quantum and the
      others wait in order, the task that had the processor last; without any, the idle task goes on. */
  lemma TickSwitches(s: Sys)
    requires Inv(s) && (s.cur == s.idle || s.tasks[s.cur].quantum == 1)
    ensures var s', c := TickStep(s), AtTurn(s);
            if c == [] then s'.cur == s.idle && s'.ready == []
            else s'.cur == c[0] && s'.ready == c[1..] && c[0] in s'.tasks && s'.tasks[c[0]].quantum == 10
  {
    hide Core, TreeOk, PidsOk, NoLostWakeup, WakeSleepers, Schedule, SameTree, WokenExactly, Queued;
    TickWakes(s);
    TickQueue(s);
    CoreShape(s);
    var s1 := WakeSleepers(s.(ticks := s.ticks + 1));
    SameIdle(s, s1);
    var s2 := Charge(s1);
    CoreShape(s2);
    ScheduleEffect(s2);
  }

  // ---------------------------------------------------------------- a quantum over a run

  lemma WaitCurrent(s: Sys, pid: int, fault: bool)
    requires MayWait(s)
    ensures var s' := WaitStep(s, pid, fault).0;
            s.cur in s'.tasks && (s'.tasks[s.cur].state == Running ==>
              s'.cur == s.cur && s'.tasks[s.cur].quantum == s.tasks[s.cur].quantum)
  {
    hide Inv, Safe, TreeOk, PidsOk, NoLostWakeup, Block, FindZombie, HasChildPid, Answer;
    var l := s.tasks[s.cur].children;
    FindZombieFacts(s, l, pid);
    match FindZombie(s, l, pid)
    case None =>
      WaitMayBlock(s, pid);
      BlockedTask(SetResume(s, InWaitpid(pid)), Children(s.cur));
    case Some(z) =>
      InvTree(s);
      ZombieChild(s, z);
  }

  lemma SleepCurrent(s: Sys, seconds: nat)
    requires Inv(s) && s.cur != s.idle && s.cur in s.tasks
    ensures s.cur in SleepStep(s, seconds).tasks && SleepStep(s, seconds).tasks[s.cur].state == Waiting
  {
    hide Core, TreeOk, PidsOk, NoLostWakeup, Block;
    SleepMayBlock(s, seconds);
    BlockedTask(SleepMark(s, seconds), Sleep);
  }

  lemma SignalCurrent(s: Sys, t: Tid)
    requires Inv(s) && s.cur in s.tasks
    ensures SignalStep(s, t).cur == s.cur && s.cur in SignalStep(s, t).tasks
            && SignalStep(s, t).tasks[s.cur].quantum == s.tasks[s.cur].quantum
  {
    hide Inv;
    if t in s.tasks {
      SignalWakes(s, t);
    }
  }

  /** No step but a tick takes the processor from a task that stays runnable, or charges it. */
  lemma OthersKeepCurrent(s: Sys, e: Event)
    requires Inv(s) && Enabled(s, e) && !e.Tick?
    ensures var s' := Next(s, e);
            s.cur in s'.tasks && (s'.tasks[s.cur].state == Running ==>
              s'.cur == s.cur && s'.tasks[s.cur].quantum == s.tasks[s.cur].quantum)
  {
    hide Inv;
    InvShape(s);
    match e
    case Fork(t) =>
      ForkKeeps(s, s.cur, t, true);
      InvShape(AddChild(s, s.cur, t, true));
    case Spawn(t) =>
      ForkKeeps(s, s.init, t, false);
      InvShape(AddChild(s, s.init, t, false));
    case Exit(status) => ExitLeavesZombie(s, status);
    case Waitpid(pid, fault) => WaitCurrent(s, pid, fault);
    case SleepFor(seconds) => SleepCurrent(s, seconds);
    case SleepReturn =>
    case Signal(t) => SignalCurrent(s, t);
  }

  lemma TickIsNext(s: Sys)
    requires Inv(s) && s.cur in s.tasks
    ensures Next(s, Tick) == TickStep(s)
  {
    hide Inv;
  }

  ghost predicate StaysRunnable(ss: seq<Sys>, t: Tid, j: nat) {
    forall k :: 0 <= k <= j && k < |ss| ==> t in ss[k].tasks && ss[k].tasks[t].state == Running
  }

  /** Over every run: a task that has just got the processor and stays runnable keeps it through the ticks of
      its quantum, whatever else happens, with one tick less after each. */
  lemma {:induction false} QuantumLasts(ss: seq<Sys>, es: seq<Event>, j: nat)
    requires Run(ss, es) && Inv(ss[0]) && j <= |es| && ss[0].cur in ss[0].tasks && ss[0].cur != ss[0].idle
    requires StaysRunnable(ss, ss[0].cur, j) && Ticks(es[..j]) < ss[0].tasks[ss[0].cur].quantum
    ensures ss[j].cur == ss[0].cur && ss[j].idle == ss[0].idle && Inv(ss[j])
    ensures ss[j].tasks[ss[0].cur].quantum == ss[0].tasks[ss[0].cur].quantum - Ticks(es[..j])
    decreases j
  {
    hide Inv, Enabled, Next;
    RunSafe(ss, es, j);
    if j == 0 {
      assert es[..0] == [];
    } else {
      assert es[..j] == es[..j - 1] + [es[j - 1]];
      TicksAppend(es[..j - 1], es[j - 1]);
      QuantumLasts(ss, es, j - 1);
      var s, e := ss[j - 1], es[j - 1];
      IdleStays(s, e);
      if e.Tick? {
        TickIsNext(s);
        TickKeepsCurrent(s);
      } else {
        OthersKeepCurrent(s, e);
      }
    }
  }

  lemma ScheduleIdleSame(s: Sys)
    requires Core(s)
    ensures s.cur in s.tasks && s.idle in s.tasks && (forall t :: t in s.ready ==> t in s.tasks) && Schedule(s).idle == s.idle
  {
    hide QueuesOk, TasksOk;
  }

  lemma BlockIdleSame(s: Sys, q: Queue)
    requires MayBlock(s, q)
    ensures Block(s, q).idle == s.idle
  {
    hide Core;
    CoreShape(s);
    PrepareCore(s, q);
    ScheduleIdleSame(WqPrepare(s, q, s.cur));
  }

  lemma WaitIdleSame(s: Sys, pid: int, fault: bool)
    requires MayWait(s)
    ensures WaitStep(s, pid, fault).0.idle == s.idle
  {
    hide Inv, Safe, TreeOk, PidsOk, NoLostWakeup, Block, FindZombie, HasChildPid;
    FindZombieFacts(s, s.tasks[s.cur].children, pid);
    match FindZombie(s, s.tasks[s.cur].children, pid)
    case None =>
      WaitMayBlock(s, pid);
      BlockIdleSame(SetResume(s, InWaitpid(pid)), Children(s.cur));
    case Some(z) =>
      InvTree(s);
      ZombieChild(s, z);
  }

  lemma ExitIdleSame(s: Sys, status: int)
    requires MayExit(s)
    ensures ExitStep(s, status).idle == s.idle
  {
    hide Core, TreeOk, PidsOk, NoLostWakeup, SameTree, ExitMark, ExitWake, Schedule, LostWakeup, WokenOnly, Safe;
    ExitMarkFacts(s, status);
    ExitWakes(s, status);
    ExitKeeps(s, status);
    SameIdle(ExitMark(s, status), ExitWake(s, status));
    ScheduleIdleSame(ExitWake(s, status));
  }

  lemma SleepIdleSame(s: Sys, seconds: nat)
    requires Inv(s) && s.cur != s.idle && s.cur in s.tasks
    ensures SleepStep(s, seconds).idle == s.idle
  {
    hide Core, TreeOk, PidsOk, NoLostWakeup, Block;
    SleepMayBlock(s, seconds);
    BlockIdleSame(SleepMark(s, seconds), Sleep);
  }

  lemma TickIdleSame(s: Sys)
    requires Inv(s)
    ensures TickStep(s).idle == s.idle
  {
    hide Core, TreeOk, PidsOk, NoLostWakeup, WakeSleepers, Schedule, SameTree, WokenExactly;
    TickWakes(s);
    CoreShape(s);
    var s1 := WakeSleepers(s.(ticks := s.ticks + 1));
    SameIdle(s, s1);
    ScheduleIdleSame(Charge(s1));
  }

  /** The idle task is the same in every state of a run. */
  lemma IdleStays(s: Sys, e: Event)
    requires Inv(s) && Enabled(s, e)
    ensures Next(s, e).idle == s.idle
  {
    hide Inv, TickStep, ExitStep, SleepStep, WaitStep;
    InvShape(s);
    match e
    case Tick => TickIdleSame(s);
    case Fork(_) =>
    case Spawn(_) =>
    case Exit(status) => ExitIdleSame(s, status);
    case Waitpid(pid, fault) => WaitIdleSame(s, pid, fault);
    case SleepFor(seconds) => SleepIdleSame(s, seconds);
    case SleepReturn =>
    case Signal(_) =>
  }

  /** The last tick of the quantum: the task goes to the end of the queue, and the first of those that are ready
      or wake runs for a full quantum; if there is none, the task itself does. */
  lemma QuantumEnds(ss: seq<Sys>, es: seq<Event>, j: nat)
    requires Run(ss, es) && Inv(ss[0]) && j < |es| && ss[0].cur in ss[0].tasks && ss[0].cur != ss[0].idle
    requires StaysRunnable(ss, ss[0].cur, j) && es[j].Tick? && Ticks(es[..j]) + 1 == ss[0].tasks[ss[0].cur].quantum
    ensures Core(ss[j])
    ensures var t, q := ss[0].cur, Queued(ss[j]);
            if q == [] then ss[j + 1].cur == t && ss[j + 1].ready == []
            else ss[j + 1].cur == q[0] && ss[j + 1].ready == q[1..] + [t]
    ensures ss[j + 1].cur in ss[j + 1].tasks && ss[j + 1].tasks[ss[j + 1].cur].quantum == 10
  {
    hide Enabled, Next, Safe, TreeOk, PidsOk, NoLostWakeup, Queued;
    QuantumLasts(ss, es, j);
    var s := ss[j];
    CoreOf(s);
    TickIsNext(s);
    TickSwitches(s);
  }

  lemma CoreOf(s: Sys)
    requires Inv(s)
    ensures Core(s)
  {
  }
}
