/** Process life cycle: fork, exit, waitpid, sleep, signals and the timer, each as one step, and
    the invariants that every step keeps. */
module ProcessSteps {
  import opened Lists
  import opened Ids
  import opened Scheduling
  import opened Processes

  const TICKS_PER_SECOND: nat := 100
  const EINVAL: int := 22
  const ECHILD: int := 10
  const EFAULT: int := 14

  datatype Event =
    | Tick
    | Fork(child: Tid)
    | Spawn(child: Tid)
    | Exit(status: int)
    | Waitpid(pid: int, fault: bool)
    | SleepFor(seconds: nat)
    | SleepReturn
    | Signal(target: Tid)

  // ---------------------------------------------------------------- invariants

  ghost predicate PidsOk(s: Sys) {
    && (forall t, u :: t in s.tasks && u in s.tasks && s.tasks[t].pid == s.tasks[u].pid ==> t == u)
    && s.pids == set t | t in s.tasks :: s.tasks[t].pid
  }

  ghost predicate BlockedInWaitpid(s: Sys, t: Tid) {
    t in s.tasks && s.tasks[t].on == Some(Children(t)) && s.tasks[t].resume.InWaitpid?
  }

  /** Task `t` sits in `waitpid` although one of its children is a zombie it would accept. */
  ghost predicate LostWakeup(s: Sys, t: Tid) {
    && BlockedInWaitpid(s, t)
    && exists c :: c in s.tasks[t].children && c in s.tasks && Match(s.tasks[t].resume.pid, s.tasks[c])
  }

  ghost predicate NoLostWakeup(s: Sys) {
    forall t :: t != s.init ==> !LostWakeup(s, t)
  }

  ghost predicate Inv(s: Sys) {
    Safe(s) && TreeOk(s) && PidsOk(s) && NoLostWakeup(s)
  }

  // ---------------------------------------------------------------- steps

  function WakeSleepers(s: Sys): Sys
    requires QueuesOk(s)
  {
    WakeExpired(s, Q(s, Sleep))
  }

  /** `timer_handle`, up to the call of the scheduler. */
  function Charge(s: Sys): Sys
    requires s.cur in s.tasks
  {
    if s.cur == s.idle then s
    else Put(s, s.cur, s.tasks[s.cur].(quantum := if s.tasks[s.cur].quantum == 0 then 0xFFFF_FFFF
                                                  else s.tasks[s.cur].quantum - 1))
  }

  /** Exactly the entries of `l` whose time has come wait for nothing any more; no other task
      changed. */
  ghost predicate WokenExactly(s: Sys, s': Sys, l: seq<Tid>) {
    && s'.ticks == s.ticks && s'.tasks.Keys == s.tasks.Keys
    && forall t :: t in s.tasks ==>
         if t in l && s.tasks[t].wakeAt <= s.ticks then s'.tasks[t].on.None? else s'.tasks[t] == s.tasks[t]
  }

  lemma {:induction false} WakeExpiredFacts(s: Sys, l: seq<Tid>)
    requires Core(s) && s.tasks[s.cur].on.None? && forall t :: t in l ==> t in s.tasks
    ensures var s' := WakeExpired(s, l);
            && Core(s') && SameTree(s, s') && s'.cur == s.cur && s'.tasks[s.cur] == s.tasks[s.cur]
            && s.ready <= s'.ready
            && WokenExactly(s, s', l)
    decreases |l|
  {
    hide Core;
    hide SameTree;
    CoreShape(s);
    if l == [] {
      SameTreeRefl(s);
    } else if s.tasks[l[0]].wakeAt <= s.ticks {
      var s1 := WqFinish(s, l[0]);
      WqFinishCore(s, l[0]);
      TreeKeys(s, s1);
      FinishOthers(s, l[0]);
      hide WqFinish;
      WakeExpiredFacts(s1, l[1..]);
      SameTreeTrans(s, s1, WakeExpired(s, l));
      forall t | t in s.tasks ensures t in l <==> t == l[0] || t in l[1..] {}
    } else {
      WakeExpiredFacts(s, l[1..]);
      forall t | t in s.tasks ensures t in l <==> t == l[0] || t in l[1..] {}
    }
  }

  /** The tasks of `l` wait for nothing any more, and no other task changed. */
  ghost predicate WokenOnly(s: Sys, s': Sys, l: seq<Tid>) {
    && s'.ticks == s.ticks
    && (forall t :: t in l ==> t in s'.tasks && s'.tasks[t].on.None?)
    && forall t :: t in s.tasks && t !in l ==> t in s'.tasks && s'.tasks[t] == s.tasks[t]
  }

  lemma {:induction false} WakeListFacts(s: Sys, l: seq<Tid>)
    requires Core(s) && s.tasks[s.cur].on.None? && forall t :: t in l ==> t in s.tasks
    ensures var s' := WakeList(s, l);
            && Core(s') && SameTree(s, s') && s'.cur == s.cur && s'.tasks[s.cur] == s.tasks[s.cur]
            && s.ready <= s'.ready
            && WokenOnly(s, s', l)
    decreases |l|
  {
    hide Core;
    hide SameTree;
    CoreShape(s);
    if l == [] {
      SameTreeRefl(s);
    } else {
      var s1 := WqFinish(s, l[0]);
      WqFinishCore(s, l[0]);
      TreeKeys(s, s1);
      FinishOthers(s, l[0]);
      hide WqFinish;
      WakeListFacts(s1, l[1..]);
      SameTreeTrans(s, s1, WakeList(s, l));
      TreeKeys(s1, WakeList(s, l));
      forall t | t in l ensures t in WakeList(s, l).tasks && WakeList(s, l).tasks[t].on.None? {
        assert t == l[0] || t in l[1..];
      }
    }
  }

  lemma FinishOthers(s: Sys, t: Tid)
    requires t in s.tasks
    ensures WqFinish(s, t).tasks.Keys == s.tasks.Keys && WqFinish(s, t).ticks == s.ticks
    ensures WqFinish(s, t).tasks[t].on.None? && WqFinish(s, t).tasks[t].wakeAt == s.tasks[t].wakeAt
    ensures forall u :: u in s.tasks && u != t ==> WqFinish(s, t).tasks[u] == s.tasks[u]
  {
  }

  lemma CoreShape(s: Sys)
    requires Core(s)
    ensures s.cur in s.tasks && s.idle in s.tasks && s.init in s.tasks
    ensures forall t :: t in s.ready ==> t in s.tasks
    ensures forall q, t :: t in Q(s, q) ==> t in s.tasks
    ensures QueuesOk(s)
  {
  }

  lemma TreeKeys(s: Sys, s': Sys)
    requires SameTree(s, s')
    ensures s'.tasks.Keys == s.tasks.Keys
  {
  }

  lemma SameTreeTrans(s: Sys, s1: Sys, s2: Sys)
    requires SameTree(s, s1) && SameTree(s1, s2)
    ensures SameTree(s, s2)
  {
  }

  function TickStep(s: Sys): Sys
    requires Safe(s)
  {
    var s1 := s.(ticks := s.ticks + 1);
    TickWakes(s);
    var s2 := Charge(WakeSleepers(s1));
    if s2.cur != s2.idle && s2.tasks[s2.cur].quantum > 0 then s2 else Schedule(s2)
  }

  lemma TickWakes(s: Sys)
    requires Safe(s)
    ensures var s1 := s.(ticks := s.ticks + 1);
            && Core(s1)
            && var s2 := WakeSleepers(s1);
               && Core(s2) && SameTree(s, s2) && s2.cur == s.cur && s2.tasks[s.cur] == s.tasks[s.cur]
               && s.ready <= s2.ready && Core(Charge(s2)) && WokenExactly(s1, s2, Q(s, Sleep))
  {
    var s1 := s.(ticks := s.ticks + 1);
    CoreTicks(s);
    CoreTask(s, s.cur);
    CoreShape(s1);
    WakeExpiredFacts(s1, Q(s1, Sleep));
    ChargeCore(WakeSleepers(s1));
  }

  lemma CoreTicks(s: Sys)
    requires Core(s)
    ensures Core(s.(ticks := s.ticks + 1))
  {
    hide NoDup;
    var s' := s.(ticks := s.ticks + 1);
    QueuesFrame(s, s');
    forall u | u in s'.tasks ensures TaskOk(s', u, s'.tasks[u]) {
      assert TaskOk(s, u, s.tasks[u]);
    }
  }

  lemma ChargeCore(s: Sys)
    requires Core(s)
    ensures Core(Charge(s)) && SameTree(s, Charge(s)) && Charge(s).cur == s.cur
  {
    hide NoDup;
    hide QueuesOk;
    var s' := Charge(s);
    QueuesFrame(s, s');
    forall u | u in s'.tasks ensures TaskOk(s', u, s'.tasks[u]) {
      assert TaskOk(s, u, s.tasks[u]);
    }
  }

  // ---------------------------------------------------------------- blocking

  ghost predicate MayBlock(s: Sys, q: Queue) {
    && Core(s) && s.tasks[s.cur].state == Running && s.cur != s.idle
    && (q.Children? ==> q.owner == s.cur && s.tasks[s.cur].resume.InWaitpid?)
  }

  lemma PrepareQueues(s: Sys, q: Queue)
    requires QueuesOk(s) && s.cur in s.tasks && s.tasks[s.cur].on.None?
    ensures QueuesOk(WqPrepare(s, q, s.cur))
  {
    hide NoDup;
    hide Q;
    hide WqPrepare;
    var s' := WqPrepare(s, q, s.cur);
    assert s.cur !in Q(s, q);
    assert NoDup(Q(s, q));
    PushFacts(Q(s, q), s.cur);
    PrepareContents(s, q);
    forall q' ensures NoDup(Q(s', q')) {
      assert NoDup(Q(s, q'));
    }
    forall q', t | t in Q(s', q') ensures t in s'.tasks && s'.tasks[t].on == Some(q') {
      assert t in Q(s, q') || (t == s.cur && q' == q);
    }
    forall t | t in s'.tasks && s'.tasks[t].on.Some? ensures t in Q(s', s'.tasks[t].on.value) {
      assert t != s.cur ==> t in Q(s, s.tasks[t].on.value);
    }
  }

  lemma PrepareContents(s: Sys, q: Queue)
    requires s.cur in s.tasks && s.tasks[s.cur].on.None?
    ensures var s' := WqPrepare(s, q, s.cur);
            && (forall q' :: Q(s', q') == if q' == q then [s.cur] + Q(s, q) else Q(s, q'))
            && s'.tasks == s.tasks[s.cur := s.tasks[s.cur].(state := Waiting, on := Some(q))]
  {
  }

  lemma {:induction false} RemoveAbsent<T(!new)>(l: seq<T>, x: T)
    requires x !in l
    ensures Remove(l, x) == l
  {
    if l != [] { RemoveAbsent(l[1..], x); }
  }

  lemma PrepareReady(s: Sys, q: Queue)
    requires ReadyOk(s) && s.tasks[s.cur].on.None?
    ensures ReadyOk(WqPrepare(s, q, s.cur)) && WqPrepare(s, q, s.cur).ready == s.ready
  {
    hide NoDup;
    hide Q;
    RemoveAbsent(s.ready, s.cur);
  }

  /** The current task can be put on a wait queue; only its own state changes. */
  lemma PrepareCore(s: Sys, q: Queue)
    requires MayBlock(s, q)
    ensures var s' := WqPrepare(s, q, s.cur);
            && Core(s')
            && s' == s.(tasks := s.tasks[s.cur := s.tasks[s.cur].(state := Waiting, on := Some(q))],
                        queues := s'.queues)
  {
    hide NoDup;
    hide QueuesOk;
    hide ReadyOk;
    hide TasksOk;
    hide Q;
    CoreShape(s);
    CoreTask(s, s.cur);
    PrepareQueues(s, q);
    PrepareReady(s, q);
    TasksFrame(s, s.cur, s.tasks[s.cur].(state := Waiting, on := Some(q)), WqPrepare(s, q, s.cur));
  }

  /** `wq_prepare` on the current task, then `schedule`. */
  function Block(s: Sys, q: Queue): Sys
    requires MayBlock(s, q)
  {
    PrepareCore(s, q);
    CoreShape(WqPrepare(s, q, s.cur));
    Schedule(WqPrepare(s, q, s.cur))
  }

  function SetResume(s: Sys, r: Resume): Sys
    requires s.cur in s.tasks
  {
    Put(s, s.cur, s.tasks[s.cur].(resume := r))
  }

  lemma PidsFrame(s: Sys, s': Sys)
    requires PidsOk(s) && s'.pids == s.pids && s'.tasks.Keys == s.tasks.Keys
    requires forall t :: t in s.tasks ==> s'.tasks[t].pid == s.tasks[t].pid
    ensures PidsOk(s')
  {
  }

  /** Scheduling alone changes neither the tree, nor the pids, nor who has missed a wake-up. */
  lemma TreeKept(s: Sys, s': Sys)
    requires TreeOk(s) && PidsOk(s) && NoLostWakeup(s) && SameTree(s, s')
    ensures TreeOk(s') && PidsOk(s') && NoLostWakeup(s')
  {
    hide NodeOk;
    TreeFrame(s, s');
    PidsFrame(s, s');
    forall t | t != s'.init ensures !LostWakeup(s', t) {
      assert !LostWakeup(s, t);
    }
  }

  /** Changing where the current, running task resumes, or its timer fields, breaks nothing. */
  lemma ResumeKeeps(s: Sys, task: Task)
    requires Inv(s) && s.cur in s.tasks && task == s.tasks[s.cur].(resume := task.resume, wakeAt := task.wakeAt)
    ensures Inv(Put(s, s.cur, task))
  {
    hide NoDup;
    hide QueuesOk;
    hide TreeOk;
    hide PidsOk;
    hide NoLostWakeup;
    var s' := Put(s, s.cur, task);
    CoreTask(s, s.cur);
    QueuesFrame(s, s');
    TasksFrame(s, s.cur, s'.tasks[s.cur], s');
    TreeKept(s, s');
  }

  lemma SetResumeKeeps(s: Sys, r: Resume)
    requires Inv(s)
    ensures Inv(SetResume(s, r)) && SetResume(s, r).ready == s.ready && SetResume(s, r).cur == s.cur
  {
    hide Safe, TreeOk, PidsOk, NoLostWakeup;
    InvCurrent(s);
    ResumeKeeps(s, s.tasks[s.cur].(resume := r));
  }

  lemma SleepEndKeeps(s: Sys)
    requires Inv(s)
    ensures s.cur in s.tasks && Inv(SleepEnd(s)) && SleepEnd(s).ready == s.ready && SleepEnd(s).cur == s.cur
  {
    hide Safe, TreeOk, PidsOk, NoLostWakeup;
    InvCurrent(s);
    ResumeKeeps(s, s.tasks[s.cur].(resume := User, wakeAt := 0));
  }

  lemma InvCurrent(s: Sys)
    requires Inv(s)
    ensures s.cur in s.tasks
  {
  }

  // ---------------------------------------------------------------- sleep and signals

  function SleepStep(s: Sys, seconds: nat): Sys
    requires Safe(s) && s.cur != s.idle
  {
    SleepMayBlock(s, seconds);
    Block(SleepMark(s, seconds), Sleep)
  }

  /** `global_ticks + SECONDS_TO_TICKS(seconds)` in 32-bit unsigned arithmetic. */
  function WakeTime(ticks: nat, seconds: nat): nat {
    (ticks + TICKS_PER_SECOND * seconds) % 0x1_0000_0000
  }

  /** The end of `timer_ksleep`, when the task is back. */
  function SleepEnd(s: Sys): Sys
    requires s.cur in s.tasks
  {
    Put(s, s.cur, s.tasks[s.cur].(resume := User, wakeAt := 0))
  }

  function SleepMark(s: Sys, seconds: nat): Sys
    requires s.cur in s.tasks
  {
    Put(s, s.cur, s.tasks[s.cur].(wakeAt := WakeTime(s.ticks, seconds), resume := InSleep))
  }

  lemma SleepMayBlock(s: Sys, seconds: nat)
    requires Safe(s) && s.cur != s.idle
    ensures MayBlock(SleepMark(s, seconds), Sleep) && SameTree(s, SleepMark(s, seconds))
    ensures SleepMark(s, seconds).ready == s.ready && SleepMark(s, seconds).cur == s.cur
  {
    hide NoDup;
    hide QueuesOk;
    var s' := SleepMark(s, seconds);
    CoreTask(s, s.cur);
    QueuesFrame(s, s');
    TasksFrame(s, s.cur, s'.tasks[s.cur], s');
  }

  function SignalStep(s: Sys, t: Tid): Sys {
    if t in s.tasks then WqFinish(s, t) else s
  }

  /** Blocking the current task in a queue where it misses no wake-up keeps everything. */
  lemma BlockKeeps(s: Sys, q: Queue)
    requires MayBlock(s, q) && TreeOk(s) && PidsOk(s) && NoLostWakeup(s)
    requires q.Children? && s.cur != s.init ==>
               forall c :: c in s.tasks[s.cur].children && c in s.tasks ==>
                 !Match(s.tasks[s.cur].resume.pid, s.tasks[c])
    ensures Inv(Block(s, q))
  {
    hide NoDup;
    hide Core;
    hide TreeOk;
    CoreShape(s);
    PrepareCore(s, q);
    var s1 := WqPrepare(s, q, s.cur);
    TreeFrame(s, s1);
    PidsFrame(s, s1);
    forall t | t != s1.init ensures !LostWakeup(s1, t) {
      assert !LostWakeup(s, t);
    }
    ScheduleSafe(s1);
    TreeKept(s1, Schedule(s1));
  }

  // ---------------------------------------------------------------- fork

  ghost predicate MayFork(s: Sys, parent: Tid, t: Tid) {
    && Inv(s) && s.cur in s.tasks && parent in s.tasks && parent != s.idle && s.tasks[parent].state != Zombie
    && t !in s.tasks
  }

  /** The state after a successful `fork`, field by field. */
  lemma AddChildEffect(s: Sys, parent: Tid, t: Tid, forked: bool)
    requires MayFork(s, parent, t) && LeastClear(s.pids, 0, PID_MAX) >= 0
    ensures var s', pid := AddChild(s, parent, t, forked), LeastClear(s.pids, 0, PID_MAX);
            var p := s.tasks[parent];
            && s' == s.(tasks := s'.tasks, ready := s.ready + [t], pids := s.pids + {pid})
            && s'.tasks == s.tasks[parent := p.(children := [t] + p.children)]
                                  [t := NewChild(s, pid, parent, forked)]
            && t !in s.ready
  {
    var s', pid := AddChild(s, parent, t, forked), LeastClear(s.pids, 0, PID_MAX);
    var child := NewChild(s, pid, parent, forked);
    assert child.(state := Running) == child;
  }

  /** A task that is on no queue can be added or removed without touching the wait queues. */
  lemma QueuesGrow(s: Sys, s': Sys, t: Tid)
    requires QueuesOk(s) && s'.queues == s.queues && s'.tasks.Keys == s.tasks.Keys + {t}
    requires t !in s.tasks && s'.tasks[t].on.None?
    requires forall u :: u in s.tasks ==> s'.tasks[u].on == s.tasks[u].on
    ensures QueuesOk(s')
  {
    hide NoDup;
    assert forall q :: Q(s', q) == Q(s, q);
    hide Q;
  }

  lemma ForkReady(s: Sys, parent: Tid, t: Tid, forked: bool)
    requires MayFork(s, parent, t) && LeastClear(s.pids, 0, PID_MAX) >= 0
    ensures ReadyOk(AddChild(s, parent, t, forked))
  {
    hide NoDup;
    hide QueuesOk;
    hide TasksOk;
    hide TreeOk;
    hide PidsOk;
    hide NoLostWakeup;
    AddChildEffect(s, parent, t, forked);
    AppendFacts(s.ready, t);
  }

  lemma ForkSafe(s: Sys, parent: Tid, t: Tid, forked: bool)
    requires MayFork(s, parent, t) && LeastClear(s.pids, 0, PID_MAX) >= 0
    ensures Safe(AddChild(s, parent, t, forked))
  {
    hide NoDup;
    hide QueuesOk;
    hide ReadyOk;
    hide TreeOk;
    hide PidsOk;
    hide NoLostWakeup;
    hide AddChild;
    AddChildEffect(s, parent, t, forked);
    ForkReady(s, parent, t, forked);
    var s' := AddChild(s, parent, t, forked);
    QueuesGrow(s, s', t);
    CoreTask(s, s.cur);
    forall u | u in s'.tasks ensures TaskOk(s', u, s'.tasks[u]) {
      assert u != t ==> TaskOk(s, u, s.tasks[u]);
    }
  }

  lemma ForkTree(s: Sys, parent: Tid, t: Tid, forked: bool)
    requires MayFork(s, parent, t) && LeastClear(s.pids, 0, PID_MAX) >= 0
    ensures TreeOk(AddChild(s, parent, t, forked))
  {
    hide NoDup;
    hide Safe;
    hide TreeOk;
    hide PidsOk;
    hide NoLostWakeup;
    hide AddChild;
    AddChildEffect(s, parent, t, forked);
    var s' := AddChild(s, parent, t, forked);
    NodeAt(s, parent);
    forall u | u in s'.tasks ensures NodeOk(s', u, s'.tasks[u]) {
      ForkNode(s, parent, t, s', u);
    }
    hide NodeOk;
    TreeFromNodes(s');
  }

  lemma TreeFromNodes(s: Sys)
    requires s.init in s.tasks && s.idle in s.tasks && s.idle != s.init
    requires forall p :: p in s.tasks ==> NodeOk(s, p, s.tasks[p])
    ensures TreeOk(s)
  {
  }

  lemma ForkNode(s: Sys, parent: Tid, t: Tid, s': Sys, u: Tid)
    requires TreeOk(s) && parent in s.tasks && parent != s.idle && t !in s.tasks && u in s'.tasks
    requires s.tasks[parent].state != Zombie && s'.idle == s.idle && s'.init == s.init
    requires t in s'.tasks && s'.tasks[t].parent == Some(parent) && s'.tasks[t].children == []
    requires s'.tasks == s.tasks[parent := s.tasks[parent].(children := [t] + s.tasks[parent].children)]
                                [t := s'.tasks[t]]
    ensures NodeOk(s', u, s'.tasks[u])
  {
    hide NoDup;
    hide TreeOk;
    NodeAt(s, u);
    NodeAt(s, parent);
    PushFacts(s.tasks[parent].children, t);
    if u == t {
      EmptyNoDup<Tid>();
    } else {
      assert forall c :: c in s.tasks[u].children ==> s'.tasks[c].parent == s.tasks[c].parent;
    }
  }

  lemma ForkPids(s: Sys, parent: Tid, t: Tid, forked: bool)
    requires MayFork(s, parent, t) && LeastClear(s.pids, 0, PID_MAX) >= 0
    ensures PidsOk(AddChild(s, parent, t, forked))
  {
    hide Safe;
    hide TreeOk;
    hide NoLostWakeup;
    hide AddChild;
    AddChildEffect(s, parent, t, forked);
    LeastClearFacts(s.pids, 0, PID_MAX);
    var s' := AddChild(s, parent, t, forked);
    forall u | u in s.tasks ensures s'.tasks[u].pid == s.tasks[u].pid && s.tasks[u].pid in s.pids {
    }
    assert s'.pids == set u | u in s'.tasks :: s'.tasks[u].pid by {
      forall n | n in s'.pids ensures n in set u | u in s'.tasks :: s'.tasks[u].pid {
        if n in s.pids {
          var u :| u in s.tasks && s.tasks[u].pid == n;
          assert u in s'.tasks && s'.tasks[u].pid == n;
        } else {
          assert t in s'.tasks && s'.tasks[t].pid == n;
        }
      }
    }
  }

  /** Forking keeps every invariant; without a free pid it changes nothing. */
  lemma ForkKeeps(s: Sys, parent: Tid, t: Tid, forked: bool)
    requires MayFork(s, parent, t)
    ensures Inv(AddChild(s, parent, t, forked))
    ensures s.ready <= AddChild(s, parent, t, forked).ready && AddChild(s, parent, t, forked).cur == s.cur
    ensures AddChild(s, parent, t, forked).tasks[s.cur].quantum == s.tasks[s.cur].quantum
  {
    hide Safe;
    hide TreeOk;
    hide PidsOk;
    if LeastClear(s.pids, 0, PID_MAX) >= 0 {
      ForkSafe(s, parent, t, forked);
      ForkTree(s, parent, t, forked);
      ForkPids(s, parent, t, forked);
      AddChildEffect(s, parent, t, forked);
      var s' := AddChild(s, parent, t, forked);
      forall u | u != s'.init ensures !LostWakeup(s', u) {
        assert !LostWakeup(s, u);
      }
    }
  }

  // ---------------------------------------------------------------- waitpid

  /** How a round of `waitpid` ends: it blocks, fails, or collects a zombie and what it exited with. */
  datatype WaitResult = Blocked | Returned(value: int) | Collected(pid: nat, code: nat)

  predicate HasChildPid(s: Sys, l: seq<Tid>, pid: int)
    requires forall c :: c in l ==> c in s.tasks
  {
    l != [] && (s.tasks[l[0]].pid == pid || HasChildPid(s, l[1..], pid))
  }

  ghost predicate MayWait(s: Sys) {
    Inv(s) && s.cur in s.tasks && s.cur != s.idle && forall c :: c in s.tasks[s.cur].children ==> c in s.tasks
  }

  /** One round of the `waitpid` loop; `fault` tells whether copying the status out would fail. */
  function WaitStep(s: Sys, pid: int, fault: bool): (Sys, WaitResult)
    requires MayWait(s)
  {
    var me := s.tasks[s.cur];
    var back := SetResume(s, User);
    if pid == 0 || pid < -1 then (back, Returned(-EINVAL))
    else if me.children == [] && s.cur != s.init then (back, Returned(-ECHILD))
    else if me.children != [] && pid > 0 && !HasChildPid(s, me.children, pid) then (back, Returned(-ECHILD))
    else
      match FindZombie(s, me.children, pid)
      case Some(z) =>
        FindZombieFacts(s, me.children, pid);
        if fault then (back, Returned(-EFAULT))
        else
          ZombieChild(s, z);
          (SetResume(Release(s, z), User), Collected(s.tasks[z].pid, s.tasks[z].exitCode))
      case None =>
        WaitMayBlock(s, pid);
        (Block(SetResume(s, InWaitpid(pid)), Children(s.cur)), Blocked)
  }

  /** The scan returns the first matching zombie, and nothing only if there is none. */
  lemma {:induction false} FindZombieFacts(s: Sys, l: seq<Tid>, pid: int)
    requires forall c :: c in l ==> c in s.tasks
    ensures var r := FindZombie(s, l, pid);
            && (r.Some? ==> r.value in l && Match(pid, s.tasks[r.value]))
            && (r.None? ==> forall c :: c in l ==> !Match(pid, s.tasks[c]))
  {
    if l != [] { FindZombieFacts(s, l[1..], pid); }
  }

  lemma ZombieChild(s: Sys, z: Tid)
    requires TreeOk(s) && s.cur in s.tasks && z in s.tasks[s.cur].children
    ensures z in s.tasks && s.tasks[z].parent == Some(s.cur) && z != s.cur && z != s.idle && z != s.init
    ensures s.cur in Release(s, z).tasks
  {
  }

  lemma WaitMayBlock(s: Sys, pid: int)
    requires Inv(s) && s.cur != s.idle
    ensures MayBlock(SetResume(s, InWaitpid(pid)), Children(s.cur))
  {
    SetResumeKeeps(s, InWaitpid(pid));
  }

  /** Reaping: the state after `task_release` of a child of the current task. */
  lemma ReleaseTree(s: Sys, z: Tid)
    requires TreeOk(s) && s.cur in s.tasks && z in s.tasks[s.cur].children
    requires z in s.tasks && s.tasks[z].parent == Some(s.cur) && s.tasks[z].state == Zombie
    ensures TreeOk(Release(s, z))
  {
    hide NoDup;
    ZombieChild(s, z);
    var s' := Release(s, z);
    forall u | u in s'.tasks ensures NodeOk(s', u, s'.tasks[u]) {
      ReleaseNode(s, z, u);
    }
  }

  lemma ReleaseNode(s: Sys, z: Tid, u: Tid)
    requires TreeOk(s) && s.cur in s.tasks && z in s.tasks && u in s.tasks && u != z
    requires s.tasks[z].parent == Some(s.cur) && s.tasks[z].state == Zombie && z != s.cur
    requires z != s.idle && z != s.init
    ensures NodeOk(Release(s, z), u, Release(s, z).tasks[u])
  {
    hide NoDup;
    hide TreeOk;
    NodeAt(s, u);
    NodeAt(s, s.cur);
    NodeAt(s, z);
    RemoveFacts(s.tasks[s.cur].children, z);
    hide Remove;
    var s' := Release(s, z);
    assert u != s.cur ==> z !in s.tasks[u].children;
    forall c | c in s'.tasks[u].children ensures c in s'.tasks && s'.tasks[c].parent == Some(u) {
      assert c in s.tasks[u].children && c != z;
    }
    if u != s.idle && u != s.init {
      assert s.tasks[u].parent.value != z;
    }
  }

  lemma QueuesShrink(s: Sys, s': Sys, z: Tid)
    requires QueuesOk(s) && s'.queues == s.queues && z in s.tasks && s'.tasks.Keys == s.tasks.Keys - {z}
    requires s.tasks[z].on.None?
    requires forall u :: u in s'.tasks ==> s'.tasks[u].on == s.tasks[u].on
    ensures QueuesOk(s')
  {
    hide NoDup;
    assert forall q :: Q(s', q) == Q(s, q);
    hide Q;
  }

  lemma ReleaseSafe(s: Sys, z: Tid)
    requires Safe(s) && z in s.tasks && s.tasks[z].parent == Some(s.cur) && s.tasks[z].state == Zombie
    requires z != s.cur && z != s.idle && z != s.init
    ensures Safe(Release(s, z))
  {
    hide NoDup;
    hide QueuesOk;
    hide Remove;
    var s' := Release(s, z);
    CoreTask(s, z);
    QueuesShrink(s, s', z);
    forall u | u in s'.tasks ensures TaskOk(s', u, s'.tasks[u]) {
      assert TaskOk(s, u, s.tasks[u]);
    }
  }

  lemma ReleasePids(s: Sys, z: Tid)
    requires PidsOk(s) && s.cur in s.tasks && z in s.tasks && s.tasks[z].parent == Some(s.cur) && z != s.cur
    ensures PidsOk(Release(s, z))
  {
    hide Remove;
    var s' := Release(s, z);
    forall n | n in s'.pids ensures n in set u | u in s'.tasks :: s'.tasks[u].pid {
      var u :| u in s.tasks && s.tasks[u].pid == n;
      assert u in s'.tasks && s'.tasks[u].pid == n;
    }
    assert s'.pids == set u | u in s'.tasks :: s'.tasks[u].pid;
  }

  lemma ReleaseNoLost(s: Sys, z: Tid)
    requires TreeOk(s) && NoLostWakeup(s) && s.cur in s.tasks && z in s.tasks[s.cur].children
    requires z in s.tasks && s.tasks[z].parent == Some(s.cur) && z != s.cur
    ensures NoLostWakeup(Release(s, z))
  {
    hide NoDup;
    hide TreeOk;
    NodeAt(s, s.cur);
    RemoveFacts(s.tasks[s.cur].children, z);
    hide Remove;
    var s' := Release(s, z);
    forall t | t != s'.init ensures !LostWakeup(s', t) {
      assert !LostWakeup(s, t);
    }
  }

  /** Every outcome of `waitpid` keeps the invariants. */
  lemma WaitKeeps(s: Sys, pid: int, fault: bool)
    requires MayWait(s)
    ensures Inv(WaitStep(s, pid, fault).0)
  {
    hide Safe;
    hide TreeOk;
    hide PidsOk;
    hide NoLostWakeup;
    SetResumeKeeps(s, User);
    var l := s.tasks[s.cur].children;
    FindZombieFacts(s, l, pid);
    match FindZombie(s, l, pid)
    case Some(z) =>
      ReapKeeps(s, z);
    case None =>
      WaitMayBlock(s, pid);
      SetResumeKeeps(s, InWaitpid(pid));
      var s1 := SetResume(s, InWaitpid(pid));
      assert forall c :: c in s1.tasks ==> c in s.tasks && (c == s.cur || s1.tasks[c] == s.tasks[c]);
      assert forall c :: c in l && c in s1.tasks ==> !Match(pid, s1.tasks[c]);
      BlockKeeps(s1, Children(s.cur));
  }

  lemma ReapKeeps(s: Sys, z: Tid)
    requires Inv(s) && s.cur in s.tasks && z in s.tasks[s.cur].children && z in s.tasks
    requires s.tasks[z].state == Zombie
    ensures s.tasks[z].parent == Some(s.cur) && s.cur in Release(s, z).tasks
    ensures Inv(Release(s, z)) && Inv(SetResume(Release(s, z), User))
    ensures Release(s, z).ready == s.ready && Release(s, z).cur == s.cur
    ensures Release(s, z).tasks[s.cur].quantum == s.tasks[s.cur].quantum
  {
    hide Safe;
    hide TreeOk;
    hide PidsOk;
    hide NoLostWakeup;
    ZombieChild(s, z);
    ReleaseSafe(s, z);
    ReleaseTree(s, z);
    ReleasePids(s, z);
    ReleaseNoLost(s, z);
    SetResumeKeeps(Release(s, z), User);
  }

  // ---------------------------------------------------------------- exit

  ghost predicate MayExit(s: Sys) {
    Inv(s) && s.cur in s.tasks && s.cur != s.idle && s.cur != s.init
  }

  function SetExitCode(s: Sys, status: int): Sys
    requires s.cur in s.tasks
  {
    Put(s, s.cur, s.tasks[s.cur].(exitCode := status % 256 * 256))
  }

  /** `do_exit` up to and including the change of state to zombie. */
  function ExitMark(s: Sys, status: int): Sys
    requires TreeOk(s) && s.cur in s.tasks && s.cur != s.init
  {
    TreeFrame(s, SetExitCode(s, status));
    var s1 := Reparent(SetExitCode(s, status), s.cur);
    ReparentFacts(SetExitCode(s, status), s.cur);
    Put(s1, s.cur, s1.tasks[s.cur].(state := Zombie))
  }

  /** The queue on which the parent of the exiting task may be waiting. */
  function ParentQueue(s: Sys): Queue
    requires s.cur in s.tasks && s.tasks[s.cur].parent.Some?
  {
    Children(s.tasks[s.cur].parent.value)
  }

  function ExitWake(s: Sys, status: int): Sys
    requires MayExit(s)
  {
    ExitWakeShape(s, status);
    WakeList(ExitMark(s, status), Q(ExitMark(s, status), ParentQueue(s)))
  }

  /** `do_exit`: orphan the children, become a zombie, wake the parent, leave the processor. Coming
      back from the scheduler would be a panic. */
  function ExitStep(s: Sys, status: int): Sys
    requires MayExit(s)
  {
    ExitWakes(s, status);
    CoreShape(ExitWake(s, status));
    var s' := Schedule(ExitWake(s, status));
    if s'.cur == s.cur then s'.(panic := true) else s'
  }

  lemma ExitWakeShape(s: Sys, status: int)
    requires MayExit(s)
    ensures s.tasks[s.cur].parent.Some?
    ensures forall t :: t in Q(ExitMark(s, status), ParentQueue(s)) ==> t in ExitMark(s, status).tasks
  {
    hide Core;
    ExitMarkFacts(s, status);
    CoreShape(ExitMark(s, status));
  }

  /** What exit changes: the exiting task is a childless zombie, its children belong to kitoxD, and
      the scheduling state of everyone else is as before. */
  ghost predicate ExitMarked(s: Sys, s': Sys, status: int) {
    && s'.ready == s.ready && s'.cur == s.cur && s'.queues == s.queues && s'.pids == s.pids && s'.ticks == s.ticks
    && s'.idle == s.idle && s'.init == s.init && s'.tasks.Keys == s.tasks.Keys && s.cur in s.tasks
    && s'.tasks[s.cur]
       == s.tasks[s.cur].(state := Zombie, children := [], exitCode := status % 256 * 256)
    && forall u :: u in s.tasks && u != s.cur ==>
         && s'.tasks[u].state == s.tasks[u].state && s'.tasks[u].on == s.tasks[u].on
         && s'.tasks[u].resume == s.tasks[u].resume && s'.tasks[u].pid == s.tasks[u].pid
         && s'.tasks[u].exitCode == s.tasks[u].exitCode && s'.tasks[u].wakeAt == s.tasks[u].wakeAt
         && (u != s.init ==> s'.tasks[u].children == s.tasks[u].children)
         && s'.tasks[u].parent
            == if u in s.tasks[s.cur].children then Some(s.init) else s.tasks[u].parent
  }

  lemma ExitMarkEffect(s: Sys, status: int)
    requires TreeOk(s) && s.cur in s.tasks && s.cur != s.init
    ensures ExitMarked(s, ExitMark(s, status), status)
  {
    hide NoDup;
    hide TreeOk;
    hide Reparent;
    NodeAt(s, s.cur);
    var a := SetExitCode(s, status);
    TreeFrame(s, a);
    ReparentFacts(a, s.cur);
  }

  lemma ExitMarkFacts(s: Sys, status: int)
    requires MayExit(s)
    ensures var s' := ExitMark(s, status);
            && Core(s') && TreeOk(s') && PidsOk(s') && ExitMarked(s, s', status)
            && s.tasks[s.cur].parent.Some? && s.tasks[s.cur].parent.value in s.tasks
            && s.tasks[s.cur].on.None?
  {
    hide NoDup;
    hide Core;
    hide TreeOk;
    hide PidsOk;
    hide NoLostWakeup;
    hide Reparent;
    hide ExitMarked;
    ExitMarkEffect(s, status);
    var t := s.cur;
    NodeAt(s, t);
    CoreTask(s, t);
    var a := SetExitCode(s, status);
    TreeFrame(s, a);
    CoreFrame(s, a);
    ReparentFacts(a, t);
    CoreFrame(a, Reparent(a, t));
    ZombieCore(Reparent(a, t));
    ZombieTree(Reparent(a, t));
    PidsFrame(s, ExitMark(s, status));
  }

  lemma ZombieCore(s: Sys)
    requires Core(s) && s.tasks[s.cur].state == Running && s.cur != s.idle
    ensures Core(Put(s, s.cur, s.tasks[s.cur].(state := Zombie)))
  {
    hide NoDup;
    hide QueuesOk;
    var s' := Put(s, s.cur, s.tasks[s.cur].(state := Zombie));
    CoreTask(s, s.cur);
    QueuesFrame(s, s');
    TasksFrame(s, s.cur, s'.tasks[s.cur], s');
  }

  lemma ZombieTree(s: Sys)
    requires TreeOk(s) && s.cur in s.tasks && s.tasks[s.cur].children == []
    requires s.cur != s.idle && s.cur != s.init
    ensures TreeOk(Put(s, s.cur, s.tasks[s.cur].(state := Zombie)))
  {
    hide NoDup;
    hide TreeOk;
    var s' := Put(s, s.cur, s.tasks[s.cur].(state := Zombie));
    NodeAt(s, s.cur);
    forall u | u in s'.tasks ensures NodeOk(s', u, s'.tasks[u]) {
      NodeAt(s, u);
    }
    TreeFromNodes(s');
  }

  /** Exit after the wake-up of the parent: only the scheduler remains to be called. */
  lemma ExitWakes(s: Sys, status: int)
    requires MayExit(s)
    ensures var s1 := ExitMark(s, status);
            && s.tasks[s.cur].parent.Some?
            && var s2 := ExitWake(s, status);
               && Core(s2) && TreeOk(s2) && PidsOk(s2) && NoLostWakeup(s2)
               && SameTree(s1, s2) && s2.cur == s.cur && s2.tasks[s.cur].state == Zombie
               && s.ready <= s2.ready
               && WokenOnly(s1, s2, Q(s1, ParentQueue(s)))
  {
    hide NoDup;
    hide Core;
    hide TreeOk;
    hide PidsOk;
    hide ExitMark;
    ExitMarkFacts(s, status);
    var s1 := ExitMark(s, status);
    var l := Q(s1, Children(s.tasks[s.cur].parent.value));
    CoreShape(s1);
    WakeListFacts(s1, l);
    hide WakeList;
    var s2 := WakeList(s1, l);
    TreeFrame(s1, s2);
    PidsFrame(s1, s2);
    forall t | t != s2.init ensures !LostWakeup(s2, t) {
      ExitNoLost(s, status, s1, s2, l, t);
    }
  }

  /** After an exit no parent other than kitoxD sits on a matching zombie, and the scheduler has
      left the exiting task for good. */
  lemma ExitKeeps(s: Sys, status: int)
    requires MayExit(s)
    ensures Inv(ExitStep(s, status)) && ExitStep(s, status).cur != s.cur
  {
    hide NoDup;
    hide Core;
    hide TreeOk;
    hide PidsOk;
    hide NoLostWakeup;
    hide ExitWake;
    ExitWakes(s, status);
    var s2 := ExitWake(s, status);
    CoreShape(s2);
    ScheduleSafe(s2);
    TreeKept(s2, Schedule(s2));
    SafeRunning(Schedule(s2));
  }

  lemma SafeRunning(s: Sys)
    requires Safe(s)
    ensures s.cur in s.tasks && s.tasks[s.cur].state == Running
  {
  }

  lemma ExitNoLost(s: Sys, status: int, s1: Sys, s2: Sys, l: seq<Tid>, t: Tid)
    requires MayExit(s) && ExitMarked(s, s1, status) && QueuesOk(s1) && s.tasks[s.cur].on.None?
    requires s.tasks[s.cur].parent.Some? && l == Q(s1, Children(s.tasks[s.cur].parent.value))
    requires SameTree(s1, s2) && forall u :: u in l ==> u in s2.tasks && s2.tasks[u].on.None?
    requires t != s.init
    ensures !LostWakeup(s2, t)
  {
    hide NoDup;
    hide Safe;
    hide TreeOk;
    hide PidsOk;
    hide Q;
    assert !LostWakeup(s, t);
    if BlockedInWaitpid(s2, t) {
      assert t != s.cur && BlockedInWaitpid(s, t);
      assert t in Q(s1, Children(t));
      NodeAt(s, t);
      forall c | c in s2.tasks[t].children && c in s2.tasks
        ensures !Match(s2.tasks[t].resume.pid, s2.tasks[c])
      {
        assert c in s.tasks[t].children && s.tasks[c].parent == Some(t);
      }
    }
  }
}
