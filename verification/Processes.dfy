/** The process tree: children, parents and pids, and the operations that change them. */
module Processes {
  import opened Lists
  import opened Ids
  import opened Scheduling

  // ---------------------------------------------------------------- building blocks

  /** A new runnable task under `parent`: `fork` copies the current task's timer fields, `exec_fn`
      starts a task under kitoxD with zeroed ones. */
  function AddChild(s: Sys, parent: Tid, t: Tid, forked: bool): Sys
    requires parent in s.tasks && s.cur in s.tasks
  {
    var pid := LeastClear(s.pids, 0, PID_MAX);
    if pid < 0 then s
    else
      var child := NewChild(s, pid, parent, forked);
      var p := s.tasks[parent];
      Enqueue(s.(tasks := s.tasks[parent := p.(children := [t] + p.children)][t := child],
                 pids := s.pids + {pid}), t)
  }

  function NewChild(s: Sys, pid: nat, parent: Tid, forked: bool): Task
    requires s.cur in s.tasks
  {
    var me := s.tasks[s.cur];
    Task(pid, Running, Some(parent), [], None, User, if forked then me.quantum else 0, if forked then me.wakeAt else 0, 0)
  }

  /** One round of `__task_reparent_children`. */
  function MoveChild(s: Sys, p: Tid): Sys
    requires p in s.tasks && s.tasks[p].children != [] && s.init in s.tasks && p != s.init
    requires s.tasks[p].children[0] in s.tasks && s.tasks[p].children[0] != p
  {
    var c := s.tasks[p].children[0];
    var s1 := Put(s, c, s.tasks[c].(parent := Some(s.init)));
    var s2 := Put(s1, p, s1.tasks[p].(children := s.tasks[p].children[1..]));
    Put(s2, s.init, s2.tasks[s.init].(children := [c] + s.tasks[s.init].children))
  }

  function Reparent(s: Sys, p: Tid): Sys
    requires TreeOk(s) && p in s.tasks && p != s.init
    decreases if p in s.tasks then |s.tasks[p].children| else 0
  {
    if s.tasks[p].children == [] then s
    else
      MoveChildTree(s, p);
      Reparent(MoveChild(s, p), p)
  }

  function Match(pid: int, task: Task): bool {
    task.state == Zombie && (pid == -1 || task.pid == pid)
  }

  function FindZombie(s: Sys, l: seq<Tid>, pid: int): Option<Tid>
    requires forall c :: c in l ==> c in s.tasks
  {
    if l == [] then None
    else if Match(pid, s.tasks[l[0]]) then Some(l[0])
    else FindZombie(s, l[1..], pid)
  }

  function Release(s: Sys, z: Tid): Sys
    requires z in s.tasks && s.tasks[z].parent.Some? && s.tasks[z].parent.value in s.tasks
  {
    var p := s.tasks[z].parent.value;
    s.(tasks := s.tasks[p := s.tasks[p].(children := Remove(s.tasks[p].children, z))] - {z},
       pids := s.pids - {s.tasks[z].pid})
  }

  // ---------------------------------------------------------------- the process tree

  ghost predicate NodeOk(s: Sys, p: Tid, task: Task) {
    && NoDup(task.children)
    && (forall c :: c in task.children ==> c in s.tasks && s.tasks[c].parent == Some(p))
    && (task.state == Zombie ==> task.children == [])
    && (if p == s.idle || p == s.init then task.parent == None && task.state != Zombie
        else task.parent.Some? && task.parent.value in s.tasks && task.parent.value != p
             && p in s.tasks[task.parent.value].children)
  }

  ghost predicate TreeOk(s: Sys) {
    && s.init in s.tasks && s.idle in s.tasks && s.idle != s.init
    && forall p :: p in s.tasks ==> NodeOk(s, p, s.tasks[p])
  }

  lemma ChildrenTail(s: Sys, p: Tid)
    requires TreeOk(s) && p in s.tasks && s.tasks[p].children != []
    ensures var c := s.tasks[p].children[0];
            c in s.tasks && c != p && c != s.init && c != s.idle && s.tasks[c].parent == Some(p)
  {
  }

  lemma MoveChildTree(s: Sys, p: Tid)
    requires TreeOk(s) && p in s.tasks && p != s.init && s.tasks[p].children != []
    ensures var c := s.tasks[p].children[0];
            c in s.tasks && c != p && c != s.init
    ensures TreeOk(MoveChild(s, p))
  {
    hide NoDup;
    ChildrenTail(s, p);
    var s' := MoveChild(s, p);
    forall u | u in s'.tasks ensures NodeOk(s', u, s'.tasks[u]) {
      MoveChildNode(s, p, u);
    }
  }

  /** The three tasks that one round touches, and what it changes in each. */
  lemma MoveChildAt(s: Sys, p: Tid, u: Tid)
    requires p in s.tasks && s.init in s.tasks && p != s.init && s.tasks[p].children != [] && u in s.tasks
    requires var c := s.tasks[p].children[0]; c in s.tasks && c != p && c != s.init
    ensures u in MoveChild(s, p).tasks
    ensures MoveChild(s, p).tasks[u] ==
            if u == s.tasks[p].children[0] then s.tasks[u].(parent := Some(s.init))
            else if u == p then s.tasks[p].(children := s.tasks[p].children[1..])
            else if u == s.init then s.tasks[u].(children := [s.tasks[p].children[0]] + s.tasks[u].children)
            else s.tasks[u]
  {
  }

  lemma MoveChildNode(s: Sys, p: Tid, u: Tid)
    requires TreeOk(s) && p in s.tasks && p != s.init && s.tasks[p].children != [] && u in s.tasks
    requires var c := s.tasks[p].children[0];
             c in s.tasks && c != p && c != s.init && c != s.idle && s.tasks[c].parent == Some(p)
    ensures NodeOk(MoveChild(s, p), u, MoveChild(s, p).tasks[u])
  {
    hide NoDup;
    hide TreeOk;
    NodeAt(s, u);
    NodeAt(s, p);
    NodeAt(s, s.init);
    var c := s.tasks[p].children[0];
    var s' := MoveChild(s, p);
    assert s'.tasks.Keys == s.tasks.Keys && s'.init == s.init && s'.idle == s.idle;
    hide MoveChild;
    TailFacts(s.tasks[p].children);
    assert c !in s.tasks[s.init].children;
    PushFacts(s.tasks[s.init].children, c);
    MoveChildAt(s, p, u);
    forall v | v in s'.tasks[u].children ensures s'.tasks[v].parent == Some(u) {
      MoveChildAt(s, p, v);
    }
    if u != s.idle && u != s.init {
      MoveChildAt(s, p, s'.tasks[u].parent.value);
    }
  }

  lemma NodeAt(s: Sys, u: Tid)
    requires TreeOk(s)
    ensures s.init in s.tasks && s.idle in s.tasks && s.idle != s.init
    ensures u in s.tasks ==> NodeOk(s, u, s.tasks[u])
  {
  }

  // ---------------------------------------------------------------- frames

  /** Ready queue, wait queues and every task's scheduling state are as before. */
  ghost predicate SameSched(s: Sys, s': Sys) {
    && s'.tasks.Keys == s.tasks.Keys && s'.ready == s.ready && s'.queues == s.queues
    && s'.cur == s.cur && s'.idle == s.idle && s'.init == s.init && s'.panic == s.panic
    && s'.ticks == s.ticks && s'.pids == s.pids
    && forall t :: t in s.tasks ==>
         var x, y := s.tasks[t], s'.tasks[t];
         y.state == x.state && y.on == x.on && y.resume == x.resume && y.pid == x.pid
         && y.quantum == x.quantum && y.wakeAt == x.wakeAt
  }

  lemma CoreFrame(s: Sys, s': Sys)
    requires Core(s) && SameSched(s, s')
    ensures Core(s')
  {
    hide NoDup;
    hide QueuesOk;
    QueuesFrame(s, s');
    forall u | u in s'.tasks ensures TaskOk(s', u, s'.tasks[u]) {
      assert TaskOk(s, u, s.tasks[u]);
    }
  }

  /** The tree depends only on the links between tasks and on who is a zombie. */
  lemma TreeFrame(s: Sys, s': Sys)
    requires TreeOk(s) && s'.tasks.Keys == s.tasks.Keys && s'.idle == s.idle && s'.init == s.init
    requires forall t :: t in s.tasks ==>
               && s'.tasks[t].parent == s.tasks[t].parent && s'.tasks[t].children == s.tasks[t].children
               && (s'.tasks[t].state == Zombie <==> s.tasks[t].state == Zombie)
    ensures TreeOk(s')
  {
  }

  /** Reparenting leaves the exiting task childless and changes no scheduling state. */
  lemma {:induction false} ReparentFacts(s: Sys, p: Tid)
    requires TreeOk(s) && p in s.tasks && p != s.init
    ensures TreeOk(Reparent(s, p)) && SameSched(s, Reparent(s, p))
    ensures Reparent(s, p).tasks[p] == s.tasks[p].(children := [])
    ensures forall t :: t in s.tasks && t != p && t != s.init ==>
              Reparent(s, p).tasks[t].children == s.tasks[t].children
    ensures forall t :: t in s.tasks ==>
              Reparent(s, p).tasks[t].parent ==
              if t in s.tasks[p].children then Some(s.init) else s.tasks[t].parent
    ensures forall t :: t in s.tasks ==> Reparent(s, p).tasks[t].exitCode == s.tasks[t].exitCode
    decreases |s.tasks[p].children|
  {
    hide NoDup;
    hide TreeOk;
    if s.tasks[p].children == [] {
      assert Reparent(s, p) == s;
    } else {
      MoveChildTree(s, p);
      MoveChildFacts(s, p);
      ReparentFacts(MoveChild(s, p), p);
    }
  }

  lemma MoveChildFacts(s: Sys, p: Tid)
    requires TreeOk(s) && p in s.tasks && p != s.init && s.tasks[p].children != []
    requires var c := s.tasks[p].children[0]; c in s.tasks && c != p && c != s.init
    ensures SameSched(s, MoveChild(s, p))
    ensures MoveChild(s, p).tasks[p] == s.tasks[p].(children := s.tasks[p].children[1..])
    ensures forall t :: t in s.tasks && t != p && t != s.init ==>
              MoveChild(s, p).tasks[t].children == s.tasks[t].children
    ensures forall t :: t in s.tasks ==>
              MoveChild(s, p).tasks[t].parent ==
              if t == s.tasks[p].children[0] then Some(s.init) else s.tasks[t].parent
    ensures forall t :: t in s.tasks ==> MoveChild(s, p).tasks[t].exitCode == s.tasks[t].exitCode
    ensures forall t :: t in s.tasks[p].children <==>
              t == s.tasks[p].children[0] || t in s.tasks[p].children[1..]
  {
    hide TreeOk;
    NodeAt(s, p);
    var s' := MoveChild(s, p);
    assert s' == s.(tasks := s'.tasks) && s'.tasks.Keys == s.tasks.Keys;
    hide MoveChild;
    forall t | t in s.tasks
      ensures t in s'.tasks
              && s'.tasks[t].(parent := s.tasks[t].parent, children := s.tasks[t].children) == s.tasks[t]
              && (t != p && t != s.init ==> s'.tasks[t].children == s.tasks[t].children)
              && s'.tasks[t].parent
                 == if t == s.tasks[p].children[0] then Some(s.init) else s.tasks[t].parent
    {
      MoveChildAt(s, p, t);
    }
    MoveChildAt(s, p, p);
  }
}
