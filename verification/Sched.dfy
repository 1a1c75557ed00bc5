/**
 * The scheduler and message passing as a machine over kernel entries: kern/sched.c, and from
 * kern/syscall_all.c and kern/env.c the calls that change what can run.
 */
module Sched {
  import opened TailQueue

  const NENV: nat := 1024

  datatype Status = FreeEnv | Runnable | NotRunnable

  // The fields of struct Env that scheduling and IPC use.
  datatype Env = Env(status: Status, pri: nat, id: nat, parent: nat, runs: nat,
                     recving: bool, value: nat, from: nat, perm: nat, dstva: nat)

  // envs, env_sched_list, curenv, the slice counter of schedule() and the counter of mkenvid().
  datatype State = State(envs: seq<Env>, queue: seq<nat>, cur: Link, count: int, made: nat)

  // The page part of a message: none, an illegal address, or a legal one, which may be unmapped or
  // may fail to be inserted in the receiver.
  datatype PageArg = NoPage | BadVa | Unmapped | NoRoom | Page

  datatype Op =
    | Tick                                             // timer interrupt
    | Yield
    | Recv(dstva: nat, legal: bool)
    | Send(envid: nat, value: nat, perm: nat, page: PageArg)
    | SetStatus(envid: nat, status: Status)
    | Exofork(slot: nat)
    | Destroy(envid: nat)
    | Create(slot: nat, pri: nat)                      // env_create, before the first env runs

  datatype Ret = Ok | Inval | BadEnv | NotRecv | NoMem | NewId(id: nat) | Gone | Panic | Fault

  // ------------------------------------------------------------------ identifiers

  // mkenvid for the n-th identifier, in 32 bits.
  function EnvId(n: nat, e: nat): nat { n * 2048 % 0x1_0000_0000 + e }

  function Envx(envid: nat): nat { envid % NENV }

  // envid2env.
  function Envid2Env(envs: seq<Env>, cur: Link, envid: nat, checkperm: bool): Link {
    if envid == 0 then cur
    else
      var e := Envx(envid);
      if e >= |envs| || envs[e].status == FreeEnv || envs[e].id != envid then Nil
      else if checkperm && Elem(e) != cur
              && !(cur.Elem? && cur.e < |envs| && envs[e].parent == envs[cur.e].id) then Nil
      else Elem(e)
  }

  // ------------------------------------------------------------------ schedule

  function IndexOf(s: seq<nat>, e: nat): (i: nat)
    ensures i <= |s| && (i < |s| ==> s[i] == e) && (i == |s| <==> e !in s)
  {
    if s == [] then 0 else if s[0] == e then 0 else 1 + IndexOf(s[1..], e)
  }

  function Drop(s: seq<nat>, e: nat): seq<nat> {
    var i := IndexOf(s, e);
    if i < |s| then Without(s, i) else s
  }

  // Must schedule pick the next env?
  predicate Switches(s: State, force: bool) {
    force || s.count <= 0 || s.cur.Nil? || s.cur.e >= |s.envs| || s.envs[s.cur.e].status != Runnable
  }

  // The run list after the current env has left the head, going to the tail if it can still run.
  function Rotated(s: State): seq<nat> {
    if s.cur.Nil? then s.queue
    else if s.cur.e < |s.envs| && s.envs[s.cur.e].status == Runnable then Drop(s.queue, s.cur.e) + [s.cur.e]
    else Drop(s.queue, s.cur.e)
  }

  // env_run.
  function RunEnv(s: State, e: nat): State
    requires e < |s.envs|
  {
    s.(cur := Elem(e), envs := s.envs[e := s.envs[e].(runs := s.envs[e].runs + 1)])
  }

  function Schedule(s: State, force: bool): (State, Ret) {
    if Switches(s, force) then
      var q := Rotated(s);
      if q == [] || q[0] >= |s.envs| then (s.(queue := q), Panic)
      else (RunEnv(s.(queue := q, count := s.envs[q[0]].pri - 1), q[0]), Gone)
    else (RunEnv(s.(count := s.count - 1), s.cur.e), Gone)
  }

  // ------------------------------------------------------------------ the kernel entries

  function Put(s: State, e: nat, env: Env): State
    requires e < |s.envs|
  {
    s.(envs := s.envs[e := env])
  }

  // sys_ipc_recv.
  function DoRecv(s: State, dstva: nat, legal: bool): (State, Ret)
    requires s.cur.Elem? && s.cur.e < |s.envs|
  {
    if dstva != 0 && !legal then (s, Inval)
    else
      var c := s.cur.e;
      var s1 := Put(s, c, s.envs[c].(recving := true, dstva := dstva, status := NotRunnable));
      Schedule(s1.(queue := Drop(s1.queue, c)), true)
  }

  // sys_ipc_try_send: the message is delivered before the page is looked up.
  function DoSend(s: State, envid: nat, value: nat, perm: nat, page: PageArg): (State, Ret)
    requires s.cur.Elem? && s.cur.e < |s.envs|
  {
    if page.BadVa? then (s, Inval)
    else
      var t := Envid2Env(s.envs, s.cur, envid, false);
      if t.Nil? then (s, BadEnv)
      else if !s.envs[t.e].recving then (s, NotRecv)
      else
        var s1 := Put(s, t.e, s.envs[t.e].(value := value, from := s.envs[s.cur.e].id, perm := perm,
                                           recving := false, status := Runnable));
        var s2 := s1.(queue := s1.queue + [t.e]);
        (s2, if page.Unmapped? then Inval else if page.NoRoom? then NoMem else Ok)
  }

  // sys_set_env_status.
  function DoSetStatus(s: State, envid: nat, status: Status): (State, Ret)
    requires s.cur.Elem? && s.cur.e < |s.envs|
  {
    if status == FreeEnv then (s, Inval)
    else
      var t := Envid2Env(s.envs, s.cur, envid, true);
      if t.Nil? then (s, BadEnv)
      else
        var e := t.e;
        var q := if status == Runnable && s.envs[e].status != Runnable then s.queue + [e]
                 else if status != Runnable && s.envs[e].status == Runnable then Drop(s.queue, e)
                 else s.queue;
        (Put(s.(queue := q), e, s.envs[e].(status := status)), Ok)
  }

  // sys_exofork, given the slot at the head of the env free list; IPC fields keep their old values.
  function DoExofork(s: State, slot: nat): (State, Ret)
    requires s.cur.Elem? && s.cur.e < |s.envs| && slot < |s.envs|
  {
    var id := EnvId(s.made + 1, slot);
    (Put(s.(made := s.made + 1), slot,
         s.envs[slot].(status := NotRunnable, pri := s.envs[s.cur.e].pri, id := id,
                       parent := s.envs[s.cur.e].id, runs := 0)),
     NewId(id))
  }

  // sys_env_destroy: env_free always removes from the run list.
  function DoDestroy(s: State, envid: nat): (State, Ret)
    requires s.cur.Elem? && s.cur.e < |s.envs|
  {
    var t := Envid2Env(s.envs, s.cur, envid, true);
    if t.Nil? then (s, BadEnv)
    else
      var s1 := Put(s.(queue := Drop(s.queue, t.e)), t.e, s.envs[t.e].(status := FreeEnv));
      if s.cur == t then Schedule(s1.(cur := Nil), true) else (s1, Ok)
  }

  // env_create.
  function DoCreate(s: State, slot: nat, pri: nat): (State, Ret)
    requires slot < |s.envs|
  {
    var id := EnvId(s.made + 1, slot);
    (Put(s.(made := s.made + 1, queue := [slot] + s.queue), slot,
         s.envs[slot].(status := Runnable, pri := pri, id := id, parent := 0, runs := 0)),
     NewId(id))
  }

  // ------------------------------------------------------------------ the invariant and the scope

  /** The run list holds each runnable env once, and nobody else. */
  ghost predicate ListRight(s: State) {
    && |s.envs| == NENV
    && Distinct(s.queue)
    && forall e: nat :: e in s.queue <==> e < |s.envs| && s.envs[e].status == Runnable
  }

  // A receiver cannot run.
  ghost predicate RecvOk(s: State) {
    forall e :: 0 <= e < |s.envs| && s.envs[e].recving ==> s.envs[e].status != Runnable
  }

  // Before the first env runs nobody receives.
  ghost predicate NobodyYet(s: State) {
    s.cur.Nil? ==> forall e :: 0 <= e < |s.envs| ==> !s.envs[e].recving
  }

  /** Beside that the current env is the head of the list, and no receiver can run. */
  ghost predicate Inv(s: State) {
    && ListRight(s) && RecvOk(s) && NobodyYet(s)
    && (s.cur.Elem? ==> s.queue != [] && s.queue[0] == s.cur.e)
  }

  // The runs considered: a destroyed env is runnable; a receiver is woken by messages only; an env
  // does not stop itself through sys_set_env_status.
  predicate InScope(s: State, op: Op) {
    match op
    case Tick => true
    case Yield => s.cur.Elem?
    case Recv(dstva, legal) => s.cur.Elem?
    case Send(envid, value, perm, page) => s.cur.Elem?
    case SetStatus(envid, status) =>
      && s.cur.Elem?
      && (var t := Envid2Env(s.envs, s.cur, envid, true);
          t.Elem? ==>
            && t.e < |s.envs|
            && (status == Runnable ==> !s.envs[t.e].recving) && (status == NotRunnable ==> t != s.cur))
    case Exofork(slot) => s.cur.Elem? && slot < |s.envs| && s.envs[slot].status == FreeEnv
    case Destroy(envid) =>
      && s.cur.Elem?
      && (var t := Envid2Env(s.envs, s.cur, envid, true); t.Elem? ==> t.e < |s.envs| && s.envs[t.e].status == Runnable)
    case Create(slot, pri) => s.cur.Nil? && slot < |s.envs| && s.envs[slot].status == FreeEnv
  }

  // What the kernel itself sees to: system calls come from the current env, new envs get free slots.
  predicate Callable(s: State, op: Op) {
    && (op.Tick? || (op.Create? <==> s.cur.Nil?))
    && (op.Exofork? || op.Create? ==> op.slot < |s.envs| && s.envs[op.slot].status == FreeEnv)
  }

  function Step(s: State, op: Op): (State, Ret)
    requires |s.envs| == NENV && (s.cur.Elem? ==> s.cur.e < NENV) && Callable(s, op)
  {
    match op
    case Tick => Schedule(s, false)
    case Yield => Schedule(s, true)
    case Recv(dstva, legal) => DoRecv(s, dstva, legal)
    case Send(envid, value, perm, page) => DoSend(s, envid, value, perm, page)
    case SetStatus(envid, status) => DoSetStatus(s, envid, status)
    case Exofork(slot) => DoExofork(s, slot)
    case Destroy(envid) => DoDestroy(s, envid)
    case Create(slot, pri) => DoCreate(s, slot, pri)
  }

  // ------------------------------------------------------------------ the invariant holds

  lemma DropMembers(s: seq<nat>, e: nat)
    requires Distinct(s)
    ensures Distinct(Drop(s, e)) && e !in Drop(s, e)
    ensures forall x :: x in Drop(s, e) <==> x in s && x != e
  {
    var i := IndexOf(s, e);
    if i < |s| {
      WithoutDistinct(s, i);
    }
  }

  lemma DropHead(s: seq<nat>, e: nat)
    requires s != [] && s[0] == e
    ensures Drop(s, e) == s[1..]
  {
    assert IndexOf(s, e) == 0;
  }

  // What schedule needs: as the invariant, but the current env may have just left the list.
  ghost predicate AlmostInv(s: State) {
    && ListRight(s) && RecvOk(s)
    && (s.cur.Elem? ==> s.cur.e < NENV
                        && (s.envs[s.cur.e].status == Runnable ==> s.queue != [] && s.queue[0] == s.cur.e))
  }

  lemma ScheduleKeeps(s: State, force: bool)
    requires AlmostInv(s)
    ensures var (r, ret) := Schedule(s, force);
      && (ret == Panic <==> s.queue == []) && (ret == Panic || ret == Gone)
      && ListRight(r) && (ret == Panic ==> r.queue == [])
      && (ret == Gone ==> Inv(r) && r.cur.Elem? && r.envs[r.cur.e].status == Runnable)
  {
    if Switches(s, force) {
      if s.cur.Elem? {
        DropMembers(s.queue, s.cur.e);
      }
      var q := Rotated(s);
      assert forall e: nat :: e in q <==> e < |s.envs| && s.envs[e].status == Runnable;
      assert Distinct(q);
      assert s.queue != [] ==> s.queue[0] in s.queue && s.queue[0] in q;
      assert q != [] ==> q[0] in q && q[0] in s.queue;
    } else {
      assert s.cur.e in s.queue;
    }
  }

  lemma CurIsRunnable(s: State)
    requires Inv(s) && s.cur.Elem?
    ensures s.cur.e < NENV && s.envs[s.cur.e].status == Runnable && AlmostInv(s)
  {
    assert s.queue[0] in s.queue;
  }

  lemma RecvKeeps(s: State, dstva: nat, legal: bool)
    requires Inv(s) && s.cur.Elem?
    ensures s.cur.e < NENV
    ensures var (r, ret) := DoRecv(s, dstva, legal);
      ListRight(r) && (if ret == Panic then r.queue == [] else Inv(r))
  {
    CurIsRunnable(s);
    if dstva == 0 || legal {
      var c := s.cur.e;
      DropMembers(s.queue, c);
      var s1 := Put(s, c, s.envs[c].(recving := true, dstva := dstva, status := NotRunnable));
      ScheduleKeeps(s1.(queue := Drop(s1.queue, c)), true);
    }
  }

  lemma SendKeeps(s: State, envid: nat, value: nat, perm: nat, page: PageArg)
    requires Inv(s) && s.cur.Elem?
    ensures s.cur.e < NENV
    ensures Inv(DoSend(s, envid, value, perm, page).0)
  {
    CurIsRunnable(s);
  }

  lemma WakeKeeps(s: State, e: nat)
    requires Inv(s) && e < NENV && s.envs[e].status != Runnable && !s.envs[e].recving
    ensures Inv(Put(s.(queue := s.queue + [e]), e, s.envs[e].(status := Runnable)))
  {
  }

  lemma StopKeeps(s: State, e: nat)
    requires Inv(s) && e < NENV && s.envs[e].status == Runnable && s.cur != Elem(e)
    ensures Inv(Put(s.(queue := Drop(s.queue, e)), e, s.envs[e].(status := NotRunnable)))
  {
    DropMembers(s.queue, e);
    if s.cur.Elem? {
      DropOther(s.queue, e);
    }
  }

  lemma SetStatusKeeps(s: State, envid: nat, status: Status)
    requires Inv(s) && InScope(s, SetStatus(envid, status))
    ensures s.cur.e < NENV
    ensures Inv(DoSetStatus(s, envid, status).0)
  {
    CurIsRunnable(s);
    var t := Envid2Env(s.envs, s.cur, envid, true);
    hide Drop, Envid2Env;
    if status != FreeEnv && t.Elem? {
      if status == s.envs[t.e].status {
        assert s.envs[t.e := s.envs[t.e].(status := status)] == s.envs;
      } else if status == Runnable {
        WakeKeeps(s, t.e);
      } else if s.envs[t.e].status == Runnable {
        StopKeeps(s, t.e);
      }
    }
  }

  lemma StatusListRight(s: State, envid: nat, status: Status)
    requires ListRight(s) && s.cur.Elem? && s.cur.e < NENV
    ensures ListRight(DoSetStatus(s, envid, status).0)
  {
    var t := Envid2Env(s.envs, s.cur, envid, true);
    assert t.Elem? ==> t.e < NENV;
    hide Envid2Env;
    if t.Elem? && status != FreeEnv {
      DropMembers(s.queue, t.e);
      hide Drop;
      var e, r := t.e, DoSetStatus(s, envid, status).0;
      assert e in s.queue <==> s.envs[e].status == Runnable;
      assert r.envs == s.envs[e := s.envs[e].(status := status)];
    }
  }

  // Dropping another element leaves the head in place.
  lemma DropOther(s: seq<nat>, e: nat)
    requires s != [] && s[0] != e
    ensures Drop(s, e) != [] && Drop(s, e)[0] == s[0]
  {
  }

  // On values it does not matter whether the destroyed env is on the list.
  lemma DestroyKeeps(s: State, envid: nat)
    requires Inv(s) && s.cur.Elem?
    ensures s.cur.e < NENV
    ensures var (r, ret) := DoDestroy(s, envid);
      ListRight(r) && (if ret == Panic then r.queue == [] else Inv(r))
  {
    CurIsRunnable(s);
    var t := Envid2Env(s.envs, s.cur, envid, true);
    if t.Elem? {
      DropMembers(s.queue, t.e);
      var s1 := Put(s.(queue := Drop(s.queue, t.e)), t.e, s.envs[t.e].(status := FreeEnv));
      if s.cur == t {
        ScheduleKeeps(s1.(cur := Nil), true);
      } else {
        DropOther(s.queue, t.e);
      }
    }
  }

  /**
   * After every kernel entry the run list holds exactly the runnable envs, and env_run is only ever
   * given a runnable one. After those in scope the current env is still its head and no receiver
   * can run. The only stop is the panic for an empty run list.
   */
  lemma StepKeeps(s: State, op: Op)
    requires Inv(s) && Callable(s, op)
    ensures s.cur.Elem? ==> s.cur.e < NENV
    ensures var (r, ret) := Step(s, op);
      && ListRight(r) && (ret == Panic ==> r.queue == [])
      && (InScope(s, op) ==> ret == Panic || Inv(r))
      && (ret == Gone ==> r.cur.Elem? && r.cur.e < NENV && r.envs[r.cur.e].status == Runnable)
  {
    if s.cur.Elem? {
      CurIsRunnable(s);
    }
    match op
    case Tick => ScheduleKeeps(s, false);
    case Yield => ScheduleKeeps(s, true);
    case Recv(dstva, legal) =>
      RecvKeeps(s, dstva, legal);
      GoneRuns(s, op);
    case Send(envid, value, perm, page) => SendKeeps(s, envid, value, perm, page);
    case SetStatus(envid, status) =>
      StatusListRight(s, envid, status);
      if InScope(s, op) { SetStatusKeeps(s, envid, status); }
    case Exofork(slot) =>
    case Destroy(envid) =>
      DestroyKeeps(s, envid);
      GoneRuns(s, op);
    case Create(slot, pri) =>
  }

  lemma GoneRuns(s: State, op: Op)
    requires Inv(s) && Callable(s, op) && (op.Recv? || op.Destroy?) && s.cur.e < NENV
    requires Step(s, op).1 == Gone ==> Inv(Step(s, op).0)
    ensures var (r, ret) := Step(s, op);
      ret == Gone ==> r.cur.Elem? && r.cur.e < NENV && r.envs[r.cur.e].status == Runnable
  {
    var (r, ret) := Step(s, op);
    if ret == Gone {
      CurIsRunnable(r);
    }
  }

  // ------------------------------------------------------------------ bounded waiting

  // How many schedule() calls an env keeps the processor for, at most.
  function Slice(env: Env): nat { if env.pri == 0 then 1 else env.pri }

  predicate Indices(envs: seq<Env>, q: seq<nat>) {
    forall i :: 0 <= i < |q| ==> q[i] < |envs|
  }

  lemma QueueIndices(s: State)
    requires AlmostInv(s)
    ensures Indices(s.envs, s.queue)
  {
    assert forall i :: 0 <= i < |s.queue| ==> s.queue[i] in s.queue;
  }

  function Cost(envs: seq<Env>, q: seq<nat>): nat
    requires Indices(envs, q)
  {
    if q == [] then 0 else Slice(envs[q[0]]) + Cost(envs, q[1..])
  }

  // The envs that run before e: the current env only has its remaining slice.
  function Ahead(s: State, e: nat): seq<nat> {
    var k := IndexOf(s.queue, e);
    s.queue[if s.cur.Elem? && k > 0 then 1 else 0..k]
  }

  // At most this many calls of schedule() happen until e is dispatched.
  function Wait(s: State, e: nat): nat
    requires Indices(s.envs, s.queue)
  {
    1 + (if s.cur.Elem? && s.count > 0 then s.count else 0) + Cost(s.envs, Ahead(s, e))
  }

  lemma {:induction false} CostSame(envs: seq<Env>, now: seq<Env>, q: seq<nat>)
    requires Indices(envs, q) && Indices(now, q)
    requires forall i :: 0 <= i < |q| ==> now[q[i]].pri == envs[q[i]].pri
    ensures Cost(now, q) == Cost(envs, q)
  {
    if q != [] {
      CostSame(envs, now, q[1..]);
    }
  }

  lemma {:induction false} CostWithout(envs: seq<Env>, q: seq<nat>, k: nat)
    requires Indices(envs, q) && k < |q|
    ensures Indices(envs, Without(q, k))
    ensures Cost(envs, Without(q, k)) < Cost(envs, q)
  {
    if k > 0 {
      CostWithout(envs, q[1..], k - 1);
      assert Without(q, k) == [q[0]] + Without(q[1..], k - 1);
      assert Without(q, k)[1..] == Without(q[1..], k - 1);
    } else {
      assert Without(q, k) == q[1..];
    }
  }

  lemma {:induction false} IndexUnique(s: seq<nat>, e: nat, i: nat)
    requires Distinct(s) && i < |s| && s[i] == e
    ensures IndexOf(s, e) == i
  {
    assert e in s;
    assert s[IndexOf(s, e)] == e;
  }

  // The current env leaves the head of the list, and the next one gets a full slice.
  lemma SwitchWait(s: State, r: State, e: nat, tail: seq<nat>)
    requires AlmostInv(s) && s.cur.Elem? && s.queue != [] && s.queue[0] == s.cur.e
    requires Inv(r) && r.queue == s.queue[1..] + tail && r.cur.Elem? && r.cur != Elem(e) && r.cur.e < NENV
    requires r.count == r.envs[r.cur.e].pri - 1 && forall x :: 0 <= x < NENV ==> r.envs[x].pri == s.envs[x].pri
    requires e in s.queue[1..]
    ensures Indices(s.envs, s.queue) && Indices(r.envs, r.queue) && Wait(r, e) < Wait(s, e)
  {
    QueueIndices(s);
    CurIsRunnable(r);
    QueueIndices(r);
    var k := IndexOf(s.queue[1..], e);
    IndexUnique(s.queue, e, k + 1);
    assert r.queue[k] == e;
    IndexUnique(r.queue, e, k);
    assert r.queue[..k] == s.queue[1..k + 1];
    var a := s.queue[1..k + 1];
    CostSame(s.envs, r.envs, a);
    assert Ahead(s, e) == a && Ahead(r, e) == a[1..];
  }

  // Nobody was running: the head of the list gets a full slice.
  lemma StartWait(s: State, r: State, e: nat)
    requires AlmostInv(s) && s.cur.Nil? && s.queue != []
    requires Inv(r) && r.queue == s.queue && r.cur.Elem? && r.cur != Elem(e) && r.cur.e < NENV
    requires r.count == r.envs[r.cur.e].pri - 1 && forall x :: 0 <= x < NENV ==> r.envs[x].pri == s.envs[x].pri
    requires e in s.queue
    ensures Indices(s.envs, s.queue) && Indices(r.envs, r.queue) && Wait(r, e) < Wait(s, e)
  {
    QueueIndices(s);
    CurIsRunnable(r);
    QueueIndices(r);
    var k := IndexOf(s.queue, e);
    var a := s.queue[..k];
    CostSame(s.envs, r.envs, a);
    assert Ahead(s, e) == a && Ahead(r, e) == a[1..];
  }

  ghost predicate SamePri(s: State, r: State, q: seq<nat>) {
    forall i :: 0 <= i < |q| && q[i] < |s.envs| && q[i] < |r.envs| ==> r.envs[q[i]].pri == s.envs[q[i]].pri
  }

  // Envs that become runnable queue up behind e.
  lemma InsertWait(s: State, r: State, e: nat, tail: seq<nat>)
    requires Inv(s) && Inv(r) && e in s.queue && r.cur == s.cur && r.count == s.count
    requires r.queue == s.queue + tail && SamePri(s, r, s.queue)
    ensures Indices(s.envs, s.queue) && Indices(r.envs, r.queue) && Wait(r, e) == Wait(s, e)
  {
    AlmostFromInv(s);
    AlmostFromInv(r);
    QueueIndices(s);
    QueueIndices(r);
    hide Inv, AlmostInv;
    var k := IndexOf(s.queue, e);
    IndexUnique(r.queue, e, k);
    hide IndexOf;
    var lo := if s.cur.Elem? then 1 else 0;
    assert lo <= k ==> r.queue[lo..k] == s.queue[lo..k];
    assert Ahead(r, e) == Ahead(s, e);
    AheadCost(s, r, e);
  }

  lemma AheadCost(s: State, r: State, e: nat)
    requires Indices(s.envs, s.queue) && SamePri(s, r, s.queue) && |r.envs| == |s.envs|
    ensures Indices(s.envs, Ahead(s, e)) && Indices(r.envs, Ahead(s, e))
    ensures Cost(r.envs, Ahead(s, e)) == Cost(s.envs, Ahead(s, e))
  {
    hide IndexOf;
    CostSame(s.envs, r.envs, Ahead(s, e));
  }

  // Another env stops or dies.
  lemma DropWait(s: State, r: State, e: nat, j: nat)
    requires Inv(s) && Inv(r) && e in s.queue && r.cur == s.cur && r.count == s.count
    requires j < |s.queue| && s.queue[j] != e && (s.cur.Elem? ==> j > 0 && s.cur != Elem(e))
    requires r.queue == Without(s.queue, j) && SamePri(s, r, s.queue)
    ensures Indices(s.envs, s.queue) && Indices(r.envs, r.queue) && Wait(r, e) <= Wait(s, e)
  {
    AlmostFromInv(s);
    AlmostFromInv(r);
    QueueIndices(s);
    QueueIndices(r);
    assert s.cur.Elem? ==> IndexOf(s.queue, e) > 0;
    DropFacts(s, r, e, j);
    hide Inv;
    DropWaitAt(s, r, e, j, IndexOf(s.queue, e));
  }

  lemma DropFacts(s: State, r: State, e: nat, j: nat)
    requires Distinct(s.queue) && Distinct(r.queue) && e in s.queue && j < |s.queue| && s.queue[j] != e
    requires r.queue == Without(s.queue, j)
    ensures var k := IndexOf(s.queue, e);
      j != k && k < |s.queue| && IndexOf(r.queue, e) == if j < k then k - 1 else k
  {
    var k := IndexOf(s.queue, e);
    DropSlice(s.queue, j, k, 0);
    IndexUnique(r.queue, e, if j < k then k - 1 else k);
  }

  lemma DropWaitAt(s: State, r: State, e: nat, j: nat, k: nat)
    requires Indices(s.envs, s.queue) && Indices(r.envs, r.queue) && |r.envs| == |s.envs| && SamePri(s, r, s.queue)
    requires j < |s.queue| && k < |s.queue| && j != k && (s.cur.Elem? ==> j > 0 && k > 0)
    requires k == IndexOf(s.queue, e) && IndexOf(r.queue, e) == if j < k then k - 1 else k
    requires r.queue == Without(s.queue, j) && r.cur == s.cur && r.count == s.count
    ensures Wait(r, e) <= Wait(s, e)
  {
    var lo := if s.cur.Elem? then 1 else 0;
    var i := if j < k then k - 1 else k;
    DropCost(s.envs, s.queue, j, k, lo);
    SamePriSub(s, r, s.queue, j);
    hide Without, IndexOf, Cost;
    var a := r.queue[lo..i];
    assert Ahead(r, e) == a && Ahead(s, e) == s.queue[lo..k];
    hide Ahead, SamePri, Indices;
    SliceCost(s, r, lo, i);
  }

  lemma SliceCost(s: State, r: State, lo: nat, i: nat)
    requires SamePri(s, r, r.queue) && Indices(r.envs, r.queue) && |r.envs| == |s.envs| && lo <= i <= |r.queue|
    ensures var a := r.queue[lo..i]; Indices(r.envs, a) && Indices(s.envs, a) && Cost(r.envs, a) == Cost(s.envs, a)
  {
    CostSame(s.envs, r.envs, r.queue[lo..i]);
  }

  lemma SamePriSub(s: State, r: State, q: seq<nat>, j: nat)
    requires SamePri(s, r, q) && j < |q|
    ensures SamePri(s, r, Without(q, j))
  {
    var t := Without(q, j);
    forall i | 0 <= i < |t| ensures t[i] == q[if i < j then i else i + 1] {
    }
  }

  // What removing position j does to the stretch before position k.
  lemma DropSlice(q: seq<nat>, j: nat, k: nat, lo: nat)
    requires j < |q| && k < |q| && j != k && lo <= j && lo <= k
    ensures var r := Without(q, j);
      var i := if j < k then k - 1 else k;
      && lo <= i < |r| && r[i] == q[k]
      && r[lo..i] == (if j < k then Without(q[lo..k], j - lo) else q[lo..k])
  {
    var r := Without(q, j);
    var i := if j < k then k - 1 else k;
    WithoutAt(q, j, i);
    if j < k {
      var w := Without(q[lo..k], j - lo);
      forall m | 0 <= m < |w| ensures r[lo..i][m] == w[m] {
        WithoutAt(q[lo..k], j - lo, m);
        WithoutAt(q, j, lo + m);
      }
    } else {
      forall m | 0 <= m < k - lo ensures r[lo..i][m] == q[lo..k][m] {
        WithoutAt(q, j, lo + m);
      }
    }
  }

  lemma WithoutAt(s: seq<nat>, k: nat, m: nat)
    requires k < |s| && m < |s| - 1
    ensures |Without(s, k)| == |s| - 1 && Without(s, k)[m] == s[if m < k then m else m + 1]
  {
  }

  lemma DropCost(envs: seq<Env>, q: seq<nat>, j: nat, k: nat, lo: nat)
    requires Indices(envs, q) && j < |q| && k < |q| && j != k && lo <= j && lo <= k
    ensures var r := Without(q, j);
      var i := if j < k then k - 1 else k;
      lo <= i < |r| && Indices(envs, r[lo..i]) && Cost(envs, r[lo..i]) <= Cost(envs, q[lo..k])
  {
    DropSlice(q, j, k, lo);
    if j < k {
      CostWithout(envs, q[lo..k], j - lo);
    }
  }

  // The current env keeps the processor for one more tick.
  lemma StayWait(s: State, e: nat)
    requires Inv(s) && e in s.queue && s.cur.Elem? && s.cur.e < NENV && s.count > 0
    ensures var r := RunEnv(s.(count := s.count - 1), s.cur.e);
      Indices(s.envs, s.queue) && Indices(r.envs, r.queue) && Wait(r, e) < Wait(s, e)
  {
    AlmostFromInv(s);
    QueueIndices(s);
    hide Inv;
    CostSame(s.envs, RunEnv(s.(count := s.count - 1), s.cur.e).envs, Ahead(s, e));
  }

  // What schedule leaves when it picks another env.
  lemma SwitchedState(s: State, force: bool)
    requires Inv(s) && Switches(s, force) && Schedule(s, force).1 == Gone
    ensures var r := Schedule(s, force).0;
      && s.queue != [] && |s.envs| == NENV && r.cur.Elem? && r.cur.e < NENV && |r.envs| == NENV
      && r.queue == (if s.cur.Nil? then s.queue else s.queue[1..] + [s.cur.e])
      && r.count == r.envs[r.cur.e].pri - 1 && forall x :: 0 <= x < NENV ==> r.envs[x].pri == s.envs[x].pri
  {
    if s.cur.Elem? {
      CurIsRunnable(s);
      DropHead(s.queue, s.cur.e);
      hide Drop;
    }
  }

  lemma ScheduleWait(s: State, force: bool, e: nat)
    requires Inv(s) && e in s.queue && s.cur != Elem(e)
    requires Schedule(s, force).1 == Gone && Inv(Schedule(s, force).0) && Schedule(s, force).0.cur != Elem(e)
    ensures var r := Schedule(s, force).0;
      Indices(s.envs, s.queue) && Indices(r.envs, r.queue) && Wait(r, e) < Wait(s, e)
  {
    hide Wait, AlmostInv;
    var r := Schedule(s, force).0;
    AlmostFromInv(s);
    if Switches(s, force) {
      SwitchedState(s, force);
      hide Schedule;
      if s.cur.Nil? {
        StartWait(s, r, e);
      } else {
        assert s.queue[0] == s.cur.e;
        hide Inv;
        SwitchWait(s, r, e, [s.cur.e]);
      }
    } else {
      assert s.cur.e < NENV;
      StayWait(s, e);
    }
  }

  lemma AlmostFromInv(s: State)
    requires Inv(s)
    ensures AlmostInv(s)
  {
    if s.cur.Elem? {
      CurIsRunnable(s);
    }
  }

  lemma RecvWait(s: State, dstva: nat, legal: bool, e: nat)
    requires Inv(s) && s.cur.Elem? && s.cur.e < NENV && e in s.queue && s.cur != Elem(e)
    requires DoRecv(s, dstva, legal).1 == Gone && Inv(DoRecv(s, dstva, legal).0)
    requires DoRecv(s, dstva, legal).0.cur != Elem(e)
    ensures var r := DoRecv(s, dstva, legal).0;
      Indices(s.envs, s.queue) && Indices(r.envs, r.queue) && Wait(r, e) < Wait(s, e)
  {
    hide Wait, Drop;
    var r := DoRecv(s, dstva, legal).0;
    AlmostFromInv(s);
    DropHead(s.queue, s.cur.e);
    DropAbsent(s.queue[1..], s.cur.e);
    assert r.queue == s.queue[1..] + [];
    assert r.cur == Elem(r.queue[0]) && r.count == r.envs[r.cur.e].pri - 1;
    assert forall x :: 0 <= x < NENV ==> r.envs[x].pri == s.envs[x].pri;
    hide DoRecv, Schedule;
    SwitchWait(s, r, e, []);
  }

  lemma DropAbsent(s: seq<nat>, e: nat)
    ensures e !in s ==> Drop(s, e) == s
  {
  }

  lemma DestroySelfWait(s: State, envid: nat, e: nat)
    requires Inv(s) && s.cur.Elem? && s.cur.e < NENV && e in s.queue && s.cur != Elem(e)
    requires Envid2Env(s.envs, s.cur, envid, true) == s.cur
    requires DoDestroy(s, envid).1 == Gone && Inv(DoDestroy(s, envid).0)
    requires DoDestroy(s, envid).0.cur != Elem(e)
    ensures var r := DoDestroy(s, envid).0;
      Indices(s.envs, s.queue) && Indices(r.envs, r.queue) && Wait(r, e) < Wait(s, e)
  {
    hide Envid2Env, Wait, Drop;
    var r := DoDestroy(s, envid).0;
    AlmostFromInv(s);
    DropHead(s.queue, s.cur.e);
    assert r.queue == s.queue[1..] + [];
    assert r.cur == Elem(r.queue[0]) && r.count == r.envs[r.cur.e].pri - 1;
    assert forall x :: 0 <= x < NENV ==> r.envs[x].pri == s.envs[x].pri;
    hide DoDestroy, Schedule;
    SwitchWait(s, r, e, []);
  }

  lemma SetStatusWait(s: State, envid: nat, status: Status, e: nat)
    requires Inv(s) && InScope(s, SetStatus(envid, status)) && s.cur.e < NENV && e in s.queue && s.cur != Elem(e)
    requires var r := DoSetStatus(s, envid, status).0; Inv(r) && e in r.queue
    ensures var r := DoSetStatus(s, envid, status).0;
      Indices(s.envs, s.queue) && Indices(r.envs, r.queue) && Wait(r, e) <= Wait(s, e)
  {
    var r := DoSetStatus(s, envid, status).0;
    var t := Envid2Env(s.envs, s.cur, envid, true);
    assert SamePri(s, r, s.queue);
    hide Envid2Env;
    if status == NotRunnable && t.Elem? && s.envs[t.e].status == Runnable {
      assert t.e in s.queue;
      DropMembers(s.queue, t.e);
      var j := IndexOf(s.queue, t.e);
      DropWait(s, r, e, j);
    } else {
      InsertWait(s, r, e, r.queue[|s.queue|..]);
    }
  }

  lemma DestroyOtherWait(s: State, envid: nat, e: nat)
    requires Inv(s) && InScope(s, Destroy(envid)) && s.cur.e < NENV && e in s.queue && s.cur != Elem(e)
    requires Envid2Env(s.envs, s.cur, envid, true) != s.cur
    requires var r := DoDestroy(s, envid).0; Inv(r) && e in r.queue
    ensures var r := DoDestroy(s, envid).0;
      Indices(s.envs, s.queue) && Indices(r.envs, r.queue) && Wait(r, e) <= Wait(s, e)
  {
    var r := DoDestroy(s, envid).0;
    var t := Envid2Env(s.envs, s.cur, envid, true);
    assert SamePri(s, r, s.queue);
    hide Envid2Env;
    if t.Elem? {
      assert t.e in s.queue;
      DropMembers(s.queue, t.e);
      DropWait(s, r, e, IndexOf(s.queue, t.e));
    } else {
      InsertWait(s, r, e, []);
    }
  }

  lemma SendWait(s: State, op: Op, e: nat)
    requires Inv(s) && s.cur.Elem? && s.cur.e < NENV && op.Send? && e in s.queue
    requires Inv(Step(s, op).0)
    ensures var r := Step(s, op).0;
      Indices(s.envs, s.queue) && Indices(r.envs, r.queue) && Wait(r, e) == Wait(s, e)
  {
    hide Wait;
    var r := Step(s, op).0;
    InsertWait(s, r, e, r.queue[|s.queue|..]);
  }

  lemma ExoforkWait(s: State, slot: nat, e: nat)
    requires Inv(s) && InScope(s, Exofork(slot)) && s.cur.e < NENV && e in s.queue
    requires Inv(DoExofork(s, slot).0)
    ensures var r := DoExofork(s, slot).0;
      Indices(s.envs, s.queue) && Indices(r.envs, r.queue) && Wait(r, e) == Wait(s, e)
  {
    hide Wait;
    assert forall i :: 0 <= i < |s.queue| ==> s.queue[i] in s.queue;
    InsertWait(s, DoExofork(s, slot).0, e, []);
  }

  /** No kernel entry makes a waiting env wait longer, and each call of schedule() brings it closer. */
  lemma StepWait(s: State, op: Op, e: nat)
    requires Inv(s) && InScope(s, op) && !op.Create? && (s.cur.Elem? ==> s.cur.e < NENV)
    requires e in s.queue && s.cur != Elem(e)
    requires var (r, ret) := Step(s, op); ret != Panic && Inv(r) && e in r.queue && r.cur != Elem(e)
    ensures var (r, ret) := Step(s, op);
      && Indices(s.envs, s.queue) && Indices(r.envs, r.queue)
      && Wait(r, e) <= Wait(s, e) && (ret == Gone ==> Wait(r, e) < Wait(s, e))
  {
    hide Wait, Schedule, Envid2Env;
    assert |s.envs| == NENV;
    hide Inv;
    var (r, ret) := Step(s, op);
    match op
    case Tick => ScheduleGone(s, false); ScheduleWait(s, false, e);
    case Yield => ScheduleGone(s, true); ScheduleWait(s, true, e);
    case Recv(dstva, legal) =>
      if dstva == 0 || legal { RecvGone(s, dstva, legal); RecvWait(s, dstva, legal, e); }
      else { SameWait(s, e); }
    case Send(envid, value, perm, page) => SendWait(s, op, e);
    case SetStatus(envid, status) => SetStatusWait(s, envid, status, e);
    case Exofork(slot) => ExoforkWait(s, slot, e);
    case Destroy(envid) =>
      if Envid2Env(s.envs, s.cur, envid, true) == s.cur {
        DestroyGone(s, envid);
        DestroySelfWait(s, envid, e);
      } else {
        DestroyOtherWait(s, envid, e);
      }
  }

  lemma SameWait(s: State, e: nat)
    requires Inv(s)
    ensures Indices(s.envs, s.queue)
  {
    AlmostFromInv(s);
    QueueIndices(s);
  }

  lemma ScheduleGone(s: State, force: bool)
    ensures Schedule(s, force).1 == Gone || Schedule(s, force).1 == Panic
  {
  }

  lemma RecvGone(s: State, dstva: nat, legal: bool)
    requires s.cur.Elem? && s.cur.e < |s.envs| && (dstva == 0 || legal)
    ensures DoRecv(s, dstva, legal).1 == Gone || DoRecv(s, dstva, legal).1 == Panic
  {
    hide Schedule;
    var c := s.cur.e;
    var s1 := Put(s, c, s.envs[c].(recving := true, dstva := dstva, status := NotRunnable));
    ScheduleGone(s1.(queue := Drop(s1.queue, c)), true);
  }

  lemma DestroyGone(s: State, envid: nat)
    requires s.cur.Elem? && s.cur.e < |s.envs| && Envid2Env(s.envs, s.cur, envid, true) == s.cur
    ensures DoDestroy(s, envid).1 == Gone || DoDestroy(s, envid).1 == Panic
  {
    hide Schedule, Envid2Env;
    var c := s.cur.e;
    var s1 := Put(s.(queue := Drop(s.queue, c)), c, s.envs[c].(status := FreeEnv));
    ScheduleGone(s1.(cur := Nil), true);
  }

  // ------------------------------------------------------------------ runs

  // A run in scope that meets no panic: every state along it satisfies the invariant.
  ghost predicate Runs(s: State, ops: seq<Op>)
    requires Inv(s)
    decreases |ops|
  {
    ops == [] ||
    (&& InScope(s, ops[0])
     && (StepKeeps(s, ops[0]);
         Step(s, ops[0]).1 != Panic && Runs(Step(s, ops[0]).0, ops[1..])))
  }

  ghost function After(s: State, ops: seq<Op>): (r: State)
    requires Inv(s) && Runs(s, ops)
    ensures Inv(r)
    decreases |ops|
  {
    if ops == [] then s else StepKeeps(s, ops[0]); After(Step(s, ops[0]).0, ops[1..])
  }

  // The number of times schedule() was called along a run.
  ghost function Schedules(s: State, ops: seq<Op>): nat
    requires Inv(s) && Runs(s, ops)
    decreases |ops|
  {
    if ops == [] then 0
    else
      StepKeeps(s, ops[0]);
      (if Step(s, ops[0]).1 == Gone then 1 else 0) + Schedules(Step(s, ops[0]).0, ops[1..])
  }

  // e stays runnable and is never dispatched along the run.
  ghost predicate Waits(s: State, ops: seq<Op>, e: nat)
    requires Inv(s) && Runs(s, ops)
    decreases |ops|
  {
    && e in s.queue && s.cur != Elem(e)
    && (ops != [] ==>
          && !ops[0].Create?
          && (StepKeeps(s, ops[0]); Waits(Step(s, ops[0]).0, ops[1..], e)))
  }

  /**
   * Bounded waiting: along every run, an env that stays runnable is dispatched within Wait calls of
   * schedule(): the remaining slice of the current env, plus one full slice for each env ahead, plus one.
   */
  lemma {:induction false} BoundedWaiting(s: State, ops: seq<Op>, e: nat)
    requires Inv(s) && Runs(s, ops) && Waits(s, ops, e)
    ensures Indices(s.envs, s.queue) && Schedules(s, ops) < Wait(s, e)
    decreases |ops|
  {
    SameWait(s, e);
    if ops != [] {
      StepKeeps(s, ops[0]);
      var r := Step(s, ops[0]).0;
      BoundedWaiting(r, ops[1..], e);
      assert e in r.queue && r.cur != Elem(e);
      StepWait(s, ops[0], e);
    }
  }

  // ------------------------------------------------------------------ message passing

  // This step delivers a message to e; this step blocks e in receive.
  predicate Delivers(s: State, op: Op, e: nat) {
    op.Send? && !op.page.BadVa? && Envid2Env(s.envs, s.cur, op.envid, false) == Elem(e) && e < |s.envs| && s.envs[e].recving
  }

  predicate Blocks(s: State, op: Op, e: nat) {
    op.Recv? && s.cur == Elem(e) && (op.dstva == 0 || op.legal)
  }

  // What schedule() leaves alone.
  lemma ScheduleIpc(s: State, force: bool, e: nat)
    requires e < |s.envs| && (s.cur.Elem? ==> s.cur.e < |s.envs|)
    ensures var r := Schedule(s, force).0;
      && |r.envs| == |s.envs|
      && r.envs[e] == s.envs[e].(runs := r.envs[e].runs)
  {
  }

  /** Only a delivery changes the message fields of an env, and only its own receive sets recving. */
  lemma StepIpc(s: State, op: Op, e: nat)
    requires Inv(s) && InScope(s, op) && (s.cur.Elem? ==> s.cur.e < NENV) && e < NENV
    ensures var r := Step(s, op).0;
      && |r.envs| == NENV
      && (r.envs[e].recving <==> (s.envs[e].recving && !Delivers(s, op, e)) || Blocks(s, op, e))
      && (Delivers(s, op, e) ==> s.cur.Elem? && r.envs[e].value == op.value && r.envs[e].from == s.envs[s.cur.e].id)
      && (!Delivers(s, op, e) ==> r.envs[e].value == s.envs[e].value && r.envs[e].from == s.envs[e].from)
      && !(Delivers(s, op, e) && Blocks(s, op, e))
  {
    hide Drop;
    match op
    case Tick => ScheduleIpc(s, false, e);
    case Yield => ScheduleIpc(s, true, e);
    case Recv(dstva, legal) =>
      if dstva == 0 || legal {
        var c := s.cur.e;
        var s1 := Put(s, c, s.envs[c].(recving := true, dstva := dstva, status := NotRunnable));
        ScheduleIpc(s1.(queue := Drop(s1.queue, c)), true, e);
      }
    case Send(envid, value, perm, page) =>
    case SetStatus(envid, status) =>
    case Exofork(slot) =>
    case Destroy(envid) =>
      var t := Envid2Env(s.envs, s.cur, envid, true);
      if t == s.cur {
        var s1 := Put(s.(queue := Drop(s.queue, t.e)), t.e, s.envs[t.e].(status := FreeEnv));
        ScheduleIpc(s1.(cur := Nil), true, e);
      }
    case Create(slot, pri) =>
  }

  ghost function Receives(s: State, ops: seq<Op>, e: nat): nat
    requires Inv(s) && Runs(s, ops)
    decreases |ops|
  {
    if ops == [] then 0
    else StepKeeps(s, ops[0]); (if Blocks(s, ops[0], e) then 1 else 0) + Receives(Step(s, ops[0]).0, ops[1..], e)
  }

  ghost function Deliveries(s: State, ops: seq<Op>, e: nat): nat
    requires Inv(s) && Runs(s, ops)
    decreases |ops|
  {
    if ops == [] then 0
    else StepKeeps(s, ops[0]); (if Delivers(s, ops[0], e) then 1 else 0) + Deliveries(Step(s, ops[0]).0, ops[1..], e)
  }

  function Bit(b: bool): nat { if b then 1 else 0 }

  /** Rendezvous: along every run each blocking receive is completed by exactly one delivery. */
  lemma {:induction false} Rendezvous(s: State, ops: seq<Op>, e: nat)
    requires Inv(s) && Runs(s, ops) && e < NENV
    ensures Bit(s.envs[e].recving) + Receives(s, ops, e)
         == Deliveries(s, ops, e) + Bit(After(s, ops).envs[e].recving)
    decreases |ops|
  {
    if ops != [] {
      StepKeeps(s, ops[0]);
      StepIpc(s, ops[0], e);
      assert Blocks(s, ops[0], e) ==> !s.envs[e].recving by {
        if s.cur.Elem? { CurIsRunnable(s); }
      }
      Rendezvous(Step(s, ops[0]).0, ops[1..], e);
    }
  }

  /** A delivered message stays until the env's next receive. */
  lemma {:induction false} MessageStays(s: State, ops: seq<Op>, e: nat)
    requires Inv(s) && Runs(s, ops) && e < NENV && !s.envs[e].recving && Receives(s, ops, e) == 0
    ensures After(s, ops).envs[e].value == s.envs[e].value && After(s, ops).envs[e].from == s.envs[e].from
    decreases |ops|
  {
    if ops != [] {
      StepKeeps(s, ops[0]);
      StepIpc(s, ops[0], e);
      MessageStays(Step(s, ops[0]).0, ops[1..], e);
    }
  }

  /** A blocked receiver is off the run list, in every reachable state. */
  lemma BlockedIsOff(s: State, ops: seq<Op>, e: nat)
    requires Inv(s) && Runs(s, ops) && e < NENV && After(s, ops).envs[e].recving
    ensures After(s, ops).envs[e].status != Runnable && e !in After(s, ops).queue
  {
  }

  /**
   * sys_ipc_try_send wakes the receiver before it looks at the page: it reports success exactly
   * when the page part went well, but the message has been delivered either way.
   */
  lemma SendErrorDelivers(s: State, op: Op, e: nat)
    requires Inv(s) && s.cur.Elem? && s.cur.e < NENV && Delivers(s, op, e)
    ensures var (r, ret) := Step(s, op);
      && r.envs[e].status == Runnable && !r.envs[e].recving && r.envs[e].value == op.value
      && (ret == Ok <==> !op.page.Unmapped? && !op.page.NoRoom?)
      && (op.page.Unmapped? ==> ret == Inval)
  {
  }

  /**
   * A live env is found under the identifier mkenvid gave it, unless that is 0: the identifier of
   * slot 0 whenever the counter wraps, which envid2env takes for the current env.
   */
  lemma LiveIdResolves(s: State, e: nat, n: nat)
    requires e < |s.envs| <= NENV && s.envs[e].status != FreeEnv && s.envs[e].id == EnvId(n, e)
    ensures Envid2Env(s.envs, s.cur, EnvId(n, e), false) == if EnvId(n, e) == 0 then s.cur else Elem(e)
    ensures EnvId(n, e) == 0 <==> e == 0 && n % 0x20_0000 == 0
  {
    IdIndex(n, e);
    IdZero(n, e);
    hide EnvId;
  }

  lemma IdZero(n: nat, e: nat)
    requires e < NENV
    ensures EnvId(n, e) == 0 <==> e == 0 && n % 0x20_0000 == 0
  {
    var k, m := n / 0x20_0000, n % 0x20_0000;
    assert n * 2048 == 0x1_0000_0000 * k + 2048 * m;
    ModWord(k, 2048 * m);
  }

  lemma IdIndex(n: nat, e: nat)
    requires e < NENV
    ensures Envx(EnvId(n, e)) == e
  {
    var k, m := n / 0x20_0000, n % 0x20_0000;
    assert n * 2048 == 0x1_0000_0000 * k + 2048 * m;
    ModWord(k, 2048 * m);
    assert EnvId(n, e) == 1024 * (2 * m) + e;
    hide EnvId;
    ModEnv(2 * m, e);
  }

  lemma ModWord(q: nat, r: nat)
    requires r < 0x1_0000_0000
    ensures (0x1_0000_0000 * q + r) % 0x1_0000_0000 == r
  {
  }

  lemma ModEnv(q: nat, r: nat)
    requires r < 1024
    ensures (1024 * q + r) % 1024 == r
  {
  }

  // ------------------------------------------------------------------ the scope is exact

  // The head and receiver clauses of the invariant survive sys_set_env_status exactly for the calls in scope.
  lemma SetStatusExact(s: State, envid: nat, status: Status)
    requires Inv(s) && s.cur.Elem? && s.cur.e < NENV && status != FreeEnv
    requires Envid2Env(s.envs, s.cur, envid, true).Elem? && Envid2Env(s.envs, s.cur, envid, true).e < |s.envs|
    ensures Inv(DoSetStatus(s, envid, status).0) <==> InScope(s, SetStatus(envid, status))
  {
    var t := Envid2Env(s.envs, s.cur, envid, true);
    if InScope(s, SetStatus(envid, status)) {
      SetStatusKeeps(s, envid, status);
    } else {
      CurIsRunnable(s);
      hide Envid2Env, Drop;
      DropMembers(s.queue, t.e);
      var r := DoSetStatus(s, envid, status).0;
      assert r.cur == s.cur;
      if status == Runnable {
        assert r.envs[t.e].recving && r.envs[t.e].status == Runnable;
      } else {
        assert r.envs[t.e].status == NotRunnable;
        assert t.e !in r.queue;
      }
    }
  }

  // Destroying an env that is not queued, if that leaves the run list alone.
  lemma DestroyUnqueued(s: State, envid: nat, e: nat)
    requires Inv(s) && s.cur.Elem? && s.cur.e < NENV
    requires Envid2Env(s.envs, s.cur, envid, true) == Elem(e) && e < |s.envs| && s.envs[e].status == NotRunnable
    ensures Inv(DoDestroy(s, envid).0)
    ensures DoDestroy(s, envid) == (Put(s, e, s.envs[e].(status := FreeEnv)), Ok)
  {
    CurIsRunnable(s);
    hide Envid2Env;
    DropMembers(s.queue, e);
    DropAbsent(s.queue, e);
  }
}
