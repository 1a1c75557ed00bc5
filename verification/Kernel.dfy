/**
 * The code of kern/sched.c and of the system calls that use the run list, with env_sched_list at
 * pointer level. Every method is proved against the value-level step of module Sched.
 */
module Kernel {
  import opened TailQueue
  import opened Sched
  import opened RunList
  import opened Entries

  class Kernel {
    var envs: seq<Env>
    const runq: Queue
    var cur: Link
    var count: int
    var made: nat
    ghost var list: seq<nat>

    ghost function Abs(): State
      reads this
    {
      State(envs, list, cur, count, made)
    }

    // The pointers of the queue spell out the list.
    ghost predicate Linked()
      reads this, runq
    {
      |runq.next| == NENV && QueueOf(runq.P(), list) && AllPresent(runq.P())
    }

    ghost predicate Valid()
      reads this, runq
    {
      Linked() && Inv(Abs())
    }

    // The pointers spell out some list that is right for the envs.
    ghost predicate Intact()
      reads this, runq
    {
      exists l :: QueueOf(runq.P(), l) && ListRight(Abs().(queue := l))
    }

    // The pointers have been changed by just these edits, and no store faulted.
    ghost predicate Did(q: Ptrs, ds: seq<Edit>)
      reads runq
    {
      (runq.P(), true) == EditAll(q, ds)
    }

    /** env_init, as far as scheduling goes. */
    constructor (slots: seq<Env>, q: Queue)
      requires |slots| == NENV && q.P() == Zeroed(NENV)
      requires forall e :: 0 <= e < NENV ==> slots[e].status == FreeEnv && !slots[e].recving
      ensures Valid() && Abs() == State(slots, [], Nil, 0, 0) && runq == q
    {
      envs, runq, cur, count, made, list := slots, q, Nil, 0, 0, [];
    }

    // TAILQ_REMOVE of a queued env.
    method Unlink(e: nat)
      requires Linked() && e in list
      modifies runq, `list
      ensures Linked() && list == Drop(old(list), e) && Did(old(runq.P()), [Take(e)])
      ensures Detached(runq.P(), list, e, IndexOf(old(list), e))
    {
      ghost var k := IndexOf(list, e);
      RemoveMember(runq.P(), list, k);
      RemovePresent(runq.P(), e);
      EditOne(runq.P(), Take(e));
      var ok := runq.TailqRemove(e);
      assert ok;
      list := Without(list, k);
    }

    // TAILQ_INSERT_TAIL of an env that is not queued.
    method Append(e: nat)
      requires Linked() && e < NENV && e !in list
      modifies runq, `list
      ensures Linked() && list == old(list) + [e] && Did(old(runq.P()), [Add(e)])
    {
      EditOne(runq.P(), Add(e));
      InsertTailLinks(runq.P(), list, e);
      InsertPresent(runq.P(), e);
      runq.TailqInsertTail(e);
      list := list + [e];
    }

    // The first part of schedule: the current env goes to the tail if it can run, else off the list.
    method Rotate(e: nat)
      requires Linked() && AlmostInv(Abs()) && cur == Elem(e)
      requires envs[e].status != Runnable ==> Detached(runq.P(), list, e, 0)
      modifies runq, `list
      ensures Linked() && list == Rotated(old(Abs())) && Did(old(runq.P()), SchedEdits(old(Abs()), true))
    {
      ghost var q := runq.P();
      if envs[e].status == Runnable {
        DropMembers(list, e);
        hide QueueOf, AllPresent, Drop, Edited;
        EditTwo(q, Take(e), Add(e));
        EditOne(q, Take(e));
        Unlink(e);
        EditOne(runq.P(), Add(e));
        Append(e);
      } else {
        EditOne(q, Take(e));
        RemoveAgain(runq.P(), list, e, 0);
        DropAbsent(list, e);
        var ok := runq.TailqRemove(e);
        assert ok;
      }
    }

    /**
     * schedule. On the blocking-receive path the current env has been unlinked already, and the
     * second TAILQ_REMOVE meets pointers that still agree with the list.
     */
    method Schedule(force: bool) returns (ret: Ret)
      requires Linked() && AlmostInv(Abs())
      requires cur.Elem? && envs[cur.e].status != Runnable ==> Detached(runq.P(), list, cur.e, 0)
      modifies this, runq
      ensures Linked()
      ensures (Abs(), ret) == Sched.Schedule(old(Abs()), force)
      ensures Did(old(runq.P()), SchedEdits(old(Abs()), force))
    {
      hide AllPresent, Rotated, QueueOf, Detached, Edited;
      var e := cur;
      if force || count <= 0 || e.Nil? || envs[e.e].status != Runnable {
        RotatedInRange(Abs());
        if e.Elem? {
          Rotate(e.e);
        }
        FirstIs(runq.P(), list);
        if runq.first.Nil? {
          return Panic;
        }
        e := runq.first;
        count := envs[e.e].pri;
      }
      count := count - 1;
      cur := e;
      envs := envs[e.e := envs[e.e].(runs := envs[e.e].runs + 1)];
      return Gone;
    }

    /** sys_ipc_recv: leave the run list, then schedule, which removes the env once more. */
    method IpcRecv(dstva: nat, legal: bool) returns (ret: Ret)
      requires Valid() && cur.Elem?
      modifies this, runq
      ensures old(cur.e) < NENV && (Abs(), ret) == DoRecv(old(Abs()), dstva, legal)
      ensures Did(old(runq.P()), Edits(old(Abs()), Recv(dstva, legal)))
      ensures Linked() && ListRight(Abs()) && (ret != Panic ==> Valid())
    {
      CurIsRunnable(Abs());
      RecvKeeps(Abs(), dstva, legal);
      if dstva != 0 && !legal {
        return Inval;
      }
      ghost var s, q, c := Abs(), runq.P(), cur.e;
      ReceiverLeft(s, dstva);
      EditOne(q, Take(c));
      EditTwo(q, Take(c), Take(c));
      hide Inv, AlmostInv, Drop, IndexOf, QueueOf, AllPresent, Detached, Sched.Schedule, Edited, ListRight;
      Block(dstva);
      assert SchedEdits(Abs(), true) == [Take(c)];
      EditOne(runq.P(), Take(c));
      ret := Schedule(true);
    }

    // The part of sys_ipc_recv before schedule.
    method Block(dstva: nat)
      requires Linked() && cur.Elem? && cur.e < |envs| && cur.e in list
      modifies this, runq
      ensures Linked() && Abs() == Blocked(old(Abs()), dstva) && Did(old(runq.P()), [Take(cur.e)])
      ensures Detached(runq.P(), list, cur.e, IndexOf(old(list), cur.e))
    {
      hide Drop, IndexOf, QueueOf, AllPresent, Detached, Edited;
      ghost var s := Abs();
      var c := cur.e;
      envs := envs[c := envs[c].(recving := true)];
      envs := envs[c := envs[c].(dstva := dstva)];
      envs := envs[c := envs[c].(status := NotRunnable)];
      Unlink(c);
      assert Abs() == Blocked(s, dstva);
    }

    /** sys_ipc_try_send. */
    method IpcTrySend(envid: nat, value: nat, perm: nat, page: PageArg) returns (ret: Ret)
      requires Valid() && cur.Elem?
      modifies this, runq
      ensures old(cur.e) < NENV && (Abs(), ret) == DoSend(old(Abs()), envid, value, perm, page)
      ensures Did(old(runq.P()), Edits(old(Abs()), Send(envid, value, perm, page)))
      ensures Valid()
    {
      CurIsRunnable(Abs());
      SendKeeps(Abs(), envid, value, perm, page);
      if page.BadVa? {
        return Inval;
      }
      var t := Envid2Env(envs, cur, envid, false);
      if t.Nil? {
        return BadEnv;
      }
      if !envs[t.e].recving {
        return NotRecv;
      }
      assert t.e !in list;
      hide Inv, Envid2Env, QueueOf;
      ghost var s := Abs();
      envs := envs[t.e := envs[t.e].(value := value)];
      envs := envs[t.e := envs[t.e].(from := envs[cur.e].id)];
      envs := envs[t.e := envs[t.e].(perm := perm)];
      envs := envs[t.e := envs[t.e].(recving := false)];
      envs := envs[t.e := envs[t.e].(status := Runnable)];
      Append(t.e);
      assert Abs() == Put(s.(queue := s.queue + [t.e]), t.e,
                          s.envs[t.e].(value := value, from := s.envs[s.cur.e].id, perm := perm,
                                       recving := false, status := Runnable));
      if page.Unmapped? {
        return Inval;
      }
      return if page.NoRoom? then NoMem else Ok;
    }

    /**
     * sys_set_env_status. After any call the pointers spell out exactly the runnable envs. Later
     * entries can break that only after the calls of RunList.StatusBreaksExact.
     */
    method SetEnvStatus(envid: nat, status: Status) returns (ret: Ret)
      requires Valid() && cur.Elem?
      modifies this, runq
      ensures ret == Ok <==> status in {Runnable, NotRunnable} && exists e: nat :: Targets(old(Abs()), envid, e)
      ensures forall e: nat :: Names(old(Abs()), envid, e) && status in {Runnable, NotRunnable} ==>
        if May(old(Abs()), e) then ret == Ok && envs == old(envs)[e := old(envs)[e].(status := status)]
        else ret == BadEnv && Abs() == old(Abs())
      ensures old(cur.e) < NENV && (Abs(), ret) == DoSetStatus(old(Abs()), envid, status)
      ensures Did(old(runq.P()), StatusEdits(old(Abs()), envid, status))
      ensures Linked() && ListRight(Abs())
      ensures Breakable(Abs(), runq.P()) <==> Threatens(old(Abs()), envid, status)
      ensures Valid() <==> InScope(old(Abs()), SetStatus(envid, status))
    {
      ghost var s, q := Abs(), runq.P();
      StatusPermitted(s, envid, status);
      StatusBreaksExact(Abs(), q, envid, status);
      StatusListRight(Abs(), envid, status);
      ret := ChangeStatus(envid, status);
      hide Inv, QueueOf, AllPresent, DoSetStatus, Targets, Names, May, Breakable, Threatens, InScope, StatusEdits;
    }

    method ChangeStatus(envid: nat, status: Status) returns (ret: Ret)
      requires Valid() && cur.Elem?
      modifies this, runq
      ensures old(cur.e) < NENV && (Abs(), ret) == DoSetStatus(old(Abs()), envid, status)
      ensures Did(old(runq.P()), StatusEdits(old(Abs()), envid, status))
      ensures Linked() && (Inv(Abs()) <==> InScope(old(Abs()), SetStatus(envid, status)))
    {
      CurIsRunnable(Abs());
      StatusExact(Abs(), envid, status);
      if status == FreeEnv {
        return Inval;
      }
      var t := Envid2Env(envs, cur, envid, true);
      if t.Nil? {
        return BadEnv;
      }
      assert t.e in list <==> envs[t.e].status == Runnable;
      hide Inv, InScope;
      if status == Runnable && envs[t.e].status != Runnable {
        Append(t.e);
      } else if status != Runnable && envs[t.e].status == Runnable {
        Unlink(t.e);
      }
      envs := envs[t.e := envs[t.e].(status := status)];
      return Ok;
    }

    /**
     * sys_env_destroy with env_destroy and the scheduling part of env_free, for any target. env_free
     * takes the env off the run list without asking whether it is on it. The kernel goes on with an
     * intact run list exactly when the target was runnable, or has been queued before with stale
     * pointers that agree with the list.
     */
    method EnvDestroy(envid: nat) returns (ret: Ret)
      requires Valid() && cur.Elem?
      modifies this, runq
      ensures old(cur.e) < NENV
      ensures ret != BadEnv <==> exists e: nat :: Targets(old(Abs()), envid, e)
      ensures forall e: nat :: Names(old(Abs()), envid, e) ==>
        if May(old(Abs()), e) then ret != BadEnv && e < |envs| && envs[e].status == FreeEnv
        else ret == BadEnv && Abs() == old(Abs())
      ensures (runq.P(), ret != Fault) == EditAll(old(runq.P()), Edits(old(Abs()), Destroy(envid)))
      ensures DestroySafe(old(Abs()), old(runq.P()), envid) ==>
        (Abs(), ret) == DoDestroy(old(Abs()), envid) && Linked() && ListRight(Abs()) && (ret != Panic ==> Valid())
      ensures ret != Panic ==> (ret != Fault && Intact() <==> DestroySafe(old(Abs()), old(runq.P()), envid))
    {
      ghost var s := Abs();
      CurIsRunnable(s);
      TargetFound(s, envid);
      assert forall e: nat :: Names(s, envid, e) ==> (May(s, e) <==> Targets(s, envid, e));
      hide Inv, QueueOf, AllPresent, DoDestroy, Targets, Names, May, DestroySafe, Edits, EditAll, Envid2Env;
      ret := DestroyFound(envid);
    }

    method DestroyFound(envid: nat) returns (ret: Ret)
      requires Valid() && cur.Elem?
      modifies this, runq
      ensures old(cur.e) < NENV
      ensures var t := Envid2Env(old(envs), old(cur), envid, true);
        if t.Nil? then ret == BadEnv && Abs() == old(Abs())
        else ret != BadEnv && t.e < |envs| && envs[t.e].status == FreeEnv
      ensures (runq.P(), ret != Fault) == EditAll(old(runq.P()), Edits(old(Abs()), Destroy(envid)))
      ensures DestroySafe(old(Abs()), old(runq.P()), envid) ==>
        (Abs(), ret) == DoDestroy(old(Abs()), envid) && Linked() && ListRight(Abs()) && (ret != Panic ==> Valid())
      ensures ret != Panic ==> (ret != Fault && Intact() <==> DestroySafe(old(Abs()), old(runq.P()), envid))
    {
      CurIsRunnable(Abs());
      var t := Envid2Env(envs, cur, envid, true);
      if t.Nil? {
        assert Abs().(queue := list) == Abs();
        return BadEnv;
      }
      if envs[t.e].status == Runnable {
        ret := DestroyQueued(envid, t.e);
        assert Abs().(queue := list) == Abs();
      } else {
        ret := DestroyStranger(envid, t.e);
      }
    }

    // The scheduling part of env_free, for an env on the run list.
    method Evict(e: nat)
      requires Linked() && e < |envs| && e in list
      modifies this, runq
      ensures Linked() && Abs() == Freed(old(Abs()), e) && Did(old(runq.P()), [Take(e)])
    {
      hide QueueOf, AllPresent, Drop;
      envs := envs[e := envs[e].(status := FreeEnv)];
      Unlink(e);
    }

    method DestroyQueued(envid: nat, e: nat) returns (ret: Ret)
      requires Valid() && cur.Elem? && cur.e < NENV && e < |envs| && envs[e].status == Runnable
      requires Envid2Env(envs, cur, envid, true) == Elem(e)
      modifies this, runq
      ensures (Abs(), ret) == DoDestroy(old(Abs()), envid) && ret in {Ok, Gone, Panic}
      ensures |envs| == |old(envs)| && envs[e].status == FreeEnv
      ensures Linked() && ListRight(Abs()) && (ret != Panic ==> Valid()) && Did(old(runq.P()), [Take(e)])
    {
      ghost var s := Abs();
      DestroyKeeps(s, envid);
      DestroyGives(s, envid, e);
      DestroyedIs(s, DoDestroy(s, envid).0, DoDestroy(s, envid).1, e);
      DestroyIs(s, envid, e);
      VictimLeft(s, e);
      hide Inv, AlmostInv, Envid2Env, Freed, QueueOf, AllPresent, Detached, Sched.Schedule, DoDestroy;
      Evict(e);
      if cur == Elem(e) {
        cur := Nil;
        ret := Schedule(true);
      } else {
        return Ok;
      }
    }

    method DestroyStranger(envid: nat, e: nat) returns (ret: Ret)
      requires Valid() && cur.Elem? && cur.e < NENV && e < |envs| && envs[e].status == NotRunnable
      requires Envid2Env(envs, cur, envid, true) == Elem(e)
      modifies this, runq
      ensures envs == old(envs)[e := old(envs)[e].(status := FreeEnv)]
      ensures ret in {Ok, Fault} && (runq.P(), ret != Fault) == EditAll(old(runq.P()), [Take(e)])
      ensures DestroySafe(old(Abs()), old(runq.P()), envid) ==> (Abs(), ret) == DoDestroy(old(Abs()), envid) && Valid()
      ensures ret == Ok && Intact() <==> DestroySafe(old(Abs()), old(runq.P()), envid)
    {
      ghost var s, q := Abs(), runq.P();
      StrangerDestroyed(s, q, envid, e);
      EditOne(q, Take(e));
      envs := envs[e := envs[e].(status := FreeEnv)];
      var ok := runq.TailqRemove(e);
      assert Abs() == Put(s, e, s.envs[e].(status := FreeEnv));
      hide Inv, QueueOf, DestroySafe, TryRemove, Envid2Env, AllPresent, DoDestroy;
      return if ok then Ok else Fault;
    }

    /** sys_exofork, as far as scheduling goes. */
    method Exofork(slot: nat) returns (ret: Ret)
      requires Valid() && Callable(Abs(), Op.Exofork(slot))
      modifies `envs, `made
      ensures cur.e < NENV && slot < NENV && (Abs(), ret) == DoExofork(old(Abs()), slot)
      ensures Valid()
    {
      CurIsRunnable(Abs());
      StepKeeps(Abs(), Op.Exofork(slot));
      made := made + 1;
      var id := EnvId(made, slot);
      envs := envs[slot := envs[slot].(runs := 0, id := id, parent := envs[cur.e].id)];
      envs := envs[slot := envs[slot].(status := NotRunnable, pri := envs[cur.e].pri)];
      assert envs == old(envs)[slot := envs[slot]];
      return NewId(id);
    }

    /** env_create, as far as scheduling goes: the new env goes to the head of the list. */
    method EnvCreate(slot: nat, pri: nat) returns (ret: Ret)
      requires Valid() && Callable(Abs(), Create(slot, pri))
      modifies this, runq
      ensures slot < NENV && (Abs(), ret) == DoCreate(old(Abs()), slot, pri)
      ensures Did(old(runq.P()), [Front(slot)])
      ensures Valid()
    {
      StepKeeps(Abs(), Create(slot, pri));
      assert slot !in list;
      InsertHeadLinks(runq.P(), list, slot);
      InsertPresent(runq.P(), slot);
      EditOne(runq.P(), Front(slot));
      hide Inv, QueueOf, AllPresent, EnvId;
      made := made + 1;
      var id := EnvId(made, slot);
      envs := envs[slot := envs[slot].(runs := 0, id := id, parent := 0)];
      envs := envs[slot := envs[slot].(pri := pri)];
      envs := envs[slot := envs[slot].(status := Runnable)];
      assert envs == old(envs)[slot := envs[slot]];
      runq.TailqInsertHead(slot);
      list := [slot] + list;
      return NewId(id);
    }

    /**
     * Every kernel entry, at pointer level: the stores it makes to the run list, and, but for the
     * destructions of EnvDestroy that break the list, the step of module Sched with the pointers
     * spelling out exactly the runnable envs. The entries in scope keep the whole invariant.
     */
    method Enter(op: Op) returns (ret: Ret)
      requires Valid() && Callable(Abs(), op)
      modifies this, runq
      ensures old(cur.Elem?) ==> old(cur).e < NENV
      ensures (runq.P(), ret != Fault) == EditAll(old(runq.P()), Edits(old(Abs()), op))
      ensures (op.Destroy? ==> DestroySafe(old(Abs()), old(runq.P()), op.envid)) ==>
        && (Abs(), ret) == Step(old(Abs()), op) && Linked() && ListRight(Abs())
        && (ret == Gone ==> cur.Elem? && cur.e < |envs| && envs[cur.e].status == Runnable)
        && (ret != Panic && (op.SetStatus? ==> InScope(old(Abs()), op)) ==> Valid())
      ensures op.Destroy? && ret != Panic ==> (ret != Fault && Intact() <==> DestroySafe(old(Abs()), old(runq.P()), op.envid))
      ensures op.Yield? ==> old(list) != [] && HandsOver(old(Abs()), Abs(), old(list)[1..] + old(list)[..1])
    {
      if op.Yield? {
        YieldRotates(Abs());
      }
      hide Inv, QueueOf, AllPresent, EditAll, Breakable, Threatens, Harmless, HandsOver;
      if op.Destroy? {
        DestroyGoes(Abs(), op.envid);
        ret := EnvDestroy(op.envid);
      } else if op.SetStatus? {
        StatusGoes(Abs(), op.envid, op.status);
        ret := SetEnvStatus(op.envid, op.status);
      } else {
        ret := EnterPlain(op);
      }
    }

    method EnterPlain(op: Op) returns (ret: Ret)
      requires Valid() && Callable(Abs(), op) && !op.SetStatus? && !op.Destroy?
      modifies this, runq
      ensures old(cur.Elem?) ==> old(cur).e < NENV
      ensures Did(old(runq.P()), Edits(old(Abs()), op)) && (Abs(), ret) == Step(old(Abs()), op) && ret != Fault
      ensures Linked() && ListRight(Abs()) && (ret != Panic ==> Valid())
      ensures ret == Gone ==> cur.Elem? && cur.e < |envs| && envs[cur.e].status == Runnable
    {
      StepKeeps(Abs(), op);
      PlainFacts(Abs(), op);
      assert |envs| == NENV && |runq.next| == NENV;
      hide Inv, AlmostInv, Sched.Schedule, ListRight, QueueOf, AllPresent, Edited, Drop;
      hide DoRecv, DoSend, DoExofork, DoCreate, SchedEdits, Envid2Env, RecvOk;
      match op
      case Tick => ret := Schedule(false);
      case Yield => ret := Schedule(true);
      case Recv(dstva, legal) => ret := IpcRecv(dstva, legal);
      case Send(envid, value, perm, page) => ret := IpcTrySend(envid, value, perm, page);
      case Exofork(slot) => ret := Exofork(slot);
      case Create(slot, pri) => ret := EnvCreate(slot, pri);
    }
  }

  lemma YieldRotates(s: State)
    requires Inv(s) && s.cur.Elem?
    ensures s.cur.e < NENV && s.queue != [] && HandsOver(s, Step(s, Yield).0, s.queue[1..] + s.queue[..1])
  {
    var c := s.cur.e;
    assert s.queue == [c] + s.queue[1..] && s.queue[..1] == [c];
    YieldGives(s, c, s.queue[1..]);
  }

  lemma PlainFacts(s: State, op: Op)
    requires Inv(s) && Callable(s, op) && !op.SetStatus? && !op.Destroy?
    ensures AlmostInv(s) && InScope(s, op) && (s.cur.Elem? ==> s.cur.e < NENV && s.envs[s.cur.e].status == Runnable)
    ensures Step(s, op).1 != Fault
  {
    if s.cur.Elem? {
      CurIsRunnable(s);
    }
  }

  lemma DestroyGoes(s: State, envid: nat)
    requires Inv(s) && s.cur.Elem?
    ensures |s.envs| == NENV && s.cur.e < NENV
    ensures var (r, ret) := DoDestroy(s, envid); ret == Gone ==> r.cur.Elem? && r.cur.e < |r.envs| && r.envs[r.cur.e].status == Runnable
  {
    StepKeeps(s, Destroy(envid));
  }

  lemma StatusGoes(s: State, envid: nat, status: Status)
    requires Inv(s) && s.cur.Elem?
    ensures |s.envs| == NENV && s.cur.e < NENV && DoSetStatus(s, envid, status).1 !in {Gone, Panic, Fault}
  {
    CurIsRunnable(s);
  }

  lemma FirstIs(q: Ptrs, s: seq<nat>)
    requires QueueOf(q, s)
    ensures q.first == LinkAt(s, 0)
  {
  }

  lemma RotatedInRange(s: State)
    requires AlmostInv(s)
    ensures var q := Rotated(s); (s.cur.Nil? ==> q == s.queue) && (q != [] ==> q[0] < |s.envs|)
  {
    if s.cur.Elem? {
      DropMembers(s.queue, s.cur.e);
    }
    assert forall x: nat :: x in Rotated(s) ==> x < |s.envs|;
    assert Rotated(s) != [] ==> Rotated(s)[0] in Rotated(s);
  }

  lemma ReceiverLeft(s: State, dstva: nat)
    requires Inv(s) && s.cur.Elem? && s.cur.e < NENV
    ensures s.cur.e in s.queue && IndexOf(s.queue, s.cur.e) == 0 && |s.envs| == NENV
    ensures AlmostInv(Blocked(s, dstva))
  {
    DropMembers(s.queue, s.cur.e);
  }

  // The state that env_free leaves.
  ghost function Freed(s: State, e: nat): State
    requires e < |s.envs|
  {
    Put(s.(queue := Drop(s.queue, e)), e, s.envs[e].(status := FreeEnv))
  }

  lemma DestroyIs(s: State, envid: nat, e: nat)
    requires s.cur.Elem? && s.cur.e < |s.envs| && e < |s.envs| && Envid2Env(s.envs, s.cur, envid, true) == Elem(e)
    ensures DoDestroy(s, envid) ==
      if s.cur == Elem(e) then Sched.Schedule(Freed(s, e).(cur := Nil), true) else (Freed(s, e), Ok)
    ensures DoDestroy(s, envid).1 != Fault
  {
  }

  lemma DestroyedIs(s: State, r: State, ret: Ret, e: nat)
    requires Destroyed(s, r, ret, e)
    ensures |r.envs| == |s.envs| && e < |s.envs| && r.envs[e].status == FreeEnv && ret in {Ok, Gone, Panic}
  {
  }

  // Whom sys_set_env_status acts on.
  lemma StatusPermitted(s: State, envid: nat, status: Status)
    requires Inv(s) && s.cur.Elem?
    ensures Calling(s)
    ensures var (r, ret) := DoSetStatus(s, envid, status);
      && (ret == Ok <==> status in {Runnable, NotRunnable} && exists e: nat :: Targets(s, envid, e))
      && forall e: nat :: Names(s, envid, e) && status in {Runnable, NotRunnable} ==>
           if May(s, e) then ret == Ok && r.envs == s.envs[e := s.envs[e].(status := status)]
           else ret == BadEnv && r == s
  {
    CurIsRunnable(s);
    SetStatusPermission(s, envid, status);
    assert forall e: nat :: Names(s, envid, e) && May(s, e) ==> Targets(s, envid, e);
    assert Step(s, SetStatus(envid, status)) == DoSetStatus(s, envid, status);
    hide Targets, Names, May, DoSetStatus, Step, Inv;
  }

  lemma VictimLeft(s: State, e: nat)
    requires Inv(s) && e < |s.envs| && s.envs[e].status == Runnable
    ensures e in s.queue && Freed(s, e).cur == s.cur && (s.cur == Elem(e) ==> AlmostInv(Freed(s, e).(cur := Nil)))
  {
    DropMembers(s.queue, e);
  }

  // The target of a destruction is runnable, or its removal goes unnoticed.
  ghost predicate DestroySafe(s: State, q: Ptrs, envid: nat)
    requires |s.envs| == |q.next| && AllPresent(q)
  {
    var t := Envid2Env(s.envs, s.cur, envid, true);
    t.Elem? && t.e < |s.envs| ==>
      || s.envs[t.e].status == Runnable
      || (!q.prev[t.e].Null? && Harmless(q, s.queue, t.e))
  }

  /** TAILQ_REMOVE of an env that is not queued, as far as the run list is concerned. */
  lemma StrangerDestroyed(s: State, q: Ptrs, envid: nat, e: nat)
    requires Inv(s) && s.cur.Elem? && s.cur.e < NENV && QueueOf(q, s.queue) && AllPresent(q) && |q.next| == NENV
    requires Envid2Env(s.envs, s.cur, envid, true) == Elem(e) && e < NENV && s.envs[e].status == NotRunnable
    ensures Present(q, e)
    ensures var (r, ok) := TryRemove(q, e); var u := Put(s, e, s.envs[e].(status := FreeEnv));
      && (DestroySafe(s, q, envid) ==>
            ok && QueueOf(r, s.queue) && AllPresent(r) && |r.next| == NENV && Inv(u) && (u, Ok) == DoDestroy(s, envid))
      && (ok && (exists l :: QueueOf(r, l) && ListRight(u.(queue := l))) <==> DestroySafe(s, q, envid))
  {
    DestroyUnqueued(s, envid, e);
    RemoveStrangerExact(q, s.queue, e);
    var (r, ok) := TryRemove(q, e);
    var u := Put(s, e, s.envs[e].(status := FreeEnv));
    if ok {
      RemovePresent(q, e);
      RemoveFields(q, e);
      assert u.(queue := s.queue) == u;
      forall l | QueueOf(r, l) && ListRight(u.(queue := l)) ensures l == s.queue {
        assert forall x: nat :: x in l <==> x in s.queue;
        NoOtherOrder(q, s.queue, e, l);
      }
      hide QueueOf, TryRemove, Envid2Env, Harmless, DoDestroy;
      assert DestroySafe(s, q, envid) <==> Harmless(q, s.queue, e);
    }
  }

  lemma StatusExact(s: State, envid: nat, status: Status)
    requires Inv(s) && s.cur.Elem? && s.cur.e < NENV
    ensures Inv(DoSetStatus(s, envid, status).0) <==> InScope(s, SetStatus(envid, status))
  {
    var t := Envid2Env(s.envs, s.cur, envid, true);
    if t.Elem? && status != FreeEnv {
      CurIsRunnable(s);
      SetStatusExact(s, envid, status);
    }
  }
}
