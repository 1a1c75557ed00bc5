/**
 * What the kernel entries of module Sched promise their callers, without reference to the functions
 * that compute it: whom a call acts on, when it refuses, and who runs next.
 */
module Entries {
  import opened TailQueue
  import opened Sched

  // ------------------------------------------------------------------ whom an identifier means

  // envid is the identifier of the live env in slot e.
  predicate Names(s: State, envid: nat, e: nat) {
    envid != 0 && e < |s.envs| && envid % 1024 == e && s.envs[e].id == envid && s.envs[e].status in {Runnable, NotRunnable}
  }

  // The current env may act on itself and on its children.
  predicate May(s: State, e: nat) {
    s.cur.Elem? && s.cur.e < |s.envs| && e < |s.envs| && (e == s.cur.e || s.envs[e].parent == s.envs[s.cur.e].id)
  }

  // A call with this identifier, 0 meaning the caller, is for e.
  predicate Targets(s: State, envid: nat, e: nat) {
    if envid == 0 then s.cur == Elem(e) else Names(s, envid, e) && May(s, e)
  }

  // Everybody may send to a live env.
  predicate Reaches(s: State, envid: nat, e: nat) {
    if envid == 0 then s.cur == Elem(e) else Names(s, envid, e)
  }

  predicate Calling(s: State) { |s.envs| == NENV && s.cur.Elem? && s.cur.e < NENV }

  lemma TargetFound(s: State, envid: nat)
    requires Calling(s)
    ensures forall e :: Targets(s, envid, e) <==> Envid2Env(s.envs, s.cur, envid, true) == Elem(e)
    ensures forall e :: Reaches(s, envid, e) <==> Envid2Env(s.envs, s.cur, envid, false) == Elem(e)
  {
  }

  /**
   * sys_set_env_status acts on the env that the identifier names if and only if that is the caller or
   * its child. Otherwise, and if it names nobody, the call answers BadEnv and changes nothing.
   */
  lemma SetStatusPermission(s: State, envid: nat, status: Status)
    requires Calling(s)
    ensures var (r, ret) := Step(s, SetStatus(envid, status));
      && (ret == Inval <==> status !in {Runnable, NotRunnable})
      && (ret == Ok <==> status in {Runnable, NotRunnable} && exists e: nat :: Targets(s, envid, e))
      && (ret == Inval || ret == BadEnv || ret == Ok) && (ret != Ok ==> r == s)
      && (forall e: nat :: Names(s, envid, e) && status in {Runnable, NotRunnable} ==> if May(s, e) then ret == Ok else ret == BadEnv)
      && (forall e: nat :: ret == Ok && Targets(s, envid, e) ==>
            && r.envs == s.envs[e := s.envs[e].(status := status)] && r == s.(envs := r.envs, queue := r.queue)
            && r.queue == if (status == Runnable) == (s.envs[e].status == Runnable) then s.queue
                          else if status == Runnable then s.queue + [e] else Drop(s.queue, e))
  {
    TargetFound(s, envid);
    hide Drop, Envid2Env, Targets;
  }

  /** sys_env_destroy: the same condition; the env is freed and leaves the list. */
  lemma DestroyPermission(s: State, envid: nat)
    requires Inv(s) && Calling(s)
    ensures var (r, ret) := Step(s, Destroy(envid));
      && (ret == BadEnv <==> !exists e: nat :: Targets(s, envid, e)) && (ret == BadEnv ==> r == s)
      && (forall e: nat :: Names(s, envid, e) ==> (ret != BadEnv <==> May(s, e)))
      && (forall e: nat :: Targets(s, envid, e) ==> Destroyed(s, r, ret, e))
  {
    TargetFound(s, envid);
    assert forall e: nat :: Names(s, envid, e) ==> (May(s, e) <==> Targets(s, envid, e));
    var t := Envid2Env(s.envs, s.cur, envid, true);
    if t.Elem? {
      assert Targets(s, envid, t.e);
      DestroyGives(s, envid, t.e);
    }
    hide Envid2Env, Targets, Names, May, DoDestroy, Destroyed;
  }

  // What becomes of the destroyed env e.
  ghost predicate Destroyed(s: State, r: State, ret: Ret, e: nat) {
    && |r.envs| == |s.envs| && e < |s.envs| && r.envs[e].status == FreeEnv && e !in r.queue
    && (forall x: nat :: x < |s.envs| && x != e && (Elem(e) != s.cur || Elem(x) != r.cur) ==> r.envs[x] == s.envs[x])
    && (forall x: nat :: x != e ==> (x in r.queue <==> x in s.queue))
    && (if Elem(e) != s.cur then ret == Ok && r.cur == s.cur && r.count == s.count
        else if s.queue == [e] then ret == Panic else s.queue != [] && ret == Gone && HandsOver(s, r, s.queue[1..]))
  }

  lemma DestroyGives(s: State, envid: nat, e: nat)
    requires Inv(s) && Calling(s) && Envid2Env(s.envs, s.cur, envid, true) == Elem(e) && e < NENV
    ensures Destroyed(s, DoDestroy(s, envid).0, DoDestroy(s, envid).1, e)
  {
    hide Envid2Env, Inv;
    if Elem(e) == s.cur {
      DestroySelf(s, e);
    } else {
      DestroyOther(s, e);
    }
    hide Drop, Destroyed, Schedule;
  }

  lemma DestroyOther(s: State, e: nat)
    requires Inv(s) && s.cur != Elem(e) && e < NENV
    ensures Destroyed(s, Put(s.(queue := Drop(s.queue, e)), e, s.envs[e].(status := FreeEnv)), Ok, e)
  {
    DropMembers(s.queue, e);
    hide Drop;
  }

  lemma DestroySelf(s: State, e: nat)
    requires Inv(s) && s.cur == Elem(e) && e < NENV
    ensures var (r, ret) := Schedule(Put(s.(queue := Drop(s.queue, e)), e, s.envs[e].(status := FreeEnv)).(cur := Nil), true);
      Destroyed(s, r, ret, e)
  {
    var s1 := Put(s.(queue := Drop(s.queue, e)), e, s.envs[e].(status := FreeEnv)).(cur := Nil);
    DropMembers(s.queue, e);
    DropHead(s.queue, e);
    assert s1.queue == s.queue[1..] == Rotated(s1) && |s.envs| == NENV;
    if s1.queue != [] {
      assert s1.queue[0] in s1.queue && s1.queue[0] in s.queue && s1.queue[0] != e;
      hide Inv, Drop, Rotated;
      NextRuns(s1, true);
    } else {
      assert s.queue == [e];
    }
  }

  // schedule, when it must pick another env and there is one.
  lemma NextRuns(s: State, force: bool)
    requires Switches(s, force) && Rotated(s) != [] && Rotated(s)[0] < |s.envs|
    ensures var (r, ret) := Schedule(s, force);
      && ret == Gone && HandsOver(s, r, Rotated(s)) && r == s.(queue := r.queue, cur := r.cur, count := r.count, envs := r.envs)
      && |r.envs| == |s.envs| && forall x :: 0 <= x < |s.envs| && x != Rotated(s)[0] ==> r.envs[x] == s.envs[x]
  {
    hide Rotated;
  }

  // ------------------------------------------------------------------ who runs next

  // The list is q, and its first env has been given the processor for a whole slice.
  predicate HandsOver(s: State, r: State, q: seq<nat>) {
    && q != [] && q[0] < |s.envs| && r.queue == q && r.cur == Elem(q[0]) && r.count == s.envs[q[0]].pri - 1
    && q[0] < |r.envs| && r.envs[q[0]] == s.envs[q[0]].(runs := s.envs[q[0]].runs + 1)
  }

  /** sys_yield: the caller goes behind everybody else, and the next env gets a whole slice. */
  lemma YieldGives(s: State, c: nat, rest: seq<nat>)
    requires Inv(s) && s.cur == Elem(c) && s.queue == [c] + rest
    ensures Calling(s)
    ensures var (r, ret) := Step(s, Yield);
      && ret == Gone && HandsOver(s, r, rest + [c]) && (rest != [] ==> r.cur != s.cur)
      && r == s.(queue := r.queue, cur := r.cur, count := r.count, envs := r.envs) && |r.envs| == NENV
      && (forall x :: 0 <= x < NENV && Elem(x) != r.cur ==> r.envs[x] == s.envs[x])
  {
    CurIsRunnable(s);
    DropHead(s.queue, c);
    assert s.queue[1..] == rest && Rotated(s) == rest + [c];
    if rest != [] {
      assert rest[0] == s.queue[1] && s.queue[1] in s.queue;
    }
    hide Inv, Drop, Rotated;
    NextRuns(s, true);
  }

  /** A tick within the slice changes nothing but the slice; at its end it is a yield. */
  lemma TickExact(s: State)
    requires Inv(s) && Calling(s)
    ensures var (r, ret) := Step(s, Tick);
      if s.count > 0 then
        && ret == Gone && r.cur == s.cur && r.queue == s.queue && r.count == s.count - 1 && r.made == s.made
        && r.envs == s.envs[s.cur.e := s.envs[s.cur.e].(runs := s.envs[s.cur.e].runs + 1)]
      else
        (r, ret) == Step(s, Yield)
  {
    CurIsRunnable(s);
  }

  /** sys_ipc_recv: an illegal address is refused; else the caller leaves the list and the next env runs. */
  lemma RecvGives(s: State, dstva: nat, legal: bool)
    requires Inv(s) && Calling(s)
    ensures var (r, ret) := Step(s, Recv(dstva, legal)); var c := s.cur.e;
      if dstva != 0 && !legal then ret == Inval && r == s
      else
        && |r.envs| == NENV && r.envs[c].recving && r.envs[c].status == NotRunnable && r.envs[c].dstva == dstva
        && (forall x :: 0 <= x < NENV && x != c && (ret == Panic || Elem(x) != r.cur) ==> r.envs[x] == s.envs[x])
        && (if s.queue == [c] then ret == Panic && r.queue == []
            else ret == Gone && HandsOver(s, r, s.queue[1..]))
  {
    CurIsRunnable(s);
    if dstva == 0 || legal {
      DropHead(s.queue, s.cur.e);
      BlockedGives(s, dstva);
    }
    hide Drop, Schedule, Inv;
  }

  lemma BlockedGives(s: State, dstva: nat)
    requires Inv(s) && Calling(s)
    ensures s.queue != []
    ensures var c := s.cur.e;
      var s1 := Put(s.(queue := s.queue[1..]), c, s.envs[c].(recving := true, dstva := dstva, status := NotRunnable));
      var (r, ret) := Schedule(s1, true);
      && |r.envs| == NENV && r.envs[c].recving && r.envs[c].status == NotRunnable && r.envs[c].dstva == dstva
      && (forall x :: 0 <= x < NENV && x != c && (ret == Panic || Elem(x) != r.cur) ==> r.envs[x] == s.envs[x])
      && (if s.queue == [c] then ret == Panic && r.queue == []
          else ret == Gone && HandsOver(s, r, s.queue[1..]))
  {
    var c := s.cur.e;
    var s1 := Put(s.(queue := s.queue[1..]), c, s.envs[c].(recving := true, dstva := dstva, status := NotRunnable));
    assert c !in s.queue[1..];
    DropAbsent(s.queue[1..], c);
    assert Rotated(s1) == s1.queue;
    if s1.queue != [] {
      assert s1.queue[0] == s.queue[1] && s.queue[1] in s.queue && s.queue[1] < NENV && s.queue[1] != c;
      hide Inv, Drop, Rotated;
      NextRuns(s1, true);
      hide Schedule;
    }
  }

  /**
   * sys_ipc_try_send, with the order of its errors: an illegal address, an identifier that names
   * nobody, an env that is not receiving. None of them changes anything. Else the message is there
   * and the receiver is at the end of the list.
   */
  lemma SendExact(s: State, envid: nat, value: nat, perm: nat, page: PageArg)
    requires Calling(s)
    ensures var (r, ret) := Step(s, Send(envid, value, perm, page));
      && (page == BadVa ==> ret == Inval && r == s)
      && (page != BadVa && (forall e: nat :: !Reaches(s, envid, e)) ==> ret == BadEnv && r == s)
      && (forall e: nat :: page != BadVa && Reaches(s, envid, e) ==>
            if !s.envs[e].recving then ret == NotRecv && r == s
            else
              && r.queue == s.queue + [e] && r.envs == s.envs[e := r.envs[e]] && r == s.(queue := r.queue, envs := r.envs)
              && r.envs[e] == s.envs[e].(value := value, from := s.envs[s.cur.e].id, perm := perm, recving := false, status := Runnable)
              && ret == match page case Unmapped => Inval case NoRoom => NoMem case _ => Ok)
  {
    TargetFound(s, envid);
    hide Envid2Env;
  }

  // ------------------------------------------------------------------ children

  /**
   * sys_exofork: a child that cannot run yet, with its creator's priority, under a new identifier. As
   * long as that is not 0 and the child is alive, its creator may start, stop and destroy it.
   */
  lemma ExoforkChild(s: State, slot: nat)
    requires Inv(s) && Calling(s) && slot < NENV && s.envs[slot].status == FreeEnv
    ensures var (r, ret) := Step(s, Exofork(slot)); var c := s.cur.e;
      && ret.NewId? && slot != c && r.queue == s.queue && r.cur == s.cur && r.count == s.count
      && r.envs == s.envs[slot := r.envs[slot]]
      && r.envs[slot].status == NotRunnable && r.envs[slot].pri == s.envs[c].pri && r.envs[slot].runs == 0
      && r.envs[slot].parent == s.envs[c].id && r.envs[slot].id == ret.id && ret.id % 1024 == slot
      && (ret.id != 0 ==>
            && Targets(r, ret.id, slot)
            && Step(r, SetStatus(ret.id, Runnable)).1 == Ok && Step(r, SetStatus(ret.id, NotRunnable)).1 == Ok
            && Step(r, Destroy(ret.id)).1 == Ok)
  {
    CurIsRunnable(s);
    IdIndex(s.made + 1, slot);
    hide EnvId;
    var (r, ret) := Step(s, Exofork(slot));
    TargetFound(r, ret.id);
    hide Drop, Envid2Env;
    assert ret.id != 0 ==> Targets(r, ret.id, slot);
  }

  /** The parent of a child does not change while other entries run, until its slot is reused. */
  lemma ParentStays(s: State, op: Op, e: nat)
    requires Inv(s) && Callable(s, op) && (s.cur.Elem? ==> s.cur.e < NENV) && e < NENV
    requires (op.Exofork? || op.Create?) ==> op.slot != e
    ensures var r := Step(s, op).0;
      |r.envs| == NENV && r.envs[e].parent == s.envs[e].parent && r.envs[e].id == s.envs[e].id && r.envs[e].pri == s.envs[e].pri
  {
    hide Drop;
    match op
    case Tick => ScheduleIpc(s, false, e);
    case Yield => ScheduleIpc(s, true, e);
    case Recv(dstva, legal) =>
      if dstva == 0 || legal {
        var c := s.cur.e;
        var s1 := Put(s, c, s.envs[c].(recving := true, dstva := dstva, status := NotRunnable));
        ScheduleIpc(s1.(queue := Drop(s1.queue, c)), true, e);
      }
    case Send(envid, value, perm, page) =>
    case SetStatus(envid, status) =>
    case Exofork(slot) =>
    case Destroy(envid) =>
      var t := Envid2Env(s.envs, s.cur, envid, true);
      if t == s.cur {
        var s1 := Put(s.(queue := Drop(s.queue, t.e)), t.e, s.envs[t.e].(status := FreeEnv));
        ScheduleIpc(s1.(cur := Nil), true, e);
      }
    case Create(slot, pri) =>
  }

  /** env_create, before the first env runs: the new env heads the list, has no parent, and can run. */
  lemma CreateExact(s: State, slot: nat, pri: nat)
    requires Inv(s) && Callable(s, Create(slot, pri))
    ensures var (r, ret) := Step(s, Create(slot, pri));
      && ret.NewId? && r.queue == [slot] + s.queue && r.cur == s.cur && r.envs == s.envs[slot := r.envs[slot]]
      && r.envs[slot].status == Runnable && r.envs[slot].pri == pri && r.envs[slot].parent == 0
      && r.envs[slot].id == ret.id && ret.id % 1024 == slot
  {
    IdIndex(s.made + 1, slot);
    hide EnvId;
  }

  /** Two identifiers are the same exactly for the same slot and counters that are 2^21 apart or not at all. */
  lemma IdsDistinct(n: nat, e: nat, m: nat, f: nat)
    requires e < NENV && f < NENV
    ensures EnvId(n, e) == EnvId(m, f) <==> e == f && n % 0x20_0000 == m % 0x20_0000
  {
    IdSplit(n, e);
    IdSplit(m, f);
    hide EnvId;
  }

  lemma IdSplit(n: nat, e: nat)
    ensures EnvId(n, e) == 2048 * (n % 0x20_0000) + e
  {
    var k, m := n / 0x20_0000, n % 0x20_0000;
    assert n * 2048 == 0x1_0000_0000 * k + 2048 * m;
    ModWord(k, 2048 * m);
  }

  /**
   * Identifiers that the slot had before name nobody once it is reused, until the counter has gone
   * round: sys_exofork counts each child.
   */
  lemma OldIdGone(s: State, slot: nat, m: nat)
    requires Calling(s) && slot < NENV && s.envs[slot].status == FreeEnv
    requires m <= s.made && s.made + 1 < m + 0x20_0000
    ensures var (r, ret) := Step(s, Exofork(slot));
      && r.made == s.made + 1 && ret == NewId(EnvId(s.made + 1, slot))
      && forall e :: !Names(r, EnvId(m, slot), e)
  {
    IdsDistinct(m, slot, s.made + 1, slot);
    IdIndex(m, slot);
    hide EnvId;
  }
}
