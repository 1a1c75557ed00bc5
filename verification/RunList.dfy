/**
 * What is really at stake with env_sched_list: the list holds exactly the runnable envs, and its
 * pointers spell it out. This module tells, call by call, after which sys_set_env_status some further
 * kernel entries can break the list, at pointer level.
 */
module RunList {
  import opened TailQueue
  import opened Sched

  // ------------------------------------------------------------------ what an entry does to the pointers

  datatype Edit = Add(e: nat) | Take(e: nat) | Front(e: nat)

  predicate CanEdit(q: Ptrs, d: Edit) {
    match d
    case Take(e) => Present(q, e)
    case Add(e) => e < |q.next| == |q.prev| && LocOk(q, q.last)
    case Front(e) => e < |q.next| == |q.prev| && (q.first.Elem? ==> q.first.e < |q.prev|)
  }

  function Edited(q: Ptrs, d: Edit): (Ptrs, bool) {
    if !CanEdit(q, d) then (q, false)
    else
      match d
      case Take(e) => TryRemove(q, e)
      case Add(e) => (InsertTail(q, e), true)
      case Front(e) => (InsertHead(q, e), true)
  }

  // false if one of them faults
  function EditAll(q: Ptrs, ds: seq<Edit>): (Ptrs, bool)
    decreases |ds|
  {
    if ds == [] then (q, true)
    else
      var (p, ok) := Edited(q, ds[0]);
      if ok then EditAll(p, ds[1..]) else (p, false)
  }

  lemma EditOne(q: Ptrs, d: Edit)
    ensures EditAll(q, [d]) == Edited(q, d)
  {
    hide Edited;
    assert [d][1..] == [];
  }

  lemma EditTwo(q: Ptrs, d: Edit, e: Edit)
    ensures EditAll(q, [d, e]) == if Edited(q, d).1 then Edited(Edited(q, d).0, e) else Edited(q, d)
  {
    hide Edited;
    assert [d, e][1..] == [e];
    EditOne(Edited(q, d).0, e);
  }

  // schedule takes the current env off the list, queued or not, and puts it back if it can run.
  function SchedEdits(s: State, force: bool): seq<Edit> {
    if !Switches(s, force) || s.cur.Nil? then []
    else if s.cur.e < |s.envs| && s.envs[s.cur.e].status == Runnable then [Take(s.cur.e), Add(s.cur.e)]
    else [Take(s.cur.e)]
  }

  function Edits(s: State, op: Op): seq<Edit>
    requires Callable(s, op)
  {
    match op
    case Tick => SchedEdits(s, false)
    case Yield => SchedEdits(s, true)
    case Recv(dstva, legal) =>
      if dstva != 0 && !legal then [] else [Take(s.cur.e), Take(s.cur.e)]
    case Send(envid, _, _, page) =>
      var t := Envid2Env(s.envs, s.cur, envid, false);
      if page.BadVa? || t.Nil? || t.e >= |s.envs| || !s.envs[t.e].recving then [] else [Add(t.e)]
    case SetStatus(envid, status) => StatusEdits(s, envid, status)
    case Exofork(_) => []
    case Destroy(envid) =>
      var t := Envid2Env(s.envs, s.cur, envid, true);
      if t.Nil? then [] else [Take(t.e)]
    case Create(slot, _) => [Front(slot)]
  }

  function StatusEdits(s: State, envid: nat, status: Status): seq<Edit> {
    var t := Envid2Env(s.envs, s.cur, envid, true);
    if status == FreeEnv || t.Nil? || t.e >= |s.envs| then []
    else if status == Runnable && s.envs[t.e].status != Runnable then [Add(t.e)]
    else if status != Runnable && s.envs[t.e].status == Runnable then [Take(t.e)]
    else []
  }

  // A fault, or pointers that spell out no list of exactly the runnable envs.
  ghost predicate Broken(s: State, q: Ptrs, ok: bool) {
    !ok || !exists l :: QueueOf(q, l) && ListRight(s.(queue := l))
  }

  /** Along these kernel entries, each in scope where it happens, the list breaks. */
  ghost predicate BreaksOn(s: State, q: Ptrs, ops: seq<Op>)
    decreases |ops|
  {
    && ops != [] && |s.envs| == NENV && (s.cur.Elem? ==> s.cur.e < NENV) && InScope(s, ops[0])
    && var (r, ret) := Step(s, ops[0]); var (p, ok) := EditAll(q, Edits(s, ops[0]));
       Broken(r, p, ok) || (ret != Panic && BreaksOn(r, p, ops[1..]))
  }

  ghost predicate Breakable(s: State, q: Ptrs) { exists ops :: BreaksOn(s, q, ops) }

  // ------------------------------------------------------------------ right after the call

  // The list and its pointers.
  ghost predicate Spelled(s: State, q: Ptrs) {
    ListRight(s) && QueueOf(q, s.queue) && AllPresent(q) && |q.next| == NENV
  }

  lemma SpelledNotBroken(s: State, q: Ptrs)
    requires Spelled(s, q)
    ensures !Broken(s, q, true)
  {
    assert s.(queue := s.queue) == s;
  }

  lemma AddSpelled(q: Ptrs, l: seq<nat>, e: nat)
    requires QueueOf(q, l) && AllPresent(q) && e < |q.next| && e !in l
    ensures Edited(q, Add(e)).1 && var p := Edited(q, Add(e)).0;
      QueueOf(p, l + [e]) && AllPresent(p) && |p.next| == |q.next|
      && forall x: nat :: x !in l && x != e && x < |q.next| ==> p.next[x] == q.next[x] && p.prev[x] == q.prev[x]
  {
    InsertTailLinks(q, l, e);
    InsertPresent(q, e);
  }

  lemma TakeAside(q: Ptrs, l: seq<nat>, k: nat, x: nat)
    requires QueueOf(q, l) && k < |l| && x < |q.next| && x !in l
    ensures ElemOk(q, l[k])
    ensures var p := Remove(q, l[k]);
      |p.next| == |p.prev| == |q.next| && p.next[x] == q.next[x] && p.prev[x] == q.prev[x]
  {
    MemberOk(q, l, k);
    RemoveFields(q, l[k]);
    assert q.next[l[k]] == LinkAt(l, k + 1) && q.prev[l[k]] == LocBefore(l, k);
    hide Remove;
  }

  lemma TakeSpelled(q: Ptrs, l: seq<nat>, e: nat)
    requires QueueOf(q, l) && AllPresent(q) && e in l
    ensures Edited(q, Take(e)).1 && var p := Edited(q, Take(e)).0;
      QueueOf(p, Drop(l, e)) && AllPresent(p) && |p.next| == |q.next| && Detached(p, Drop(l, e), e, IndexOf(l, e))
      && forall x: nat :: x !in l && x < |q.next| ==> p.next[x] == q.next[x] && p.prev[x] == q.prev[x]
  {
    var k := IndexOf(l, e);
    RemoveMember(q, l, k);
    RemovePresent(q, e);
    RemoveFields(q, e);
    hide Remove, QueueOf, AllPresent, Detached;
    forall x: nat | x !in l && x < |q.next|
      ensures Remove(q, e).next[x] == q.next[x] && Remove(q, e).prev[x] == q.prev[x]
    {
      TakeAside(q, l, k, x);
    }
  }

  lemma TakeHead(q: Ptrs, l: seq<nat>)
    requires QueueOf(q, l) && AllPresent(q) && l != []
    ensures Edited(q, Take(l[0])).1 && Drop(l, l[0]) == l[1..] && var p := Edited(q, Take(l[0])).0;
      QueueOf(p, l[1..]) && AllPresent(p) && |p.next| == |q.next| && Detached(p, l[1..], l[0], 0)
      && forall x: nat :: x !in l && x < |q.next| ==> p.next[x] == q.next[x] && p.prev[x] == q.prev[x]
  {
    TakeSpelled(q, l, l[0]);
    DropHead(l, l[0]);
    assert IndexOf(l, l[0]) == 0;
    hide Edited, Drop, QueueOf, AllPresent, Detached;
  }

  lemma TakeAgain(q: Ptrs, l: seq<nat>, e: nat, k: nat)
    requires QueueOf(q, l) && Detached(q, l, e, k)
    ensures Edited(q, Take(e)) == (q, true)
  {
    RemoveAgain(q, l, e, k);
  }

  lemma StatusSpelled(s: State, q: Ptrs, envid: nat, status: Status)
    requires Spelled(s, q) && s.cur.Elem? && s.cur.e < NENV
    ensures var (p, ok) := EditAll(q, StatusEdits(s, envid, status)); ok && Spelled(DoSetStatus(s, envid, status).0, p)
  {
    StatusListRight(s, envid, status);
    var t := Envid2Env(s.envs, s.cur, envid, true);
    hide Envid2Env;
    var ds := StatusEdits(s, envid, status);
    if ds != [] {
      hide QueueOf, AllPresent, InsertTail, TryRemove, Drop;
      if ds == [Add(t.e)] {
        AddSpelled(q, s.queue, t.e);
      } else {
        TakeSpelled(q, s.queue, t.e);
      }
      assert ds[1..] == [];
    }
  }

  // Other elements outside the list keep their pointers.
  lemma StatusAside(s: State, q: Ptrs, envid: nat, status: Status, x: nat)
    requires Spelled(s, q) && s.cur.Elem? && s.cur.e < NENV && x < NENV && x !in s.queue
    requires Envid2Env(s.envs, s.cur, envid, true) != Elem(x)
    ensures var p := EditAll(q, StatusEdits(s, envid, status)).0;
      |p.next| == |p.prev| == NENV && p.next[x] == q.next[x] && p.prev[x] == q.prev[x]
  {
    var t := Envid2Env(s.envs, s.cur, envid, true);
    hide Envid2Env;
    var ds := StatusEdits(s, envid, status);
    if ds != [] {
      EditOne(q, ds[0]);
      assert ds == [ds[0]];
      if ds == [Add(t.e)] {
        AddSpelled(q, s.queue, t.e);
      } else {
        TakeSpelled(q, s.queue, t.e);
      }
      hide Edited, Drop;
    }
  }

  // ------------------------------------------------------------------ how a list breaks

  /** Inserting an element that is in the list already loses another one, or ties the list to itself. */
  lemma DoubleInsert(q: Ptrs, s: seq<nat>, e: nat, l: seq<nat>)
    requires QueueOf(q, s) && e in s && LocOk(q, q.last) && e < |q.next| && QueueOf(InsertTail(q, e), l)
    ensures !(forall x :: x in s ==> x in l)
  {
    var p := InsertTail(q, e);
    ForwardLink(p, l, |l|);
    ForwardLink(q, s, |s|);
    var k :| 0 <= k < |s| && s[k] == e;
    assert |l| > 0 && l[|l| - 1] == e && p.next[e] == Nil;
    assert k < |s| - 1;
    forall j | 0 <= j < k + 1 ensures LocOk(p, LocBefore(s, j)) && LocOk(q, LocBefore(s, j)) && Load(p, LocBefore(s, j)) == Load(q, LocBefore(s, j)) {
      ForwardLink(q, s, j);
    }
    SamePrefix(q, p, s, l, k + 1);
    assert l[k] == l[..k + 1][k] == e;
    assert |l| == k + 1;
    assert l == s[..k + 1];
    assert s[|s| - 1] !in l;
  }

  // The statuses decide which lists are right.
  lemma SameRunnable(s: State, r: State, l: seq<nat>)
    requires ListRight(s) && ListRight(r.(queue := l)) && |r.envs| == |s.envs|
    requires forall e :: 0 <= e < |s.envs| ==> (r.envs[e].status == Runnable <==> s.envs[e].status == Runnable)
    ensures forall x :: x in l <==> x in s.queue
  {
  }

  // Taking a stranger off whose stale pointers do not agree with the list.
  lemma StrangerBreaks(s: State, r: State, q: Ptrs, e: nat)
    requires Spelled(s, q) && e < NENV && e !in s.queue && !q.prev[e].Null? && Present(q, e) && !Harmless(q, s.queue, e)
    requires |r.envs| == |s.envs|
    requires forall x :: 0 <= x < |s.envs| ==> (r.envs[x].status == Runnable <==> s.envs[x].status == Runnable)
    ensures var (p, ok) := EditAll(q, [Take(e)]); Broken(r, p, ok)
  {
    EditOne(q, Take(e));
    var (p, ok) := TryRemove(q, e);
    RemoveStrangerExact(q, s.queue, e);
    forall l | QueueOf(p, l) && ListRight(r.(queue := l)) ensures false {
      SameRunnable(s, r, l);
      NoOtherOrder(q, s.queue, e, l);
    }
  }

  // The current env has been taken off the list, and is not back on it.
  ghost predicate Stopped(s: State, q: Ptrs) {
    && Spelled(s, q) && s.cur.Elem? && s.cur.e < NENV
    && s.envs[s.cur.e].status == NotRunnable && !s.envs[s.cur.e].recving
  }

  // Its pointers are those of a former head of the list, and the list has another head by now.
  lemma YieldBreaks(s: State, q: Ptrs)
    requires Stopped(s, q) && q.prev[s.cur.e] == Head && q.next[s.cur.e] != LinkAt(s.queue, 0)
    ensures BreaksOn(s, q, [Yield])
  {
    var c := s.cur.e;
    DropAbsent(s.queue, c);
    var (r, ret) := Step(s, Yield);
    assert !Harmless(q, s.queue, c);
    assert Edits(s, Yield) == [Take(c)];
    StrangerBreaks(s, r, q, c);
  }

  // ------------------------------------------------------------------ what a stopped env can do

  // It can put some env on the empty list: start a child, send to a receiver, or make a new child
  // and do that to it.
  ghost predicate CanQueue(s: State)
    requires |s.envs| == NENV
  {
    || (exists envid :: CanStart(s, envid))
    || (exists envid :: CanWake(s, envid))
    || (exists slot :: CanMake(s, slot))
  }

  predicate CanStart(s: State, envid: nat)
    requires |s.envs| == NENV
  {
    var t := Envid2Env(s.envs, s.cur, envid, true);
    t.Elem? && t != s.cur && t.e < NENV && s.envs[t.e].status == NotRunnable && !s.envs[t.e].recving
  }

  predicate CanWake(s: State, envid: nat)
    requires |s.envs| == NENV
  {
    var t := Envid2Env(s.envs, s.cur, envid, false);
    t.Elem? && t.e < NENV && s.envs[t.e].recving
  }

  // An identifier 0 is of no use to the parent.
  predicate CanMake(s: State, slot: nat)
    requires |s.envs| == NENV
  {
    slot < NENV && s.envs[slot].status == FreeEnv && EnvId(s.made + 1, slot) != 0
  }

  // It can stop or destroy e.
  ghost predicate CanStop(s: State, e: nat) {
    exists envid :: Envid2Env(s.envs, s.cur, envid, true) == Elem(e)
  }

  ghost predicate Loose(s: State, q: Ptrs) {
    Stopped(s, q) && Detached(q, s.queue, s.cur.e, 0)
  }

  // One more entry first.
  lemma BreaksLater(s: State, q: Ptrs, op: Op, ops: seq<Op>)
    requires |s.envs| == NENV && (s.cur.Elem? ==> s.cur.e < NENV) && InScope(s, op) && Step(s, op).1 != Panic
    requires BreaksOn(Step(s, op).0, EditAll(q, Edits(s, op)).0, ops)
    ensures BreaksOn(s, q, [op] + ops)
  {
    hide Step, Edits, InScope, Broken;
    assert ([op] + ops)[1..] == ops;
  }

  // Somebody joins the empty list.
  lemma JoinBreaks(s: State, q: Ptrs, op: Op, e: nat)
    requires Loose(s, q) && s.queue == [] && InScope(s, op) && Edits(s, op) == [Add(e)] && e < NENV && e != s.cur.e
    requires var (r, ret) := Step(s, op);
      && ret != Panic && ListRight(r) && r.queue == [e] && r.cur == s.cur
      && r.envs[s.cur.e].status == NotRunnable && !r.envs[s.cur.e].recving
    ensures BreaksOn(s, q, [op, Yield])
  {
    AddSpelled(q, [], e);
    EditOne(q, Add(e));
    assert [] + [e] == [e] && LinkAt([e], 0) == Elem(e);
    var (r, ret) := Step(s, op);
    var (p, ok) := EditAll(q, Edits(s, op));
    hide Step, Edits, InScope, Edited, QueueOf, AllPresent, ListRight;
    YieldBreaks(r, p);
    BreaksLater(s, q, op, [Yield]);
    assert [op] + [Yield] == [op, Yield];
  }

  lemma StartState(s: State, envid: nat)
    requires ListRight(s) && s.cur.Elem? && s.cur.e < NENV && s.queue == [] && CanStart(s, envid)
    ensures var e := Envid2Env(s.envs, s.cur, envid, true).e; var op := SetStatus(envid, Runnable);
      && InScope(s, op) && Edits(s, op) == [Add(e)]
      && var (r, ret) := Step(s, op);
         ret == Ok && r.queue == [e] && r.cur == s.cur && ListRight(r) && r.envs[s.cur.e] == s.envs[s.cur.e]
  {
    StatusListRight(s, envid, Runnable);
    hide Envid2Env, ListRight;
    assert [] + [Envid2Env(s.envs, s.cur, envid, true).e] == [Envid2Env(s.envs, s.cur, envid, true).e];
  }

  lemma StartBreaks(s: State, q: Ptrs, envid: nat)
    requires Loose(s, q) && s.queue == [] && CanStart(s, envid)
    ensures Breakable(s, q)
  {
    assert ListRight(s) && |s.envs| == NENV;
    StartState(s, envid);
    hide Spelled, ListRight, Detached, Envid2Env, Step, Edits, InScope, BreaksOn;
    JoinBreaks(s, q, SetStatus(envid, Runnable), Envid2Env(s.envs, s.cur, envid, true).e);
  }

  lemma WakeBreaks(s: State, q: Ptrs, envid: nat)
    requires Loose(s, q) && s.queue == [] && CanWake(s, envid) && RecvOk(s)
    ensures Breakable(s, q)
  {
    var e := Envid2Env(s.envs, s.cur, envid, false).e;
    var op := Send(envid, 0, 0, NoPage);
    var r := Step(s, op).0;
    assert ListRight(r);
    hide QueueOf, AllPresent, ListRight;
    JoinBreaks(s, q, op, e);
  }

  lemma MakeLoose(s: State, q: Ptrs, slot: nat)
    requires Loose(s, q) && CanMake(s, slot) && RecvOk(s)
    ensures Loose(DoExofork(s, slot).0, q)
  {
    var r := DoExofork(s, slot).0;
    hide QueueOf, AllPresent, EnvId;
    assert slot != s.cur.e && slot !in s.queue;
    assert ListRight(r);
  }

  lemma MakeBreaks(s: State, q: Ptrs, slot: nat)
    requires Loose(s, q) && s.queue == [] && CanMake(s, slot) && RecvOk(s)
    ensures Breakable(s, q)
  {
    var op, id := Exofork(slot), EnvId(s.made + 1, slot);
    MakeLoose(s, q, slot);
    IdIndex(s.made + 1, slot);
    hide EnvId, QueueOf, AllPresent, ListRight, Detached;
    var r := Step(s, op).0;
    assert Edits(s, op) == [] && EditAll(q, []) == (q, true);
    assert r.queue == [];
    if s.envs[slot].recving {
      WakeBreaks(r, q, id);
    } else {
      StartBreaks(r, q, id);
    }
    var ops :| BreaksOn(r, q, ops);
    BreaksLater(s, q, op, ops);
  }

  // The head of the list leaves.
  lemma UnheadState(s: State, envid: nat)
    requires ListRight(s) && s.cur.Elem? && s.cur.e < NENV && s.envs[s.cur.e].status == NotRunnable
    requires s.queue != [] && Envid2Env(s.envs, s.cur, envid, true) == Elem(s.queue[0])
    ensures var r, op := DoSetStatus(s, envid, NotRunnable).0, SetStatus(envid, NotRunnable);
      && InScope(s, op) && Step(s, op) == (r, Ok) && Edits(s, op) == StatusEdits(s, envid, NotRunnable)
      && |r.envs| == NENV && r.cur == s.cur && r.envs[s.cur.e] == s.envs[s.cur.e]
      && LinkAt(r.queue, 0) != LinkAt(s.queue, 0)
  {
    assert s.queue[0] in s.queue;
    DropHead(s.queue, s.queue[0]);
    hide Envid2Env, Drop;
  }

  lemma UnheadBreaks(s: State, q: Ptrs, envid: nat)
    requires Loose(s, q) && s.queue != [] && Envid2Env(s.envs, s.cur, envid, true) == Elem(s.queue[0])
    ensures Breakable(s, q)
  {
    assert q.next[s.cur.e] == LinkAt(s.queue, 0) && q.prev[s.cur.e] == Head && s.queue[0] != s.cur.e && s.cur.e !in s.queue;
    assert Spelled(s, q) && ListRight(s);
    hide ListRight, Spelled, Envid2Env, Detached, Step, Edits, InScope, DoSetStatus, EditAll, StatusEdits;
    var op := SetStatus(envid, NotRunnable);
    UnheadState(s, envid);
    StatusSpelled(s, q, envid, NotRunnable);
    StatusAside(s, q, envid, NotRunnable, s.cur.e);
    YieldBreaks(DoSetStatus(s, envid, NotRunnable).0, EditAll(q, StatusEdits(s, envid, NotRunnable)).0);
    BreaksLater(s, q, op, [Yield]);
  }

  /** A stopped env with such a way can break the list. */
  lemma LooseBreaks(s: State, q: Ptrs)
    requires Loose(s, q) && RecvOk(s) && (if s.queue == [] then CanQueue(s) else CanStop(s, s.queue[0]))
    ensures Breakable(s, q)
  {
    assert |s.envs| == NENV;
    hide RecvOk, CanStart, CanWake, CanMake, Envid2Env, Spelled, Detached;
    if s.queue != [] {
      var envid :| Envid2Env(s.envs, s.cur, envid, true) == Elem(s.queue[0]);
      UnheadBreaks(s, q, envid);
    } else if envid :| CanStart(s, envid) {
      StartBreaks(s, q, envid);
    } else if envid :| CanWake(s, envid) {
      WakeBreaks(s, q, envid);
    } else {
      var slot :| CanMake(s, slot);
      MakeBreaks(s, q, slot);
    }
  }

  /** A receiver that was started otherwise is queued once more at the next message. */
  lemma WokenBreaks(s: State, q: Ptrs, envid: nat)
    requires Spelled(s, q) && s.cur.Elem? && s.cur.e < NENV
    requires var t := Envid2Env(s.envs, s.cur, envid, false);
      t.Elem? && t.e < NENV && s.envs[t.e].recving && s.envs[t.e].status == Runnable
    ensures Breakable(s, q)
  {
    var e, op := Envid2Env(s.envs, s.cur, envid, false).e, Send(envid, 0, 0, NoPage);
    var (r, ret) := Step(s, op);
    assert e in s.queue;
    ForwardLink(q, s.queue, |s.queue|);
    assert Edits(s, op) == [Add(e)];
    EditOne(q, Add(e));
    var (p, ok) := EditAll(q, [Add(e)]);
    forall l | QueueOf(p, l) && ListRight(r.(queue := l)) ensures false {
      SameRunnable(s, r, l);
      DoubleInsert(q, s.queue, e, l);
    }
    assert BreaksOn(s, q, [op]);
  }

  // ------------------------------------------------------------------ where nothing can break

  // A stopped env that can neither give the list a first element nor take the first one away.
  ghost predicate Stuck(s: State, q: Ptrs) {
    Loose(s, q) && (if s.queue == [] then !CanQueue(s) else !CanStop(s, s.queue[0]))
  }

  /** Weaker than Inv: the current env can be anywhere in the list, or stopped with no way to do harm. */
  ghost predicate Sound(s: State, q: Ptrs) {
    && Spelled(s, q) && RecvOk(s) && NobodyYet(s)
    && (s.cur.Elem? ==> s.cur.e < NENV && (s.envs[s.cur.e].status == Runnable || Stuck(s, q)))
  }

  ghost predicate KeepsSound(s: State, q: Ptrs, op: Op) {
    && |s.envs| == NENV && (s.cur.Elem? ==> s.cur.e < NENV) && InScope(s, op)
    && var (r, ret) := Step(s, op); var (p, ok) := EditAll(q, Edits(s, op));
       ok && Spelled(r, p) && (ret != Panic ==> Sound(r, p))
  }

  ghost predicate Dispatched(s: State, q: Ptrs, ret: Ret) {
    && Spelled(s, q) && RecvOk(s)
    && (ret != Panic ==> s.cur.Elem? && s.cur.e < NENV && s.envs[s.cur.e].status == Runnable)
  }

  lemma RotatedRight(s: State, force: bool)
    requires ListRight(s) && RecvOk(s) && (s.cur.Elem? ==> s.cur.e < NENV)
    ensures var (r, ret) := Schedule(s, force);
      && ListRight(r) && RecvOk(r) && r.queue == (if Switches(s, force) then Rotated(s) else s.queue)
      && (ret != Panic ==> r.cur.Elem? && r.cur.e < NENV && r.envs[r.cur.e].status == Runnable)
  {
    if Switches(s, force) {
      if s.cur.Elem? {
        DropMembers(s.queue, s.cur.e);
      }
      hide Drop;
      var q := Rotated(s);
      assert forall e: nat :: e in q <==> e < |s.envs| && s.envs[e].status == Runnable;
      assert Distinct(q);
      assert q != [] ==> q[0] in q;
    }
  }

  lemma RotateSpelled(q: Ptrs, l: seq<nat>, e: nat)
    requires QueueOf(q, l) && AllPresent(q) && e in l && Distinct(l)
    ensures var (p, ok) := EditAll(q, [Take(e), Add(e)]);
      ok && QueueOf(p, Drop(l, e) + [e]) && AllPresent(p) && |p.next| == |q.next|
  {
    assert e < |q.next|;
    DropMembers(l, e);
    TakeSpelled(q, l, e);
    EditTwo(q, Take(e), Add(e));
    hide Drop, Edited, QueueOf, AllPresent, Detached, EditAll;
    AddSpelled(Edited(q, Take(e)).0, Drop(l, e), e);
  }

  lemma SchedSound(s: State, q: Ptrs, force: bool, k: nat)
    requires Spelled(s, q) && RecvOk(s)
    requires s.cur.Elem? ==> s.cur.e < NENV && (s.envs[s.cur.e].status == Runnable || Detached(q, s.queue, s.cur.e, k))
    ensures var (r, ret) := Schedule(s, force); var (p, ok) := EditAll(q, SchedEdits(s, force));
      ok && Dispatched(r, p, ret)
  {
    RotatedRight(s, force);
    hide Schedule;
    if Switches(s, force) && s.cur.Elem? {
      var c := s.cur.e;
      if s.envs[c].status == Runnable {
        hide Edited, EditAll, QueueOf, AllPresent, Detached, Drop;
        RotateSpelled(q, s.queue, c);
      } else {
        TakeAgain(q, s.queue, c, k);
        DropAbsent(s.queue, c);
        EditOne(q, Take(c));
      }
    }
  }

  // The list is not empty, and neither its head nor the stopped env changes.
  lemma StuckStays(s: State, r: State, q: Ptrs, p: Ptrs)
    requires Stuck(s, q) && s.queue != [] && r.queue != [] && s.queue[0] == r.queue[0] && r.cur == s.cur
    requires Spelled(r, p) && r.envs[s.cur.e] == s.envs[s.cur.e] && r.envs[s.queue[0]] == s.envs[s.queue[0]]
    requires p.next[s.cur.e] == q.next[s.cur.e] && p.prev[s.cur.e] == q.prev[s.cur.e]
    ensures Stuck(r, p)
  {
    var c, h := s.cur.e, s.queue[0];
    assert h in s.queue;
    forall envid | Envid2Env(r.envs, r.cur, envid, true) == Elem(h) ensures Envid2Env(s.envs, s.cur, envid, true) == Elem(h) {
    }
  }

  // The state in which sys_ipc_recv calls schedule.
  ghost function Blocked(s: State, dstva: nat): State
    requires s.cur.Elem? && s.cur.e < |s.envs|
  {
    var s1 := Put(s, s.cur.e, s.envs[s.cur.e].(recving := true, dstva := dstva, status := NotRunnable));
    s1.(queue := Drop(s1.queue, s.cur.e))
  }

  lemma BlockedRight(s: State, dstva: nat)
    requires ListRight(s) && RecvOk(s) && s.cur.Elem? && s.cur.e < NENV
    ensures ListRight(Blocked(s, dstva)) && RecvOk(Blocked(s, dstva))
  {
    DropMembers(s.queue, s.cur.e);
    hide Drop;
    var r, c := Blocked(s, dstva), s.cur.e;
    assert r.envs == s.envs[c := r.envs[c]] && r.envs[c].status == NotRunnable;
  }

  lemma BlockedSpelled(s: State, q: Ptrs, dstva: nat) returns (k: nat)
    requires Sound(s, q) && s.cur.Elem?
    ensures Edited(q, Take(s.cur.e)).1
    ensures var p, r := Edited(q, Take(s.cur.e)).0, Blocked(s, dstva);
      Spelled(r, p) && RecvOk(r) && Detached(p, r.queue, s.cur.e, k)
  {
    BlockedRight(s, dstva);
    var c := s.cur.e;
    assert c in s.queue <==> s.envs[c].status == Runnable;
    hide ListRight, QueueOf, AllPresent;
    if c in s.queue {
      k := IndexOf(s.queue, c);
      TakeSpelled(q, s.queue, c);
    } else {
      k := 0;
      DropAbsent(s.queue, c);
      TakeAgain(q, s.queue, c, 0);
    }
  }

  lemma RecvIs(s: State, dstva: nat, legal: bool)
    requires s.cur.Elem? && s.cur.e < |s.envs| && (dstva == 0 || legal)
    ensures DoRecv(s, dstva, legal) == Schedule(Blocked(s, dstva), true)
    ensures Edits(s, Recv(dstva, legal)) == [Take(s.cur.e), Take(s.cur.e)]
  {
    hide Schedule, Drop;
  }

  lemma RecvSound(s: State, q: Ptrs, dstva: nat, legal: bool)
    requires Sound(s, q) && s.cur.Elem?
    ensures KeepsSound(s, q, Recv(dstva, legal))
  {
    if dstva == 0 || legal {
      var c, r := s.cur.e, Blocked(s, dstva);
      var k := BlockedSpelled(s, q, dstva);
      var p := Edited(q, Take(c)).0;
      EditTwo(q, Take(c), Take(c));
      EditOne(p, Take(c));
      SchedSound(r, p, true, k);
      assert SchedEdits(r, true) == [Take(c)];
      hide Drop, Edited, Spelled, Detached, Stuck, Schedule, RecvOk, EditAll, Switches;
      RecvIs(s, dstva, legal);
      hide DoRecv, Edits, Blocked;
    }
  }

  lemma SendSound(s: State, q: Ptrs, op: Op)
    requires Sound(s, q) && s.cur.Elem? && op.Send?
    ensures KeepsSound(s, q, op)
  {
    var t := Envid2Env(s.envs, s.cur, op.envid, false);
    assert t.Elem? ==> t.e < NENV;
    if Edits(s, op) != [] {
      assert Stuck(s, q) && s.queue == [] ==> CanWake(s, op.envid);
      assert t.e !in s.queue;
      AddSpelled(q, s.queue, t.e);
      EditOne(q, Add(t.e));
      hide Envid2Env, Edited, QueueOf, AllPresent;
      var r, p := Step(s, op).0, Edited(q, Add(t.e)).0;
      assert ListRight(r) && RecvOk(r);
      if Stuck(s, q) && s.envs[s.cur.e].status != Runnable {
        StuckStays(s, r, q, p);
      }
    }
  }

  // A stopped env that is stuck stays so, unless it starts itself.
  lemma StatusStuck(s: State, q: Ptrs, envid: nat, status: Status)
    requires Sound(s, q) && s.cur.Elem? && Stuck(s, q) && InScope(s, SetStatus(envid, status))
    requires status != FreeEnv && Envid2Env(s.envs, s.cur, envid, true).Elem? && Envid2Env(s.envs, s.cur, envid, true) != s.cur
    ensures var r := DoSetStatus(s, envid, status).0; var p := EditAll(q, StatusEdits(s, envid, status)).0;
      Spelled(r, p) && Stuck(r, p)
  {
    StatusSpelled(s, q, envid, status);
    StatusAside(s, q, envid, status, s.cur.e);
    var t := Envid2Env(s.envs, s.cur, envid, true).e;
    assert t in s.queue <==> s.envs[t].status == Runnable;
    var r := DoSetStatus(s, envid, status).0;
    if s.queue == [] {
      assert !CanStart(s, envid);
      hide Envid2Env;
      assert r == s by { assert s.envs[t := s.envs[t].(status := status)] == s.envs; }
    } else {
      assert t != s.queue[0];
      DropOther(s.queue, t);
      assert s.queue[0] in s.queue;
      hide Envid2Env, CanStart, CanStop, Drop, EditAll, StatusEdits;
      StuckStays(s, r, q, EditAll(q, StatusEdits(s, envid, status)).0);
    }
  }

  lemma StatusState(s: State, envid: nat, status: Status)
    requires |s.envs| == NENV && RecvOk(s) && s.cur.Elem? && s.cur.e < NENV && InScope(s, SetStatus(envid, status))
    ensures var (r, ret) := DoSetStatus(s, envid, status); var t := Envid2Env(s.envs, s.cur, envid, true);
      && ret != Panic && RecvOk(r) && NobodyYet(r) && r.cur == s.cur && |r.envs| == NENV
      && (status == FreeEnv || t.Nil? ==> r == s && StatusEdits(s, envid, status) == [])
      && (s.envs[s.cur.e].status == Runnable ==> r.envs[s.cur.e].status == Runnable)
      && (status != FreeEnv && t == s.cur ==> r.envs[s.cur.e].status == Runnable)
  {
    hide Envid2Env, Drop;
  }

  lemma StatusSound(s: State, q: Ptrs, envid: nat, status: Status)
    requires Sound(s, q) && s.cur.Elem? && InScope(s, SetStatus(envid, status))
    ensures KeepsSound(s, q, SetStatus(envid, status))
  {
    assert |s.envs| == NENV;
    StatusState(s, envid, status);
    var t := Envid2Env(s.envs, s.cur, envid, true);
    hide Envid2Env, Spelled, Stuck, DoSetStatus, StatusEdits, RecvOk, InScope;
    StatusSpelled(s, q, envid, status);
    if status != FreeEnv && t.Elem? && t != s.cur && s.envs[s.cur.e].status != Runnable {
      StatusStuck(s, q, envid, status);
    }
  }

  // No other child can be made: only slot 0 was free, and the identifier was 0.
  lemma MakeStuck(s: State, slot: nat)
    requires |s.envs| == NENV && s.cur.Elem? && s.cur.e < NENV && !CanQueue(s) && slot < NENV && s.envs[slot].status == FreeEnv && slot != s.cur.e
    ensures !CanQueue(DoExofork(s, slot).0)
  {
    var r := DoExofork(s, slot).0;
    assert !CanMake(s, slot);
    IdZero(s.made + 1, slot);
    assert forall x :: 0 <= x < NENV && s.envs[x].status == FreeEnv ==> x == 0 by {
      forall x | 0 <= x < NENV && s.envs[x].status == FreeEnv ensures x == 0 {
        assert !CanMake(s, x);
        IdZero(s.made + 1, x);
      }
    }
    hide EnvId;
    forall x ensures !CanMake(r, x) && !CanStart(r, x) && !CanWake(r, x) {
      assert !CanStart(s, x) && !CanWake(s, x);
    }
  }

  lemma MakeSound(s: State, q: Ptrs, slot: nat)
    requires Sound(s, q) && InScope(s, Exofork(slot))
    ensures KeepsSound(s, q, Exofork(slot))
  {
    var r := DoExofork(s, slot).0;
    assert EditAll(q, []) == (q, true);
    hide EnvId, QueueOf, AllPresent, EditAll;
    assert slot != s.cur.e && slot !in s.queue;
    assert Spelled(r, q) && RecvOk(r);
    if s.envs[s.cur.e].status != Runnable {
      hide Spelled;
      if s.queue == [] {
        MakeStuck(s, slot);
      } else {
        StuckStays(s, r, q, q);
      }
    }
  }

  lemma EvictRight(s: State, q: Ptrs, e: nat)
    requires Spelled(s, q) && RecvOk(s) && e in s.queue
    ensures e < NENV && Edited(q, Take(e)).1
    ensures var r, p := Put(s.(queue := Drop(s.queue, e)), e, s.envs[e].(status := FreeEnv)), Edited(q, Take(e)).0;
      Spelled(r, p) && RecvOk(r)
  {
    TakeSpelled(q, s.queue, e);
    DropMembers(s.queue, e);
    hide Drop, Edited, QueueOf, AllPresent, Detached;
  }

  // The head of the list stays if the current env is stopped.
  lemma EvictOther(s: State, q: Ptrs, e: nat)
    requires Sound(s, q) && s.cur.Elem? && e in s.queue && e != s.cur.e
    requires s.envs[s.cur.e].status != Runnable ==> e != s.queue[0]
    ensures e < NENV && Edited(q, Take(e)).1
    ensures Sound(Put(s.(queue := Drop(s.queue, e)), e, s.envs[e].(status := FreeEnv)), Edited(q, Take(e)).0)
  {
    EvictRight(s, q, e);
    if s.envs[s.cur.e].status != Runnable {
      DropOther(s.queue, e);
      TakeSpelled(q, s.queue, e);
      hide Drop, Edited, QueueOf, AllPresent;
      StuckStays(s, Put(s.(queue := Drop(s.queue, e)), e, s.envs[e].(status := FreeEnv)), q, Edited(q, Take(e)).0);
    }
  }

  lemma DestroySound(s: State, q: Ptrs, envid: nat)
    requires Sound(s, q) && InScope(s, Destroy(envid))
    ensures KeepsSound(s, q, Destroy(envid))
  {
    var t := Envid2Env(s.envs, s.cur, envid, true);
    if t.Elem? {
      var e := t.e;
      assert e in s.queue;
      EvictRight(s, q, e);
      EditOne(q, Take(e));
      if t == s.cur {
        var r := Put(s.(queue := Drop(s.queue, e)), e, s.envs[e].(status := FreeEnv));
        SchedSound(r.(cur := Nil), Edited(q, Take(e)).0, true, 0);
      } else {
        EvictOther(s, q, e);
      }
      hide Envid2Env, Drop, Edited, Spelled, Schedule, Stuck, RecvOk, EditAll;
    }
  }

  lemma CreateSound(s: State, q: Ptrs, slot: nat, pri: nat)
    requires Sound(s, q) && InScope(s, Create(slot, pri))
    ensures KeepsSound(s, q, Create(slot, pri))
  {
    InsertHeadLinks(q, s.queue, slot);
    InsertPresent(q, slot);
    EditOne(q, Front(slot));
    hide QueueOf, AllPresent, InsertHead, EnvId;
    assert ListRight(DoCreate(s, slot, pri).0);
  }

  lemma StepSound(s: State, q: Ptrs, op: Op)
    requires Sound(s, q) && InScope(s, op)
    ensures KeepsSound(s, q, op)
  {
    match op
    case Tick => SchedSound(s, q, false, 0);
    case Yield => SchedSound(s, q, true, 0);
    case Recv(dstva, legal) => RecvSound(s, q, dstva, legal);
    case Send(envid, value, perm, page) => SendSound(s, q, op);
    case SetStatus(envid, status) => StatusSound(s, q, envid, status);
    case Exofork(slot) => MakeSound(s, q, slot);
    case Destroy(envid) => DestroySound(s, q, envid);
    case Create(slot, pri) => CreateSound(s, q, slot, pri);
  }

  /** From a sound state no entries in scope break the list. */
  lemma {:induction false} SoundNeverBreaks(s: State, q: Ptrs, ops: seq<Op>)
    requires Sound(s, q)
    ensures !BreaksOn(s, q, ops)
    decreases |ops|
  {
    if BreaksOn(s, q, ops) {
      StepSound(s, q, ops[0]);
      var (r, ret) := Step(s, ops[0]);
      var (p, ok) := EditAll(q, Edits(s, ops[0]));
      hide Step, Edits, EditAll, InScope;
      SpelledNotBroken(r, p);
      SoundNeverBreaks(r, p, ops[1..]);
      assert false;
    }
  }

  // ------------------------------------------------------------------ exactly which calls

  // The call makes a receiver runnable.
  predicate WakesReceiver(s: State, envid: nat, status: Status) {
    var t := Envid2Env(s.envs, s.cur, envid, true);
    status == Runnable && t.Elem? && t.e < |s.envs| && s.envs[t.e].recving
  }

  // The caller stops itself.
  predicate StopsCaller(s: State, envid: nat, status: Status) {
    status == NotRunnable && s.cur.Elem? && Envid2Env(s.envs, s.cur, envid, true) == s.cur
  }

  // The call makes a receiver runnable, or stops the caller, which can either get somebody onto the
  // list it leaves empty or take off the env it leaves at the head.
  ghost predicate Threatens(s: State, envid: nat, status: Status)
    requires |s.envs| == NENV && s.queue != []
  {
    || WakesReceiver(s, envid, status)
    || (StopsCaller(s, envid, status) && if |s.queue| == 1 then CanQueue(s) else CanStop(s, s.queue[1]))
  }

  // The caller leaves the head of the list for good.
  lemma CallerLeaves(s: State, envid: nat)
    requires Inv(s) && StopsCaller(s, envid, NotRunnable)
    ensures |s.envs| == NENV && s.cur.e < NENV && s.queue != [] && s.queue[0] == s.cur.e && s.envs[s.cur.e].status == Runnable
    ensures StatusEdits(s, envid, NotRunnable) == [Take(s.cur.e)]
    ensures var r := DoSetStatus(s, envid, NotRunnable).0;
      r == s.(queue := s.queue[1..], envs := s.envs[s.cur.e := s.envs[s.cur.e].(status := NotRunnable)])
  {
    CurIsRunnable(s);
    DropHead(s.queue, s.cur.e);
    hide Envid2Env, Drop;
  }

  lemma CallerLoose(s: State, q: Ptrs, envid: nat)
    requires Inv(s) && Spelled(s, q) && StopsCaller(s, envid, NotRunnable)
    ensures var r := DoSetStatus(s, envid, NotRunnable).0; var p := EditAll(q, StatusEdits(s, envid, NotRunnable)).0;
      Loose(r, p) && RecvOk(r)
  {
    CallerLeaves(s, envid);
    StatusSpelled(s, q, envid, NotRunnable);
    TakeHead(q, s.queue);
    EditOne(q, Take(s.cur.e));
    assert RecvOk(s) && !s.envs[s.cur.e].recving;
    hide Edited, EditAll, StatusEdits, DoSetStatus, Detached, Spelled, Inv, StopsCaller;
  }

  // Stopping the caller changes nothing in what it can do to others.
  lemma SameMeans(s: State, r: State)
    requires Inv(s) && s.cur.Elem? && s.cur.e < NENV && s.envs[s.cur.e].status == Runnable
    requires r == s.(queue := s.queue[1..], envs := s.envs[s.cur.e := s.envs[s.cur.e].(status := NotRunnable)])
    ensures CanQueue(r) <==> CanQueue(s)
    ensures forall e :: CanStop(r, e) <==> CanStop(s, e)
  {
    assert forall x, b :: Envid2Env(r.envs, r.cur, x, b) == Envid2Env(s.envs, s.cur, x, b);
    hide Envid2Env, EnvId;
    assert forall x :: CanStart(r, x) <==> CanStart(s, x);
    assert forall x :: CanWake(r, x) <==> CanWake(s, x);
    assert forall x :: CanMake(r, x) <==> CanMake(s, x);
  }

  /** A stopped env can break the list exactly if it has such a way. */
  lemma LooseExact(s: State, q: Ptrs)
    requires Loose(s, q) && RecvOk(s)
    ensures Breakable(s, q) <==> if s.queue == [] then CanQueue(s) else CanStop(s, s.queue[0])
  {
    assert |s.envs| == NENV;
    hide Spelled, Detached, CanQueue, CanStop, BreaksOn, RecvOk;
    if if s.queue == [] then CanQueue(s) else CanStop(s, s.queue[0]) {
      LooseBreaks(s, q);
    } else {
      assert Sound(s, q);
      forall ops ensures !BreaksOn(s, q, ops) { SoundNeverBreaks(s, q, ops); }
    }
  }

  lemma StopExact(s: State, q: Ptrs, envid: nat)
    requires Inv(s) && Spelled(s, q) && StopsCaller(s, envid, NotRunnable)
    ensures s.queue != []
    ensures var r := DoSetStatus(s, envid, NotRunnable).0; var p := EditAll(q, StatusEdits(s, envid, NotRunnable)).0;
      Breakable(r, p) <==> if |s.queue| == 1 then CanQueue(s) else CanStop(s, s.queue[1])
  {
    var r, p := DoSetStatus(s, envid, NotRunnable).0, EditAll(q, StatusEdits(s, envid, NotRunnable)).0;
    CallerLeaves(s, envid);
    CallerLoose(s, q, envid);
    hide CanQueue, CanStop, RecvOk, DoSetStatus, EditAll, StatusEdits, Breakable, Inv, Loose, StopsCaller;
    SameMeans(s, r);
    LooseExact(r, p);
  }

  lemma StaysRight(s: State, p: Ptrs, envid: nat, status: Status)
    requires Inv(s) && s.cur.Elem? && s.cur.e < NENV && InScope(s, SetStatus(envid, status))
    requires Spelled(DoSetStatus(s, envid, status).0, p)
    ensures !Breakable(DoSetStatus(s, envid, status).0, p)
  {
    SetStatusKeeps(s, envid, status);
    var r := DoSetStatus(s, envid, status).0;
    assert r.cur == s.cur;
    CurIsRunnable(r);
    hide DoSetStatus, Spelled, ListRight, BreaksOn, InScope;
    forall ops ensures !BreaksOn(r, p, ops) { SoundNeverBreaks(r, p, ops); }
  }

  /**
   * Right after any sys_set_env_status the list is right. Entries in scope can break it from there
   * exactly if the call made a receiver runnable, or stopped the caller while the caller can either
   * get somebody onto the list it leaves empty, or take off the env it leaves at the head.
   */
  lemma StatusBreaksExact(s: State, q: Ptrs, envid: nat, status: Status)
    requires Inv(s) && s.cur.Elem? && QueueOf(q, s.queue) && AllPresent(q) && |q.next| == NENV
    ensures s.cur.e < NENV
    ensures var r := DoSetStatus(s, envid, status).0; var (p, ok) := EditAll(q, StatusEdits(s, envid, status));
      && ok && ListRight(r) && QueueOf(p, r.queue)
      && (Breakable(r, p) <==> Threatens(s, envid, status))
  {
    CurIsRunnable(s);
    StatusSpelled(s, q, envid, status);
    var r, p := DoSetStatus(s, envid, status).0, EditAll(q, StatusEdits(s, envid, status)).0;
    if WakesReceiver(s, envid, status) {
      hide EditAll, StatusEdits, BreaksOn, QueueOf, AllPresent;
      WokenBreaks(r, p, envid);
    } else if StopsCaller(s, envid, status) {
      hide EditAll, StatusEdits, BreaksOn, QueueOf, AllPresent, DoSetStatus, Inv;
      StopExact(s, q, envid);
    } else {
      assert InScope(s, SetStatus(envid, status));
      hide EditAll, StatusEdits, BreaksOn, QueueOf, AllPresent, Envid2Env, Spelled;
      StaysRight(s, p, envid, status);
    }
  }
}
