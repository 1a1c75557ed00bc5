/**
 * The one window in duppage (user/lib/fork.c) that is not safe: the permissions of a page are read
 * before the page is mapped in the child, and a copy-on-write fault of the parent on that very page
 * in between goes unnoticed.
 */
module CowWindow {
  import opened Mmu
  import opened CowFork

  // Runs, and what programs see along them, from states that need not satisfy the invariant.
  ghost predicate SafeRuns(s: State, steps: seq<Step>)
    decreases |steps|
  {
    steps == [] || (PagesOk(s) && Enabled(s, steps[0]) && SafeRuns(Apply(s, steps[0]), steps[1..]))
  }

  ghost function Seen(s: State, steps: seq<Step>): seq<Obs>
    requires SafeRuns(s, steps)
    decreases |steps|
  {
    if steps == [] then [] else [Observe(s, steps[0])] + Seen(Apply(s, steps[0]), steps[1..])
  }

  ghost function Told(s: State, steps: seq<Step>): seq<Event>
    requires SafeRuns(s, steps)
    decreases |steps|
  {
    if steps == [] then [] else [EventOf(s, steps[0])] + Told(Apply(s, steps[0]), steps[1..])
  }

  /** Some run shows the programs something that eager copying would not. */
  ghost predicate Diverges(s: State, a: Eager) {
    exists steps :: SafeRuns(s, steps) && Seen(s, steps) != EagerTrace(a, Told(s, steps))
  }

  // With the invariant, nothing diverges.
  lemma {:induction false} InvRuns(s: State, steps: seq<Step>)
    requires Inv(s) && SafeRuns(s, steps)
    ensures Runs(s, steps) && Trace(s, steps) == Seen(s, steps) && Events(s, steps) == Told(s, steps)
    decreases |steps|
  {
    if steps != [] {
      StepInv(s, steps[0]);
      hide Inv, Enabled, Apply;
      InvRuns(Apply(s, steps[0]), steps[1..]);
    }
  }

  lemma InvConverges(s: State, a: Eager)
    requires Inv(s) && Rel(s, a)
    ensures !Diverges(s, a)
  {
    forall steps | SafeRuns(s, steps) ensures Seen(s, steps) == EagerTrace(a, Told(s, steps)) {
      InvRuns(s, steps);
      CowRefinesEager(s, a, steps);
    }
  }

  // A step earlier it diverges too.
  lemma DivergesBack(s: State, a: Eager, step: Step)
    requires PagesOk(s) && Enabled(s, step) && Diverges(Apply(s, step), EagerApply(a, EventOf(s, step)))
    ensures Diverges(s, a)
  {
    var r, b := Apply(s, step), EagerApply(a, EventOf(s, step));
    var rest :| SafeRuns(r, rest) && Seen(r, rest) != EagerTrace(b, Told(r, rest));
    var steps := [step] + rest;
    hide PagesOk, Enabled, Apply, EagerApply, EventOf;
    assert steps[0] == step && steps[1..] == rest;
    assert SafeRuns(s, steps);
    var es := Told(s, steps);
    assert es == [EventOf(s, step)] + Told(r, rest) && es[1..] == Told(r, rest);
    assert Seen(s, steps)[1..] == Seen(r, rest) && EagerTrace(a, es)[1..] == EagerTrace(b, es[1..]);
  }

  lemma DivergesNow(s: State, a: Eager, step: Step)
    requires PagesOk(s) && Enabled(s, step) && Observe(s, step) != EagerObserve(a, EventOf(s, step))
    ensures Diverges(s, a)
  {
    var steps := [step];
    assert steps[1..] == [];
    assert SafeRuns(s, steps);
    var es := Told(s, steps);
    assert es[0] == EventOf(s, step);
    assert Seen(s, steps)[0] != EagerTrace(a, es)[0];
  }

  // ------------------------------------------------------------------ the leak

  // Parent and child share a page that the parent can write, and the eager child has its own copy.
  ghost predicate Leaky(s: State, a: Eager, parent: nat, child: nat, v: nat) {
    var t, u := Slot(parent, v), Slot(child, v);
    && PagesOk(s) && parent != child && parent in s.live
    && t in s.flat && u in s.flat && s.flat[t].hi == s.flat[u].hi && s.flat[t].lo.d
    && t in a.view && a.view[t].Private? && a.view[t].writable && u in a.view && a.view[u].Private?
  }

  lemma LeakShows(s: State, a: Eager, parent: nat, child: nat, v: nat)
    requires Leaky(s, a, parent, child, v) && child in s.live
    ensures Diverges(s, a)
  {
    var t, u := Slot(parent, v), Slot(child, v);
    var y := a.view[u].data[0] + 1;
    var step := Store(parent, v, 0, y, 0);
    var s1, b := Apply(s, step), EagerApply(a, EventOf(s, step));
    assert s1 == Poke(s, t, 0, y) && b.view[u] == a.view[u];
    assert PagesOk(s1);
    var look := Load(child, v, 0, 0);
    assert Observe(s1, look) == Value(y) && EagerObserve(b, EventOf(s1, look)) == Value(y - 1);
    hide PagesOk;
    DivergesNow(s1, b, look);
    DivergesBack(s, a, step);
  }

  // A fork of that parent into that child is in progress beyond page v.
  ghost predicate Forking(s: State, parent: nat, child: nat, v: nat) {
    && parent in s.forks && s.forks[parent].child == child && v < s.forks[parent].vpn <= VPN_USTACKTOP
    && (!s.forks[parent].phase.Next? ==> s.forks[parent].vpn < VPN_USTACKTOP && Slot(parent, s.forks[parent].vpn) in s.flat)
    && (s.forks[parent].phase.GotPerm? ==> !(s.forks[parent].phase.perm.lib && s.forks[parent].phase.perm.cow))
    && (s.forks[parent].phase.InChild? ==> !s.forks[parent].phase.perm.lib)
  }

  lemma ForkEndLeak(s: State, a: Eager, parent: nat, child: nat, v: nat)
    requires Leaky(s, a, parent, child, v) && Forking(s, parent, child, v)
    requires s.forks[parent].phase.Next? && s.forks[parent].vpn == VPN_USTACKTOP
    ensures Diverges(s, a)
  {
    var step := ForkEnd(parent);
    var r := Apply(s, step);
    assert Leaky(r, a, parent, child, v) && child in r.live;
    assert EagerApply(a, EventOf(s, step)) == a;
    hide Leaky, PagesOk;
    LeakShows(r, a, parent, child, v);
    DivergesBack(s, a, step);
  }

  // One step of the fork leaves the leak as it is.
  lemma ForkStepLeak(s: State, a: Eager, parent: nat, child: nat, v: nat, step: Step)
    requires Leaky(s, a, parent, child, v) && Forking(s, parent, child, v) && Enabled(s, step)
    requires step == ForkRead(parent) || step == ForkChild(parent) || step == ForkParent(parent)
    ensures PagesOk(s)
    ensures var r, b := Apply(s, step), EagerApply(a, EventOf(s, step));
      Leaky(r, b, parent, child, v) && Forking(r, parent, child, v)
  {
    var r, b := Apply(s, step), EagerApply(a, EventOf(s, step));
    assert r.phys == s.phys && r.live == s.live;
    assert PagesOk(r);
    assert forall x: Slot :: x.vpn == v ==> (x in r.flat <==> x in s.flat) && (x in b.view <==> x in a.view);
    assert forall x: Slot :: x.vpn == v && x in s.flat ==> r.flat[x] == s.flat[x];
    assert forall x: Slot :: x.vpn == v && x in a.view ==> b.view[x] == a.view[x];
  }

  lemma {:induction false} FinishLeak(s: State, a: Eager, parent: nat, child: nat, v: nat)
    requires Leaky(s, a, parent, child, v) && Forking(s, parent, child, v)
    ensures Diverges(s, a)
    decreases VPN_USTACKTOP - s.forks[parent].vpn,
              if s.forks[parent].phase.Next? then 2 else if s.forks[parent].phase.GotPerm? then 1 else 0
  {
    var f := s.forks[parent];
    if f.phase.Next? && f.vpn == VPN_USTACKTOP {
      ForkEndLeak(s, a, parent, child, v);
    } else {
      var step := if f.phase.Next? then ForkRead(parent) else if f.phase.GotPerm? then ForkChild(parent) else ForkParent(parent);
      ForkStepLeak(s, a, parent, child, v, step);
      var r, b := Apply(s, step), EagerApply(a, EventOf(s, step));
      assert parent in r.forks;
      hide Leaky, PagesOk, EagerApply;
      FinishLeak(r, b, parent, child, v);
      DivergesBack(s, a, step);
    }
  }

  // What holds of the page that duppage is looking at.
  lemma WindowFacts(s: State, a: Eager, t: Slot, page: nat)
    requires Inv(s) && Rel(s, a) && Faults(s, t) && Fresh(s, page) && InWindow(s, t)
    ensures var k := s.forks[t.env];
      && s.flat[t].hi in s.phys && k.phase.perm == s.flat[t].lo && !s.flat[t].lo.lib && s.flat[t].lo.v
      && t.env in s.live && k.child != t.env && k.vpn < VPN_USTACKTOP && Slot(k.child, k.vpn) !in s.flat
      && t in a.view && a.view[t].Private? && a.view[t].writable && PagesOk(CowFault(s, t, page))
  {
    assert ForkOk(s, t.env);
    LiveIsNotEmbryo(s, t);
    assert t in a.view && Looks(s, a, t);
    hide SharingOk, ForkOk;
  }

  // duppage maps a page in the child with permissions that are out of date.
  lemma LeakStarts(s: State, a: Eager, parent: nat)
    requires PagesOk(s) && parent in s.live && parent in s.forks && s.forks[parent].phase.GotPerm?
    requires var k := s.forks[parent]; var t := Slot(parent, k.vpn);
      && !k.phase.perm.d && !k.phase.perm.lib && k.vpn < VPN_USTACKTOP && k.child != parent
      && t in s.flat && s.flat[t].lo.d && t in a.view && a.view[t].Private? && a.view[t].writable
    ensures var k, step := s.forks[parent], ForkChild(parent);
      && Enabled(s, step)
      && var r, b := Apply(s, step), EagerApply(a, EventOf(s, step));
         Leaky(r, b, parent, k.child, k.vpn) && Forking(r, parent, k.child, k.vpn)
  {
    var k := s.forks[parent];
    var t, u := Slot(parent, k.vpn), Slot(k.child, k.vpn);
    var r := MapChild(s, parent);
    assert r.flat == s.flat[u := Word(s.flat[t].hi, k.phase.perm.(v := true))] && r.phys == s.phys;
    assert PagesOk(r);
    hide PagesOk;
  }

  /**
   * A copy-on-write fault at any moment of any run can make some later run differ from eager copying
   * exactly when it hits the page that duppage is looking at.
   */
  lemma WindowExact(s: State, a: Eager, t: Slot, page: nat)
    requires Inv(s) && Rel(s, a) && t.env in s.live && Faults(s, t) && Fresh(s, page)
    ensures s.flat[t].hi in s.phys && (Diverges(CowFault(s, t, page), a) <==> InWindow(s, t))
  {
    var s1 := CowFault(s, t, page);
    if InWindow(s, t) {
      WindowFacts(s, a, t, page);
      var step, child := ForkChild(t.env), s.forks[t.env].child;
      hide Inv, Rel, Leaky, Forking, PagesOk;
      LeakStarts(s1, a, t.env);
      FinishLeak(Apply(s1, step), EagerApply(a, EventOf(s1, step)), t.env, child, t.vpn);
      DivergesBack(s1, a, step);
    } else {
      CowFaultInv(s, t, page);
      CowFaultRel(s, a, t, page);
      hide Inv, Rel;
      InvConverges(s1, a);
    }
  }

  // ------------------------------------------------------------------ every fork passes through it

  // Where a run ends, here and in the eager machine.
  ghost function Last(s: State, steps: seq<Step>): State
    requires SafeRuns(s, steps)
    decreases |steps|
  {
    if steps == [] then s else Last(Apply(s, steps[0]), steps[1..])
  }

  function EagerLast(a: Eager, events: seq<Event>): Eager
    decreases |events|
  {
    if events == [] then a else EagerLast(EagerApply(a, events[0]), events[1..])
  }

  // The copy-on-write page t is ahead of the fork of its own env.
  ghost predicate Ahead(s: State, t: Slot) {
    && t.env in s.live && Faults(s, t) && t.vpn < VPN_USTACKTOP && t.env in s.forks
    && (s.forks[t.env].vpn < t.vpn || (s.forks[t.env].vpn == t.vpn && !s.forks[t.env].phase.InChild?))
  }

  // The run leads to a state with t in the window.
  ghost predicate LeadsToWindow(s: State, a: Eager, t: Slot, steps: seq<Step>) {
    && SafeRuns(s, steps)
    && var r, b := Last(s, steps), EagerLast(a, Told(s, steps));
       Inv(r) && Rel(r, b) && t.env in r.live && Faults(r, t) && InWindow(r, t)
  }

  lemma LeadsBack(s: State, a: Eager, t: Slot, step: Step, rest: seq<Step>)
    requires PagesOk(s) && Enabled(s, step) && LeadsToWindow(Apply(s, step), EagerApply(a, EventOf(s, step)), t, rest)
    ensures LeadsToWindow(s, a, t, [step] + rest)
  {
    hide PagesOk, Enabled, Apply, EagerApply, EventOf, Inv, Rel;
    var steps := [step] + rest;
    assert steps[0] == step && steps[1..] == rest;
    assert Told(s, steps)[1..] == Told(Apply(s, step), rest);
  }

  // One step of the fork brings it closer.
  lemma Closer(s: State, t: Slot, step: Step)
    requires Inv(s) && Ahead(s, t) && !InWindow(s, t)
    requires var p := s.forks[t.env].phase;
      step == if p.Next? then ForkRead(t.env) else if p.GotPerm? then ForkChild(t.env) else ForkParent(t.env)
    ensures Enabled(s, step) && Ahead(Apply(s, step), t)
    ensures var f, g := s.forks[t.env], Apply(s, step).forks[t.env];
      g.vpn > f.vpn || (g.vpn == f.vpn && (f.phase.Next? || (f.phase.GotPerm? && g.phase.InChild?)) && !g.phase.Next?)
  {
    assert ForkOk(s, t.env);
    hide SharingOk, PagesOk;
  }

  lemma {:induction false} Approach(s: State, a: Eager, t: Slot) returns (steps: seq<Step>)
    requires Inv(s) && Rel(s, a) && Ahead(s, t)
    ensures LeadsToWindow(s, a, t, steps)
    decreases t.vpn - s.forks[t.env].vpn,
              if s.forks[t.env].phase.Next? then 2 else if s.forks[t.env].phase.GotPerm? then 1 else 0
  {
    if InWindow(s, t) {
      return [];
    }
    var p := s.forks[t.env].phase;
    var step := if p.Next? then ForkRead(t.env) else if p.GotPerm? then ForkChild(t.env) else ForkParent(t.env);
    Closer(s, t, step);
    StepInv(s, step);
    StepSim(s, a, step);
    hide Rel, PagesOk, SharingOk;
    var rest := Approach(Apply(s, step), EagerApply(a, EventOf(s, step)), t);
    LeadsBack(s, a, t, step, rest);
    return [step] + rest;
  }

  /**
   * The window is always there: a fork by any env with a copy-on-write page runs into it, and a
   * fault on that page at that moment makes some later run differ from eager copying.
   */
  lemma WindowReached(s: State, a: Eager, t: Slot, child: nat) returns (steps: seq<Step>)
    requires Inv(s) && Rel(s, a) && t.env in s.live && Faults(s, t) && t.vpn < VPN_USTACKTOP
    requires Enabled(s, ForkStart(t.env, child))
    ensures LeadsToWindow(s, a, t, steps)
    ensures var r, b := Last(s, steps), EagerLast(a, Told(s, steps));
      forall page :: Fresh(r, page) ==> r.flat[t].hi in r.phys && Diverges(CowFault(r, t, page), b)
  {
    var step := ForkStart(t.env, child);
    StepInv(s, step);
    StepSim(s, a, step);
    assert Ahead(Apply(s, step), t);
    hide Rel, PagesOk, SharingOk, ForkOk;
    var rest := Approach(Apply(s, step), EagerApply(a, EventOf(s, step)), t);
    LeadsBack(s, a, t, step, rest);
    steps := [step] + rest;
    var r, b := Last(s, steps), EagerLast(a, Told(s, steps));
    forall page | Fresh(r, page) ensures r.flat[t].hi in r.phys && Diverges(CowFault(r, t, page), b) {
      WindowExact(r, b, t, page);
    }
  }

  // One env with one copy-on-write page.
  function OnePage(): State {
    State(map[Slot(1, 0) := Word(5, NO_PERM.(v := true, cow := true))], map[5 := Zeros()], map[], {1})
  }

  lemma OnePageRun()
    ensures var s, steps := OnePage(), [ForkStart(1, 2), ForkRead(1)];
      && CleanStart(s) && SafeRuns(s, steps)
      && Last(s, steps) == s.(forks := map[1 := Fork(2, 0, GotPerm(s.flat[Slot(1, 0)].lo))])
  {
    var s := OnePage();
    var s1 := Apply(s, ForkStart(1, 2));
    var r := Apply(s1, ForkRead(1));
    var steps := [ForkStart(1, 2), ForkRead(1)];
    assert steps[1..] == [ForkRead(1)] && steps[1..][1..] == [];
    assert SafeRuns(r, []) && SafeRuns(s1, steps[1..]) && SafeRuns(s, steps);
    assert r == s.(forks := map[1 := Fork(2, 0, GotPerm(s.flat[Slot(1, 0)].lo))]);
  }

  /** With one page it takes two steps of fork() and the fault. */
  lemma WindowExample()
    ensures var s, t, steps := OnePage(), Slot(1, 0), [ForkStart(1, 2), ForkRead(1)];
      && CleanStart(s) && SafeRuns(s, steps)
      && var r := Last(s, steps);
         && Inv(r) && Faults(r, t) && InWindow(r, t) && Rel(r, Snapshot(s))
         && Diverges(CowFault(r, t, 6), Snapshot(s))
  {
    OnePageRun();
    var s, t, steps := OnePage(), Slot(1, 0), [ForkStart(1, 2), ForkRead(1)];
    var r := Last(s, steps);
    hide Last, SafeRuns;
    assert Inv(r) && Rel(r, Snapshot(s));
    WindowExact(r, Snapshot(s), t, 6);
  }
}
