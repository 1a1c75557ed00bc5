/**
 * What a finished fork (user/lib/fork.c) has given the child, along every run from its start to its
 * end: each page that the parent had below USTACKTOP, copied exactly once, and nothing else. A run is
 * a history of states here, so that it holds for CowFork's runs and for those of CowHandler.
 */
module ForkRuns {
  import opened Common
  import opened Mmu
  import opened CowFork
  import opened CowHandler

  // A step, or a change of pages that no slot maps.
  ghost predicate Moves(s: State, m: Option<Step>, r: State) {
    match m
    case Some(step) => PagesOk(s) && Enabled(s, step) && r == Apply(s, step)
    case None =>
      && r == s.(phys := r.phys)
      && forall t :: t in s.flat && s.flat[t].hi in s.phys ==>
           s.flat[t].hi in r.phys && r.phys[s.flat[t].hi] == s.phys[s.flat[t].hi]
  }

  ghost predicate History(ss: seq<State>, ms: seq<Option<Step>>) {
    && |ss| == |ms| + 1
    && (forall i :: 0 <= i < |ss| ==> Inv(ss[i]))
    && (forall i {:trigger ms[i]} :: 0 <= i < |ms| ==> Moves(ss[i], ms[i], ss[i + 1]))
  }

  // The step is the moment at which fork copies page v of p.
  predicate Copies(s: State, m: Option<Step>, p: nat, c: nat, v: nat) {
    m.Some? && Enabled(s, m.value) && EventOf(s, m.value) == ECopy(p, c, v)
  }

  /**
   * The child's page v in r is what p's was in s: the same page for LIBRARY, the same contents
   * otherwise, and then copy-on-write if it was writable at all.
   */
  ghost predicate Given(s: State, r: State, p: nat, c: nat, v: nat) {
    var t, u := Slot(p, v), Slot(c, v);
    && t in s.flat && u in r.flat && s.flat[t].hi in s.phys && r.flat[u].hi in r.phys
    && (if s.flat[t].lo.lib then r.flat[u] == s.flat[t]
        else
          && r.phys[r.flat[u].hi] == s.phys[s.flat[t].hi]
          && r.flat[u].lo == s.flat[t].lo.(d := false, cow := s.flat[t].lo.cow || s.flat[t].lo.d))
  }

  // ------------------------------------------------------------------ one step

  // The fork of p goes on.
  lemma ForkGoesOn(s: State, m: Option<Step>, r: State, p: nat)
    requires Inv(s) && Moves(s, m, r) && p in s.forks && m != Some(ForkEnd(p))
    ensures p in r.forks && r.forks[p].child == s.forks[p].child
    ensures s.forks[p].vpn <= r.forks[p].vpn <= s.forks[p].vpn + 1
  {
    hide Inv, PagesOk;
  }

  // Its pages stay mapped, the LIBRARY ones where they are.
  lemma ParentKeeps(s: State, m: Option<Step>, r: State, p: nat, v: nat)
    requires Inv(s) && Moves(s, m, r) && p in s.forks && m != Some(ForkEnd(p)) && Slot(p, v) in s.flat
    ensures var t := Slot(p, v); t in r.flat && (s.flat[t].lo.lib ==> r.flat[t] == s.flat[t])
  {
    var t := Slot(p, v);
    assert PagesOk(s);
    assert ForkOk(s, p);
    hide SharingOk, ForkOk;
    if m.Some? && (m.value.ForkChild? || m.value.ForkParent?) {
      assert ForkOk(s, m.value.parent);
    }
  }

  // A page moves behind the fork exactly when it is copied, if it was mapped at all.
  lemma CopyMoment(s: State, m: Option<Step>, r: State, p: nat, v: nat)
    requires Inv(s) && Moves(s, m, r) && p in s.forks && m != Some(ForkEnd(p))
    ensures p in r.forks
    ensures var c := s.forks[p].child;
      && (Copies(s, m, p, c, v) <==> s.forks[p].vpn == v && r.forks[p].vpn == v + 1 && Slot(p, v) in s.flat)
      && (Copies(s, m, p, c, v) ==> v < VPN_USTACKTOP && Given(s, r, p, c, v))
      && (s.forks[p].vpn == v && r.forks[p].vpn == v + 1 && Slot(p, v) !in s.flat ==> Slot(c, v) !in r.flat)
  {
    ForkGoesOn(s, m, r, p);
    assert PagesOk(s);
    assert ForkOk(s, p);
    hide SharingOk, ForkOk;
    if m.Some? && (m.value.ForkChild? || m.value.ForkParent?) {
      assert ForkOk(s, m.value.parent);
    }
  }

  // Nobody writes or moves a page of the child that the fork has left behind.
  lemma KidFlat(s: State, m: Option<Step>, r: State, p: nat, u: Slot)
    requires Inv(s) && Moves(s, m, r) && p in s.forks && m != Some(ForkEnd(p))
    requires u.env == s.forks[p].child && u.vpn < s.forks[p].vpn
    ensures if u in s.flat then u in r.flat && r.flat[u] == s.flat[u] else u !in r.flat
  {
    assert PagesOk(s);
    assert ForkOk(s, p);
    hide SharingOk;
    if m.Some? && (m.value.ForkChild? || m.value.ForkParent?) {
      assert ForkOk(s, m.value.parent);
    }
  }

  lemma KidData(s: State, m: Option<Step>, r: State, p: nat, u: Slot)
    requires Inv(s) && Moves(s, m, r) && p in s.forks && m != Some(ForkEnd(p))
    requires u.env == s.forks[p].child && u.vpn < s.forks[p].vpn
    requires u in s.flat && !s.flat[u].lo.lib && !s.flat[u].lo.d
    ensures s.flat[u].hi in s.phys && s.flat[u].hi in r.phys && r.phys[s.flat[u].hi] == s.phys[s.flat[u].hi]
  {
    assert PagesOk(s);
    if m.Some? && m.value.Store? && Slot(m.value.env, m.value.vpn) in s.flat {
      var x := Slot(m.value.env, m.value.vpn);
      assert ForkOk(s, p);
      hide ForkOk;
      assert s.flat[x].hi == s.flat[u].hi ==> MayShare(s, x, u);
    }
    hide SharingOk, ForkOk;
  }

  lemma GivenStays(s0: State, s: State, m: Option<Step>, r: State, p: nat, v: nat)
    requires Inv(s) && Moves(s, m, r) && p in s.forks && m != Some(ForkEnd(p)) && v < s.forks[p].vpn
    requires Given(s0, s, p, s.forks[p].child, v) && Inv(r)
    ensures Given(s0, r, p, s.forks[p].child, v)
  {
    var u := Slot(s.forks[p].child, v);
    KidFlat(s, m, r, p, u);
    assert PagesOk(r);
    if !s.flat[u].lo.lib && !s.flat[u].lo.d {
      KidData(s, m, r, p, u);
    }
    hide Moves, Inv, PagesOk;
  }

  // ------------------------------------------------------------------ from start to end

  // The history is one of a fork of p into c: its first step starts it and its last one ends it.
  ghost predicate OneFork(ss: seq<State>, ms: seq<Option<Step>>, p: nat, c: nat) {
    && |ss| == |ms| + 1 && |ms| >= 2 && History(ss, ms)
    && ms[0] == Some(ForkStart(p, c)) && ms[|ms| - 1] == Some(ForkEnd(p))
    && forall i :: 0 < i < |ms| - 1 ==> ms[i] != Some(ForkEnd(p))
  }

  lemma StepAt(ss: seq<State>, ms: seq<Option<Step>>, i: nat)
    requires History(ss, ms) && i < |ms|
    ensures |ss| == |ms| + 1 && Inv(ss[i]) && Inv(ss[i + 1]) && Moves(ss[i], ms[i], ss[i + 1])
  {
    hide Inv, Moves;
  }

  ghost predicate Under(s: State, p: nat, c: nat) { p in s.forks && s.forks[p].child == c }

  lemma Begins(s: State, r: State, p: nat, c: nat)
    requires Moves(s, Some(ForkStart(p, c)), r)
    ensures Under(r, p, c) && r.forks[p] == Fork(c, 0, Next) && r.flat == s.flat
  {
    hide PagesOk;
  }

  lemma Ends(s: State, r: State, p: nat, c: nat)
    requires Moves(s, Some(ForkEnd(p)), r) && Under(s, p, c)
    ensures s.forks[p].vpn == VPN_USTACKTOP && r.flat == s.flat && r.phys == s.phys && c in r.live && p !in r.forks
  {
    hide PagesOk;
  }

  lemma {:induction false} UnderWay(ss: seq<State>, ms: seq<Option<Step>>, p: nat, c: nat, i: nat)
    requires OneFork(ss, ms, p, c) && 1 <= i < |ms|
    ensures Under(ss[i], p, c)
    decreases i
  {
    hide History, Inv, Moves;
    StepAt(ss, ms, i - 1);
    if i == 1 {
      Begins(ss[0], ss[1], p, c);
    } else {
      UnderWay(ss, ms, p, c, i - 1);
      ForkGoesOn(ss[i - 1], ms[i - 1], ss[i], p);
    }
  }

  // The position of the fork never falls.
  lemma {:induction false} Ascends(ss: seq<State>, ms: seq<Option<Step>>, p: nat, c: nat, i: nat, j: nat)
    requires OneFork(ss, ms, p, c) && 1 <= i <= j < |ms|
    ensures Under(ss[i], p, c) && Under(ss[j], p, c) && ss[i].forks[p].vpn <= ss[j].forks[p].vpn
    decreases j - i
  {
    hide History, Inv, Moves;
    UnderWay(ss, ms, p, c, i);
    UnderWay(ss, ms, p, c, j);
    if i < j {
      Ascends(ss, ms, p, c, i, j - 1);
      StepAt(ss, ms, j - 1);
      ForkGoesOn(ss[j - 1], ms[j - 1], ss[j], p);
    }
  }

  // At s the fork leaves page v behind; if p has it, the child gets it, and has it in r.
  ghost predicate Left(s: State, m: Option<Step>, r: State, p: nat, c: nat, v: nat) {
    if Slot(p, v) in s.flat then Copies(s, m, p, c, v) && Given(s, r, p, c, v) else Slot(c, v) !in r.flat
  }

  lemma LeftStays(s0: State, m0: Option<Step>, s: State, m: Option<Step>, r: State, p: nat, v: nat)
    requires Inv(s) && Moves(s, m, r) && p in s.forks && m != Some(ForkEnd(p)) && v < s.forks[p].vpn && Inv(r)
    requires Left(s0, m0, s, p, s.forks[p].child, v)
    ensures Left(s0, m0, r, p, s.forks[p].child, v)
  {
    hide Moves, Copies, Given, Inv;
    if Slot(p, v) in s0.flat {
      GivenStays(s0, s, m, r, p, v);
    } else {
      KidFlat(s, m, r, p, Slot(s.forks[p].child, v));
    }
  }

  // Once the fork has left page v behind, there was the moment at which it did so, and since then the
  // child has had what it got.
  lemma {:induction false} Crossing(ss: seq<State>, ms: seq<Option<Step>>, p: nat, c: nat, v: nat, k: nat) returns (i: nat)
    requires OneFork(ss, ms, p, c) && 1 <= k < |ms| && Under(ss[k], p, c) && v < ss[k].forks[p].vpn
    ensures 1 <= i < k && Left(ss[i], ms[i], ss[k], p, c, v)
    decreases k
  {
    hide History, Inv, Moves, Copies, Given;
    StepAt(ss, ms, 0);
    Begins(ss[0], ss[1], p, c);
    UnderWay(ss, ms, p, c, k - 1);
    StepAt(ss, ms, k - 1);
    var s, m, r := ss[k - 1], ms[k - 1], ss[k];
    ForkGoesOn(s, m, r, p);
    if s.forks[p].vpn > v {
      i := Crossing(ss, ms, p, c, v, k - 1);
      LeftStays(ss[i], ms[i], s, m, r, p, v);
    } else {
      i := k - 1;
      CopyMoment(s, m, r, p, v);
    }
  }

  // Pages that p had at the start it has throughout.
  lemma {:induction false} HadThroughout(ss: seq<State>, ms: seq<Option<Step>>, p: nat, c: nat, v: nat, i: nat, j: nat)
    requires OneFork(ss, ms, p, c) && 1 <= i <= j < |ms| && Slot(p, v) in ss[i].flat
    ensures var t := Slot(p, v); t in ss[j].flat && (ss[i].flat[t].lo.lib ==> ss[j].flat[t] == ss[i].flat[t])
    decreases j
  {
    hide History, Inv, Moves;
    if i < j {
      HadThroughout(ss, ms, p, c, v, i, j - 1);
      UnderWay(ss, ms, p, c, j - 1);
      StepAt(ss, ms, j - 1);
      ParentKeeps(ss[j - 1], ms[j - 1], ss[j], p, v);
    }
  }

  lemma CopyIsInside(s: State, m: Option<Step>, p: nat, c: nat, v: nat)
    requires Copies(s, m, p, c, v)
    ensures m != Some(ForkStart(p, c)) && m != Some(ForkEnd(p))
  {
  }

  // Where the fork stands when it copies page v.
  lemma CopyPlace(ss: seq<State>, ms: seq<Option<Step>>, p: nat, c: nat, v: nat, i: nat)
    requires OneFork(ss, ms, p, c) && i < |ms| && Copies(ss[i], ms[i], p, c, v)
    ensures 1 <= i < |ms| - 1 && Under(ss[i], p, c) && Under(ss[i + 1], p, c)
    ensures ss[i].forks[p].vpn == v && ss[i + 1].forks[p].vpn == v + 1
  {
    hide History, Inv, Moves, Copies;
    CopyIsInside(ss[i], ms[i], p, c, v);
    UnderWay(ss, ms, p, c, i);
    UnderWay(ss, ms, p, c, i + 1);
    StepAt(ss, ms, i);
    CopyMoment(ss[i], ms[i], ss[i + 1], p, v);
  }

  // It does so once.
  lemma CopiedOnce(ss: seq<State>, ms: seq<Option<Step>>, p: nat, c: nat, v: nat, i: nat, j: nat)
    requires OneFork(ss, ms, p, c) && i < |ms| && j < |ms|
    requires Copies(ss[i], ms[i], p, c, v) && Copies(ss[j], ms[j], p, c, v)
    ensures i == j
  {
    hide History, Copies, Under;
    CopyPlace(ss, ms, p, c, v, i);
    CopyPlace(ss, ms, p, c, v, j);
    if i < j {
      Ascends(ss, ms, p, c, i + 1, j);
    } else if j < i {
      Ascends(ss, ms, p, c, j + 1, i);
    }
  }

  // What the child has of page v in the end.
  ghost predicate HandedOver(ss: seq<State>, ms: seq<Option<Step>>, p: nat, c: nat, v: nat, i: nat) {
    && |ss| == |ms| + 1 && i < |ms| && Copies(ss[i], ms[i], p, c, v) && Given(ss[i], ss[|ms|], p, c, v)
    && (forall j :: 0 <= j < |ms| && Copies(ss[j], ms[j], p, c, v) ==> j == i)
    && (ss[i].flat[Slot(p, v)].lo.lib ==> Slot(p, v) in ss[|ms|].flat && ss[|ms|].flat[Slot(c, v)] == ss[|ms|].flat[Slot(p, v)])
  }

  /**
   * A finished fork: the child lives, and has a page below USTACKTOP exactly if the parent had it when
   * the fork came by, which it did if it had it from the start. The page was copied exactly once; it
   * is the parent's page if that is LIBRARY, and else has the contents the parent's page had at that
   * moment. Above USTACKTOP the child has nothing.
   */
  lemma ForkGives(ss: seq<State>, ms: seq<Option<Step>>, p: nat, c: nat)
    requires OneFork(ss, ms, p, c)
    ensures var n := |ms|;
      && c in ss[n].live && p !in ss[n].forks
      && (forall v: nat :: v < VPN_USTACKTOP && Slot(p, v) in ss[0].flat ==> exists i: nat :: HandedOver(ss, ms, p, c, v, i))
      && (forall v: nat :: Slot(c, v) in ss[n].flat ==> v < VPN_USTACKTOP && exists i: nat :: HandedOver(ss, ms, p, c, v, i))
  {
    hide History, Inv, Moves, Copies, Given;
    UnderWay(ss, ms, p, c, |ms| - 1);
    StepAt(ss, ms, |ms| - 1);
    Ends(ss[|ms| - 1], ss[|ms|], p, c);
    hide Under, OneFork;
    forall v: nat | v < VPN_USTACKTOP && (Slot(p, v) in ss[0].flat || Slot(c, v) in ss[|ms|].flat)
      ensures exists i: nat :: HandedOver(ss, ms, p, c, v, i)
    {
      PageGiven(ss, ms, p, c, v);
    }
    forall v: nat | Slot(c, v) in ss[|ms|].flat ensures v < VPN_USTACKTOP {
      NothingAbove(ss, ms, p, c, v);
    }
  }

  lemma NothingAbove(ss: seq<State>, ms: seq<Option<Step>>, p: nat, c: nat, v: nat)
    requires OneFork(ss, ms, p, c) && Slot(c, v) in ss[|ms|].flat
    ensures v < VPN_USTACKTOP
  {
    hide History, Inv, Moves;
    UnderWay(ss, ms, p, c, |ms| - 1);
    StepAt(ss, ms, |ms| - 1);
    Ends(ss[|ms| - 1], ss[|ms|], p, c);
    KidBelow(ss[|ms| - 1], p, v);
  }

  lemma KidBelow(s: State, p: nat, v: nat)
    requires Inv(s) && p in s.forks && s.forks[p].vpn == VPN_USTACKTOP && Slot(s.forks[p].child, v) in s.flat
    ensures v < VPN_USTACKTOP
  {
    assert ForkOk(s, p);
    hide SharingOk, PagesOk;
  }

  lemma GivenSame(s: State, r: State, q: State, p: nat, c: nat, v: nat)
    requires Given(s, r, p, c, v) && q.flat == r.flat && q.phys == r.phys
    ensures Given(s, q, p, c, v)
  {
  }

  lemma PageGiven(ss: seq<State>, ms: seq<Option<Step>>, p: nat, c: nat, v: nat)
    requires OneFork(ss, ms, p, c) && v < VPN_USTACKTOP && (Slot(p, v) in ss[0].flat || Slot(c, v) in ss[|ms|].flat)
    ensures exists i: nat :: HandedOver(ss, ms, p, c, v, i)
  {
    var n := |ms|;
    hide History, Inv, Moves, Copies;
    StepAt(ss, ms, 0);
    Begins(ss[0], ss[1], p, c);
    UnderWay(ss, ms, p, c, n - 1);
    StepAt(ss, ms, n - 1);
    Ends(ss[n - 1], ss[n], p, c);
    var i := Crossing(ss, ms, p, c, v, n - 1);
    if Slot(p, v) in ss[0].flat {
      HadThroughout(ss, ms, p, c, v, 1, i);
    }
    assert Slot(p, v) in ss[i].flat;
    HadThroughout(ss, ms, p, c, v, i, n - 1);
    GivenSame(ss[i], ss[n - 1], ss[n], p, c, v);
    assert ss[i].flat[Slot(p, v)].lo.lib ==> ss[n].flat[Slot(c, v)] == ss[n].flat[Slot(p, v)];
    hide Under, Given;
    forall j | 0 <= j < n && Copies(ss[j], ms[j], p, c, v) ensures j == i {
      CopiedOnce(ss, ms, p, c, v, i, j);
    }
    assert HandedOver(ss, ms, p, c, v, i);
  }

  // ------------------------------------------------------------------ the runs of CowFork and of CowHandler

  ghost function States(s: State, steps: seq<Step>): (ss: seq<State>)
    requires Inv(s) && Runs(s, steps)
    ensures |ss| == |steps| + 1 && ss[0] == s
    decreases |steps|
  {
    if steps == [] then [s] else StepInv(s, steps[0]); [s] + States(Apply(s, steps[0]), steps[1..])
  }

  function Wrapped(steps: seq<Step>): (ms: seq<Option<Step>>)
    ensures |ms| == |steps| && forall i :: 0 <= i < |ms| ==> ms[i] == Some(steps[i])
  {
    seq(|steps|, i requires 0 <= i < |steps| => Some(steps[i]))
  }

  lemma HistoryCons(s: State, m: Option<Step>, ss: seq<State>, ms: seq<Option<Step>>)
    requires Inv(s) && History(ss, ms) && Moves(s, m, ss[0])
    ensures History([s] + ss, [m] + ms)
  {
    hide Inv, Moves;
    var rs, ns := [s] + ss, [m] + ms;
    forall i | 0 <= i < |ns| ensures Moves(rs[i], ns[i], rs[i + 1]) {
      if i > 0 {
        assert Moves(ss[i - 1], ms[i - 1], ss[i]);
      }
    }
  }

  lemma {:induction false} RunHistory(s: State, steps: seq<Step>)
    requires Inv(s) && Runs(s, steps)
    ensures History(States(s, steps), Wrapped(steps))
    decreases |steps|
  {
    if steps != [] {
      StepInv(s, steps[0]);
      assert PagesOk(s);
      var r := Apply(s, steps[0]);
      hide Inv, PagesOk, Enabled, Apply;
      RunHistory(r, steps[1..]);
      assert Moves(s, Some(steps[0]), r);
      hide Moves, History;
      HistoryCons(s, Some(steps[0]), States(r, steps[1..]), Wrapped(steps[1..]));
      assert Wrapped(steps) == [Some(steps[0])] + Wrapped(steps[1..]);
    }
  }

  // Event i is that of step i in state i.
  lemma {:induction false} EventAt(s: State, steps: seq<Step>, i: nat)
    requires Inv(s) && Runs(s, steps) && i < |steps|
    ensures |Events(s, steps)| == |steps|
    ensures Enabled(States(s, steps)[i], steps[i]) && Events(s, steps)[i] == EventOf(States(s, steps)[i], steps[i])
    decreases |steps|
  {
    StepInv(s, steps[0]);
    var r := Apply(s, steps[0]);
    hide Inv, PagesOk, Enabled, Apply, EventOf;
    if i > 0 {
      EventAt(r, steps[1..], i - 1);
    } else if |steps| > 1 {
      EventAt(r, steps[1..], 0);
    } else {
      assert steps[1..] == [];
    }
  }

  // The steps of one fork, with whatever other envs do in between.
  ghost predicate ForkSteps(steps: seq<Step>, p: nat, c: nat) {
    && |steps| >= 2 && steps[0] == ForkStart(p, c) && steps[|steps| - 1] == ForkEnd(p)
    && forall i :: 0 < i < |steps| - 1 ==> steps[i] != ForkEnd(p)
  }

  /** What the events along such a run say about page v, and the states between them. */
  ghost predicate GivenOnce(ss: seq<State>, es: seq<Event>, p: nat, c: nat, v: nat) {
    && |ss| == |es| + 1
    && exists i: nat :: i < |es| && es[i] == ECopy(p, c, v) && Given(ss[i], ss[|es|], p, c, v)
         && (forall j :: 0 <= j < |es| && es[j] == ECopy(p, c, v) ==> j == i)
         && (ss[i].flat[Slot(p, v)].lo.lib ==> Slot(p, v) in ss[|es|].flat && ss[|es|].flat[Slot(c, v)] == ss[|es|].flat[Slot(p, v)])
  }

  // The child has just the pages that it should have.
  ghost predicate ForkGave(ss: seq<State>, es: seq<Event>, p: nat, c: nat) {
    && |ss| == |es| + 1 && c in ss[|es|].live && p !in ss[|es|].forks
    && (forall v: nat :: v < VPN_USTACKTOP && Slot(p, v) in ss[0].flat ==> GivenOnce(ss, es, p, c, v))
    && (forall v: nat :: Slot(c, v) in ss[|es|].flat ==> v < VPN_USTACKTOP && GivenOnce(ss, es, p, c, v))
  }

  // The event tells whether the move copies a page.
  ghost predicate Tells(e: Event, s: State, m: Option<Step>) {
    forall p, c, v :: e == ECopy(p, c, v) <==> Copies(s, m, p, c, v)
  }

  lemma GaveEvents(ss: seq<State>, ms: seq<Option<Step>>, es: seq<Event>, p: nat, c: nat)
    requires OneFork(ss, ms, p, c) && |es| == |ms|
    requires |ss| == |ms| + 1 && forall i :: 0 <= i < |ms| ==> Tells(es[i], ss[i], ms[i])
    ensures ForkGave(ss, es, p, c)
  {
    ForkGives(ss, ms, p, c);
    hide OneFork, History, Copies, Given;
    forall v: nat, i: nat | HandedOver(ss, ms, p, c, v, i) ensures GivenOnce(ss, es, p, c, v) {
      assert Tells(es[i], ss[i], ms[i]);
      forall j | 0 <= j < |es| && es[j] == ECopy(p, c, v) ensures j == i {
        assert Tells(es[j], ss[j], ms[j]);
      }
    }
  }

  /** Every finished fork of CowFork, whatever other envs do meanwhile. */
  lemma CowForkGives(s: State, steps: seq<Step>, p: nat, c: nat)
    requires Inv(s) && Runs(s, steps) && ForkSteps(steps, p, c)
    ensures ForkGave(States(s, steps), Events(s, steps), p, c)
  {
    RunHistory(s, steps);
    EventAt(s, steps, 0);
    hide Inv, Runs, History, Enabled, EventOf, ForkGave, Events;
    var ss, ms := States(s, steps), Wrapped(steps);
    forall i | 0 <= i < |ms| ensures Tells(Events(s, steps)[i], ss[i], ms[i]) {
      EventAt(s, steps, i);
    }
    hide States, Tells;
    GaveEvents(ss, ms, Events(s, steps), p, c);
  }

  // ---- nothing keeps a program or a fork from going on

  lemma FreshPage(s: State) returns (page: nat)
    ensures Fresh(s, page)
  {
    var used := set t | t in s.flat :: s.flat[t].hi;
    page := Above(used);
    assert forall t :: t in s.flat ==> s.flat[t].hi in used;
  }

  lemma {:induction false} Above(used: set<nat>) returns (n: nat)
    ensures forall x :: x in used ==> x < n
    decreases |used|
  {
    if used == {} {
      return 0;
    }
    var y :| y in used;
    var m := Above(used - {y});
    n := if m > y then m else y + 1;
    assert forall x :: x in used ==> x == y || x in used - {y};
  }

  /**
   * A live env can load from each page that is mapped or mapped on demand, and store to it, or take
   * the fault, which is possible except while duppage looks at that page.
   */
  lemma AccessGoesOn(s: State, env: nat, vpn: nat, offset: nat, value: nat) returns (page: nat)
    requires env in s.live && offset < NPTE
    requires Slot(env, vpn) in s.flat || (VPN_UTEMP <= vpn < VPN_UTOP && vpn != VPN_USTACKTOP && vpn != VPN_UCOW)
    ensures Enabled(s, Load(env, vpn, offset, page))
    ensures Enabled(s, Store(env, vpn, offset, value, page))
         || Enabled(s, CowCopy(env, vpn, page)) || InWindow(s, Slot(env, vpn))
  {
    page := FreshPage(s);
  }

  // The next step of the fork of p.
  function ForkStep(s: State, p: nat): Step
    requires p in s.forks
  {
    match s.forks[p].phase
    case Next => if s.forks[p].vpn == VPN_USTACKTOP then ForkEnd(p) else ForkRead(p)
    case GotPerm(_) => ForkChild(p)
    case InChild(_) => ForkParent(p)
  }

  lemma ForkStepOn(s: State, p: nat)
    requires Inv(s) && p in s.forks
    ensures Enabled(s, ForkStep(s, p))
    ensures ForkStep(s, p) != ForkEnd(p) ==>
      var r := Apply(s, ForkStep(s, p));
      && p in r.forks && s.forks[p].vpn <= r.forks[p].vpn <= VPN_USTACKTOP
      && (r.forks[p].vpn > s.forks[p].vpn || Rank(r.forks[p].phase) < Rank(s.forks[p].phase))
  {
    assert ForkOk(s, p);
    hide SharingOk, PagesOk;
  }

  function Rank(phase: Phase): nat { match phase case Next => 2 case GotPerm(_) => 1 case InChild(_) => 0 }

  /** Every fork in progress can be finished by its own steps. */
  lemma {:induction false} ForkFinishes(s: State, p: nat) returns (steps: seq<Step>)
    requires Inv(s) && p in s.forks && s.forks[p].vpn <= VPN_USTACKTOP
    ensures Runs(s, steps) && steps != [] && steps[|steps| - 1] == ForkEnd(p)
    ensures forall i :: 0 <= i < |steps| - 1 ==> steps[i] in {ForkRead(p), ForkChild(p), ForkParent(p)}
    decreases VPN_USTACKTOP - s.forks[p].vpn, Rank(s.forks[p].phase)
  {
    ForkStepOn(s, p);
    var step := ForkStep(s, p);
    StepInv(s, step);
    var r := Apply(s, step);
    hide Inv, Enabled, Apply;
    var rest := [];
    if step != ForkEnd(p) {
      rest := ForkFinishes(r, p);
    }
    steps := [step] + rest;
    assert steps[1..] == rest;
  }

  // ---- with the fault handler in steps

  // What a step of CowHandler is to CowFork: mapping the copy back is the fault.
  function MoveOf(f: Fine, step: FineStep): Option<Step> {
    match step
    case Program(st) => Some(st)
    case MapBack(env) => if env in f.handlers && f.handlers[env].Copying? then Some(CowCopy(env, f.handlers[env].vpn, f.handlers[env].page)) else None
    case _ => None
  }

  lemma FineMoves(f: Fine, step: FineStep)
    requires FineInv(f) && FineEnabled(f, step)
    ensures Moves(Base(f), MoveOf(f, step), Base(FineApply(f, step)))
    ensures Tells(FineEvent(f, step), Base(f), MoveOf(f, step))
  {
    BaseOk(f);
    if step.Program? {
      ProgramBase(f, step.step);
    } else if step.MapBack? {
      MapBackBase(f, step.env);
    } else {
      SilentMoves(f, step);
    }
  }

  lemma SilentMoves(f: Fine, step: FineStep)
    requires FineInv(f) && FineEnabled(f, step) && !step.Program? && !step.MapBack?
    ensures Moves(Base(f), None, Base(FineApply(f, step)))
  {
    match step
    case Trap(env, vpn) => TrapInv(f, env, vpn);
    case TakePage(env, page) => TakePageInv(f, env, page);
    case LoadWord(env) => LoadWordInv(f, env);
    case StoreWord(env) => StoreWordInv(f, env);
    case Release(env) => ReleaseInv(f, env);
  }

  ghost function FineStates(f: Fine, steps: seq<FineStep>): (fs: seq<Fine>)
    requires FineInv(f) && FineRuns(f, steps)
    ensures |fs| == |steps| + 1 && fs[0] == f
    decreases |steps|
  {
    if steps == [] then [f] else FineStepInv(f, steps[0]); [f] + FineStates(FineApply(f, steps[0]), steps[1..])
  }

  function Bases(fs: seq<Fine>): (ss: seq<State>)
    ensures |ss| == |fs| && forall i :: 0 <= i < |ss| ==> ss[i] == Base(fs[i])
  {
    seq(|fs|, i requires 0 <= i < |fs| => Base(fs[i]))
  }

  function MovesOf(fs: seq<Fine>, steps: seq<FineStep>): (ms: seq<Option<Step>>)
    requires |fs| == |steps| + 1
    ensures |ms| == |steps| && forall i :: 0 <= i < |ms| ==> ms[i] == MoveOf(fs[i], steps[i])
  {
    seq(|steps|, i requires 0 <= i < |steps| => MoveOf(fs[i], steps[i]))
  }

  lemma BasesCons(f: Fine, fs: seq<Fine>)
    ensures Bases([f] + fs) == [Base(f)] + Bases(fs)
  {
    hide Base;
  }

  lemma MovesCons(f: Fine, fs: seq<Fine>, steps: seq<FineStep>)
    requires steps != [] && |fs| == |steps|
    ensures MovesOf([f] + fs, steps) == [MoveOf(f, steps[0])] + MovesOf(fs, steps[1..])
  {
    hide MoveOf;
  }

  lemma {:induction false} FineHistory(f: Fine, steps: seq<FineStep>)
    requires FineInv(f) && FineRuns(f, steps)
    ensures var fs := FineStates(f, steps);
      && |FineEvents(f, steps)| == |steps|
      && History(Bases(fs), MovesOf(fs, steps))
      && (forall i :: 0 <= i < |steps| ==> Tells(FineEvents(f, steps)[i], Base(fs[i]), MoveOf(fs[i], steps[i])))
    decreases |steps|
  {
    assert Inv(Base(f));
    if steps != [] {
      FineStepInv(f, steps[0]);
      FineMoves(f, steps[0]);
      var g := FineApply(f, steps[0]);
      hide FineInv, FineEnabled, FineApply, Inv, Moves, Tells, FineEvent, MoveOf, Base;
      FineHistory(g, steps[1..]);
      var fs, gs := FineStates(f, steps), FineStates(g, steps[1..]);
      var ms, ns := MovesOf(fs, steps), MovesOf(gs, steps[1..]);
      HistoryCons(Base(f), MoveOf(f, steps[0]), Bases(gs), ns);
      BasesCons(f, gs);
      MovesCons(f, gs, steps);
      hide History, Bases, MovesOf;
      forall i | 0 <= i < |steps| ensures Tells(FineEvents(f, steps)[i], Base(fs[i]), MoveOf(fs[i], steps[i])) {
        if i > 0 {
          assert Tells(FineEvents(g, steps[1..])[i - 1], Base(gs[i - 1]), MoveOf(gs[i - 1], steps[1..][i - 1]));
        }
      }
    }
  }

  ghost predicate FineForkSteps(steps: seq<FineStep>, p: nat, c: nat) {
    && |steps| >= 2 && steps[0] == Program(ForkStart(p, c)) && steps[|steps| - 1] == Program(ForkEnd(p))
    && forall i :: 0 < i < |steps| - 1 ==> steps[i] != Program(ForkEnd(p))
  }

  lemma FineOneFork(f: Fine, steps: seq<FineStep>, p: nat, c: nat)
    requires FineInv(f) && FineRuns(f, steps) && FineForkSteps(steps, p, c)
    requires History(Bases(FineStates(f, steps)), MovesOf(FineStates(f, steps), steps))
    ensures OneFork(Bases(FineStates(f, steps)), MovesOf(FineStates(f, steps), steps), p, c)
  {
    hide FineInv, FineRuns, History, FineStates, Base;
  }

  /** Every finished fork of CowHandler: the same, with fault handlers interrupted anywhere. */
  lemma HandlerForkGives(f: Fine, steps: seq<FineStep>, p: nat, c: nat)
    requires FineInv(f) && FineRuns(f, steps) && FineForkSteps(steps, p, c)
    ensures ForkGave(Bases(FineStates(f, steps)), FineEvents(f, steps), p, c)
  {
    FineHistory(f, steps);
    var fs := FineStates(f, steps);
    hide FineInv, FineRuns, History, Tells, ForkGave;
    FineOneFork(f, steps, p, c);
    GaveEvents(Bases(fs), MovesOf(fs, steps), FineEvents(f, steps), p, c);
  }
}
