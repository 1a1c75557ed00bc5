/**
 * The page fault handler cow_entry (user/lib/fork.c) step by step: the permissions are read, a page is
 * mapped at UCOW, its words are copied one load and one store at a time, the page is mapped at the
 * faulting address and unmapped at UCOW. Between any two of these steps other envs run, fork, fault
 * and exit. What programs see is still what eager copying would show.
 */
module CowHandler {
  import opened Mmu
  import opened CowFork

  // Where the handler of an env stands, for the faulting virtual page vpn.
  datatype Handler =
    | Trapped(vpn: nat, perm: Perm)                                        // perm = vpt[vpn] & 0xfff
    | Copying(vpn: nat, perm: Perm, page: nat, i: nat)                     // page at UCOW, i words copied
    | Holding(vpn: nat, perm: Perm, page: nat, i: nat, word: nat)          // word i loaded
    | Mapped(vpn: nat, perm: Perm, page: nat)                              // page mapped at vpn too

  datatype Fine = Fine(flat: Flat, phys: map<nat, Content>, forks: map<nat, Fork>, live: set<nat>,
                       handlers: map<nat, Handler>)

  // The same state as CowFork has it, with the scratch pages and without them.
  function Whole(f: Fine): State { State(f.flat, f.phys, f.forks, f.live) }

  function Clean(flat: Flat): Flat { map t | t in flat && t.vpn != VPN_UCOW :: flat[t] }

  function Base(f: Fine): State { State(Clean(f.flat), f.phys, f.forks, f.live) }

  function Scratch(env: nat): Slot { Slot(env, VPN_UCOW) }

  predicate HasPage(h: Handler) { !h.Trapped? }

  datatype FineStep =
    | Program(step: Step)          // a load, a store, a step of fork or an exit
    | Trap(env: nat, vpn: nat)     // a store to a copy-on-write page; the handler reads the permissions
    | TakePage(env: nat, page: nat)
    | LoadWord(env: nat)
    | StoreWord(env: nat)
    | MapBack(env: nat)
    | Release(env: nat)            // and return to the store

  // The env that a step belongs to.
  function Actor(step: Step): nat {
    match step
    case Load(env, _, _, _) => env
    case Store(env, _, _, _, _) => env
    case CowCopy(env, _, _) => env
    case ForkStart(parent, _) => parent
    case ForkRead(parent) => parent
    case ForkChild(parent) => parent
    case ForkParent(parent) => parent
    case ForkEnd(parent) => parent
    case Exit(env) => env
  }

  predicate PageFree(f: Fine, step: Step) {
    (step.Load? || step.Store?) && Slot(step.env, step.vpn) !in f.flat ==> Fresh(Whole(f), step.page)
  }

  predicate FineEnabled(f: Fine, step: FineStep) {
    match step
    // an env in its handler does nothing else, but it can be destroyed
    case Program(st) =>
      !st.CowCopy? && Enabled(Base(f), st) && PageFree(f, st) && (Actor(st) in f.handlers ==> st.Exit?)
    case Trap(env, vpn) =>
      env in f.live && env !in f.handlers && Faults(Base(f), Slot(env, vpn)) && !InWindow(Base(f), Slot(env, vpn))
    case TakePage(env, page) => env in f.handlers && f.handlers[env].Trapped? && Fresh(Whole(f), page)
    case LoadWord(env) => env in f.handlers && f.handlers[env].Copying? && f.handlers[env].i < NPTE
    case StoreWord(env) => env in f.handlers && f.handlers[env].Holding?
    case MapBack(env) => env in f.handlers && f.handlers[env].Copying? && f.handlers[env].i == NPTE
    case Release(env) => env in f.handlers && f.handlers[env].Mapped?
  }

  ghost function FineApply(f: Fine, step: FineStep): Fine
    requires FineInv(f) && FineEnabled(f, step)
  {
    match step
    case Program(st) =>
      WholeOk(f, st);
      var r := Apply(Whole(f), st);
      Fine(r.flat, r.phys, r.forks, r.live, if st.Exit? then f.handlers - {st.env} else f.handlers)
    case Trap(env, vpn) => f.(handlers := f.handlers[env := Trapped(vpn, f.flat[Slot(env, vpn)].lo)])
    case TakePage(env, page) =>
      var h := f.handlers[env];
      f.(flat := Insert(f.flat, Scratch(env), page, CopyPerm(h.perm)), phys := f.phys[page := Zeros()],
         handlers := f.handlers[env := Copying(h.vpn, h.perm, page, 0)])
    case LoadWord(env) =>
      var h := f.handlers[env];
      assert HandlerOk(f, env);
      f.(handlers := f.handlers[env := Holding(h.vpn, h.perm, h.page, h.i, f.phys[f.flat[Slot(env, h.vpn)].hi][h.i])])
    case StoreWord(env) =>
      var h := f.handlers[env];
      assert HandlerOk(f, env);
      f.(phys := f.phys[f.flat[Scratch(env)].hi := f.phys[f.flat[Scratch(env)].hi][h.i := h.word]],
         handlers := f.handlers[env := Copying(h.vpn, h.perm, h.page, h.i + 1)])
    case MapBack(env) =>
      var h := f.handlers[env];
      assert HandlerOk(f, env);
      f.(flat := Insert(f.flat, Slot(env, h.vpn), f.flat[Scratch(env)].hi, CopyPerm(h.perm)),
         handlers := f.handlers[env := Mapped(h.vpn, h.perm, h.page)])
    case Release(env) => f.(flat := Remove(f.flat, Scratch(env)), handlers := f.handlers - {env})
  }

  // ------------------------------------------------------------------ the invariant

  /**
   * The copied prefix equals the source, which nobody changes; the scratch page belongs to the handler
   * alone until it is mapped back.
   */
  ghost predicate HandlerOk(f: Fine, e: nat)
    requires e in f.handlers
  {
    var h := f.handlers[e];
    var t := Slot(e, h.vpn);
    && e in f.live && h.vpn != VPN_UCOW && t in f.flat && f.flat[t].hi in f.phys
    && (HasPage(h) ==> Scratch(e) in f.flat && f.flat[Scratch(e)] == Word(h.page, CopyPerm(h.perm).(v := true))
                       && h.page in f.phys && !h.perm.lib)
    && (!h.Mapped? ==> f.flat[t].lo == h.perm && h.perm.cow && !h.perm.d && !InWindow(Whole(f), t))
    && (h.Copying? || h.Holding? ==>
          && h.i <= NPTE && f.phys[h.page][..h.i] == f.phys[f.flat[t].hi][..h.i]
          && (forall u :: u in f.flat && u != Scratch(e) ==> f.flat[u].hi != h.page))
    && (h.Holding? ==> h.i < NPTE && h.word == f.phys[f.flat[t].hi][h.i])
  }

  ghost predicate FineInv(f: Fine) {
    && Inv(Base(f))
    && (forall t :: t in f.flat && t.vpn == VPN_UCOW ==> t.env in f.handlers && HasPage(f.handlers[t.env]))
    && (forall e :: e in f.handlers ==> HandlerOk(f, e))
  }

  lemma WholeOk(f: Fine, st: Step)
    requires FineInv(f) && FineEnabled(f, Program(st))
    ensures PagesOk(Whole(f)) && Enabled(Whole(f), st)
  {
    var s, w := Base(f), Whole(f);
    assert PagesOk(s);
    forall t | t in w.flat ensures w.flat[t].hi in w.phys && !(w.flat[t].lo.lib && w.flat[t].lo.cow) && w.flat[t].lo.v {
      if t.vpn == VPN_UCOW {
        assert HandlerOk(f, t.env) && t == Scratch(t.env);
      } else {
        assert t in s.flat;
      }
    }
    assert forall t :: t in w.flat && t.vpn == VPN_UCOW ==> t.env in f.live;
    hide PagesOk, Inv, HandlerOk;
  }

  // ------------------------------------------------------------------ steps of the programs

  lemma CleanInsert(flat: Flat, t: Slot, page: nat, perm: Perm)
    ensures Clean(Insert(flat, t, page, perm)) == if t.vpn == VPN_UCOW then Clean(flat) else Insert(Clean(flat), t, page, perm)
  {
  }

  // A program step does to the state without scratch pages what it does there in CowFork.
  lemma ProgramBase(f: Fine, st: Step)
    requires FineInv(f) && FineEnabled(f, Program(st))
    ensures PagesOk(Base(f)) && Base(FineApply(f, Program(st))) == Apply(Base(f), st)
  {
    WholeOk(f, st);
    var s, w := Base(f), Whole(f);
    var r := Apply(w, st);
    assert PagesOk(s);
    hide Inv, HandlerOk, PagesOk;
    match st
    case Load(env, vpn, offset, page) => CleanInsert(f.flat, Slot(env, vpn), page, NO_PERM.(d := true));
    case Store(env, vpn, offset, value, page) => CleanInsert(f.flat, Slot(env, vpn), page, NO_PERM.(d := true));
    case ForkStart(parent, child) =>
    case ForkRead(parent) => assert Scratch(parent) !in f.flat;
    case ForkChild(parent) => ForkChildBase(f, parent);
    case ForkParent(parent) => ForkParentBase(f, parent);
    case ForkEnd(parent) =>
    case Exit(env) => assert Clean(Forget(f.flat, env)) == Forget(Clean(f.flat), env);
  }

  lemma ForkChildBase(f: Fine, parent: nat)
    requires FineInv(f) && FineEnabled(f, Program(ForkChild(parent)))
    ensures PagesOk(Base(f)) && Enabled(Base(f), ForkChild(parent))
    ensures Base(FineApply(f, Program(ForkChild(parent)))) == Apply(Base(f), ForkChild(parent))
  {
    WholeOk(f, ForkChild(parent));
    assert ForkOk(Base(f), parent);
    var k := f.forks[parent];
    var t := Slot(parent, k.vpn);
    assert t in Base(f).flat && t in f.flat;
    CleanInsert(f.flat, Slot(k.child, k.vpn), f.flat[t].hi, DupPerm(k.phase.perm));
  }

  lemma ForkParentBase(f: Fine, parent: nat)
    requires FineInv(f) && FineEnabled(f, Program(ForkParent(parent)))
    ensures PagesOk(Base(f)) && Enabled(Base(f), ForkParent(parent))
    ensures Base(FineApply(f, Program(ForkParent(parent)))) == Apply(Base(f), ForkParent(parent))
  {
    WholeOk(f, ForkParent(parent));
    assert ForkOk(Base(f), parent);
    var k := f.forks[parent];
    var t := Slot(parent, k.vpn);
    assert t in Base(f).flat && t in f.flat;
    CleanInsert(f.flat, t, f.flat[t].hi, k.phase.perm);
  }

  // Nobody can write the page that a handler is about to copy or copying.
  lemma SourceQuiet(f: Fine, e: nat, t: Slot)
    requires FineInv(f) && e in f.handlers && !f.handlers[e].Mapped?
    requires t in Base(f).flat && f.flat[t].lo.d && t.env in f.live
    ensures f.flat[t].hi != f.flat[Slot(e, f.handlers[e].vpn)].hi
  {
    assert HandlerOk(f, e);
    var s, u := Base(f), Slot(e, f.handlers[e].vpn);
    assert u in s.flat && t != u;
    if s.flat[t].hi == s.flat[u].hi {
      assert MayShare(s, t, u);
      assert !s.flat[u].lo.lib;
      PairIsEmbryo(s, t, u);
      PairIsEmbryo(s, u, t);
      LiveIsNotEmbryo(s, t);
      LiveIsNotEmbryo(s, u);
    }
  }

  predicate Active(h: Handler) { h.Copying? || h.Holding? }

  // What a step must leave alone for the handler of e.
  lemma HandlerFrame(f: Fine, g: Fine, e: nat)
    requires e in f.handlers && HandlerOk(f, e) && e in g.handlers && g.handlers[e] == f.handlers[e] && e in g.live
    requires var t := Slot(e, f.handlers[e].vpn); t in g.flat && g.flat[t] == f.flat[t]
    requires HasPage(f.handlers[e]) ==> Scratch(e) in g.flat && g.flat[Scratch(e)] == f.flat[Scratch(e)]
    requires e in f.forks <==> e in g.forks
    requires e in f.forks ==> g.forks[e] == f.forks[e]
    requires forall p :: p in f.phys ==> p in g.phys
    requires Active(f.handlers[e]) ==>
      var p := f.flat[Slot(e, f.handlers[e].vpn)].hi; p in f.phys && p in g.phys && g.phys[p] == f.phys[p]
    requires Active(f.handlers[e]) ==>
      var p := f.handlers[e].page; p in f.phys && p in g.phys && g.phys[p] == f.phys[p]
    requires Active(f.handlers[e]) ==>
      forall u :: u in g.flat && u != Scratch(e) ==> g.flat[u].hi != f.handlers[e].page
    ensures HandlerOk(g, e)
  {
  }

  lemma ProgramHandler(f: Fine, st: Step, e: nat)
    requires FineInv(f) && FineEnabled(f, Program(st)) && e in FineApply(f, Program(st)).handlers
    ensures HandlerOk(FineApply(f, Program(st)), e)
  {
    var g := FineApply(f, Program(st));
    assert HandlerOk(f, e);
    match st
    case Load(env, vpn, offset, page) => QuietAlloc(f, g, e, Slot(env, vpn), page);
    case Store(env, vpn, offset, value, page) => QuietStore(f, st, e);
    case ForkStart(parent, child) => HandlerFrame(f, g, e);
    case ForkRead(parent) => HandlerFrame(f, g, e);
    case ForkChild(parent) => QuietFork(f, st, e);
    case ForkParent(parent) => QuietFork(f, st, e);
    case ForkEnd(parent) => HandlerFrame(f, g, e);
    case Exit(env) => HandlerFrame(f, g, e);
  }

  // A page is mapped on demand in another env, or nothing happens.
  lemma QuietAlloc(f: Fine, g: Fine, e: nat, t: Slot, page: nat)
    requires e in f.handlers && HandlerOk(f, e) && t.env != e
    requires g == f || (Fresh(Whole(f), page) && g == f.(flat := Insert(f.flat, t, page, NO_PERM.(d := true)), phys := f.phys[page := Zeros()]))
    ensures HandlerOk(g, e)
  {
    assert f.flat[Slot(e, f.handlers[e].vpn)].hi != page || g == f;
    assert HasPage(f.handlers[e]) ==> f.flat[Scratch(e)].hi != page || g == f;
    HandlerFrame(f, g, e);
  }

  lemma QuietStore(f: Fine, st: Step, e: nat)
    requires FineInv(f) && FineEnabled(f, Program(st)) && st.Store? && e in f.handlers
    ensures HandlerOk(FineApply(f, Program(st)), e)
  {
    WholeOk(f, st);
    var t, w := Slot(st.env, st.vpn), Whole(f);
    assert HandlerOk(f, e) && st.env != e && t.vpn != VPN_UCOW;
    var s1 := Settle(w, t, st.page);
    var m := f.(flat := s1.flat, phys := s1.phys);
    QuietAlloc(f, m, e, t, st.page);
    var g := FineApply(f, Program(st));
    if s1.flat[t].lo.d {
      if t in f.flat {
        assert t in Base(f).flat;
        if !f.handlers[e].Mapped? {
          SourceQuiet(f, e, t);
        }
      }
      HandlerFrame(m, g, e);
    }
  }

  lemma QuietFork(f: Fine, st: Step, e: nat)
    requires FineInv(f) && FineEnabled(f, Program(st)) && (st.ForkChild? || st.ForkParent?) && e in f.handlers
    ensures HandlerOk(FineApply(f, Program(st)), e)
  {
    WholeOk(f, st);
    var g := FineApply(f, Program(st));
    assert HandlerOk(f, e);
    assert ForkOk(Base(f), st.parent);
    var k := f.forks[st.parent];
    assert e != st.parent && e != k.child;
    var t := Slot(st.parent, k.vpn);
    assert t in Base(f).flat && t in f.flat;
    HandlerFrame(f, g, e);
  }

  // ------------------------------------------------------------------ steps of the handler

  // The contents of pages that no slot maps do not matter.
  lemma PhysFrame(s: State, r: State)
    requires Inv(s) && r == s.(phys := r.phys)
    requires forall t :: t in s.flat && s.flat[t].hi in s.phys ==> s.flat[t].hi in r.phys
    ensures Inv(r)
  {
    assert PagesOk(r) && SharingOk(r);
    forall p | p in r.forks ensures ForkOk(r, p) {
      assert ForkOk(s, p);
      hide SharingOk, PagesOk;
      ForkKeeps(s, r, p);
    }
  }

  lemma PhysFrameRel(s: State, r: State, a: Eager)
    requires Rel(s, a) && r == s.(phys := r.phys)
    requires forall t :: t in s.flat && s.flat[t].hi in s.phys ==>
      s.flat[t].hi in r.phys && r.phys[s.flat[t].hi] == s.phys[s.flat[t].hi]
    ensures Rel(r, a)
  {
    assert forall t :: Embryo(r, t) <==> Embryo(s, t);
    hide Embryo;
    forall t | t in a.view ensures Looks(r, a, t) {
      assert Looks(s, a, t);
    }
  }

  // The handlers of the other envs, when env acts in its own.
  lemma OtherHandlers(f: Fine, g: Fine, env: nat, e: nat)
    requires FineInv(f) && e in f.handlers && e != env && e in g.handlers && g.handlers[e] == f.handlers[e]
    requires g.live == f.live && g.forks == f.forks
    requires forall t: Slot :: t.env != env ==> (t in f.flat <==> t in g.flat)
    requires forall t: Slot :: t.env != env && t in f.flat ==> g.flat[t] == f.flat[t]
    requires forall p :: p in f.phys ==> p in g.phys
    requires forall p :: p in f.phys && g.phys[p] != f.phys[p] ==>
      forall u :: u in f.flat && u.env != env ==> f.flat[u].hi != p
    requires forall t: Slot :: t.env == env && t in g.flat ==>
      || (exists u :: u in f.flat && u.env == env && f.flat[u].hi == g.flat[t].hi) || Fresh(Whole(f), g.flat[t].hi)
    ensures HandlerOk(g, e)
  {
    assert HandlerOk(f, e);
    var h := f.handlers[e];
    if Active(h) {
      forall u | u in g.flat && u != Scratch(e) ensures g.flat[u].hi != h.page {
        if u.env == env {
          assert f.flat[Scratch(e)].hi == h.page;
          if v :| v in f.flat && v.env == env && f.flat[v].hi == g.flat[u].hi {
            assert v != Scratch(e);
          }
        }
      }
      assert f.flat[Scratch(e)].hi == h.page;
    }
    HandlerFrame(f, g, e);
  }

  lemma TrapInv(f: Fine, env: nat, vpn: nat)
    requires FineInv(f) && FineEnabled(f, Trap(env, vpn))
    ensures FineInv(FineApply(f, Trap(env, vpn))) && Base(FineApply(f, Trap(env, vpn))) == Base(f)
  {
    var g := FineApply(f, Trap(env, vpn));
    assert PagesOk(Base(f)) && Slot(env, vpn) in Base(f).flat;
    forall e | e in g.handlers ensures HandlerOk(g, e) {
      if e != env {
        OtherHandlers(f, g, env, e);
      }
    }
  }

  lemma TakePageInv(f: Fine, env: nat, page: nat)
    requires FineInv(f) && FineEnabled(f, TakePage(env, page))
    ensures FineInv(FineApply(f, TakePage(env, page)))
    ensures var g := FineApply(f, TakePage(env, page)); Base(g) == Base(f).(phys := f.phys[page := Zeros()])
  {
    var g := FineApply(f, TakePage(env, page));
    assert HandlerOk(f, env);
    var h := f.handlers[env];
    CleanInsert(f.flat, Scratch(env), page, CopyPerm(h.perm));
    assert Base(g) == Base(f).(phys := f.phys[page := Zeros()]);
    PhysFrame(Base(f), Base(g));
    hide Inv;
    forall e | e in g.handlers ensures HandlerOk(g, e) {
      if e != env {
        OtherHandlers(f, g, env, e);
      } else {
        TookPage(f, env, page);
      }
    }
  }

  lemma TookPage(f: Fine, env: nat, page: nat)
    requires FineInv(f) && FineEnabled(f, TakePage(env, page))
    ensures HandlerOk(FineApply(f, TakePage(env, page)), env)
  {
    assert HandlerOk(f, env);
    assert PagesOk(Base(f));
    var h := f.handlers[env];
    assert Slot(env, h.vpn) in Base(f).flat;
    assert f.flat[Slot(env, h.vpn)].hi != page;
  }

  lemma LoadWordInv(f: Fine, env: nat)
    requires FineInv(f) && FineEnabled(f, LoadWord(env))
    ensures FineInv(FineApply(f, LoadWord(env))) && Base(FineApply(f, LoadWord(env))) == Base(f)
  {
    var g := FineApply(f, LoadWord(env));
    assert HandlerOk(f, env);
    hide Inv;
    forall e | e in g.handlers ensures HandlerOk(g, e) {
      if e != env {
        OtherHandlers(f, g, env, e);
      }
    }
  }

  lemma StoreWordInv(f: Fine, env: nat)
    requires FineInv(f) && FineEnabled(f, StoreWord(env))
    ensures FineInv(FineApply(f, StoreWord(env)))
    ensures var g, h := FineApply(f, StoreWord(env)), f.handlers[env];
      && Base(g) == Base(f).(phys := g.phys) && h.page in f.phys
      && g.phys == f.phys[h.page := g.phys[h.page]] && forall t :: t in Base(f).flat ==> f.flat[t].hi != h.page
  {
    var g := FineApply(f, StoreWord(env));
    assert HandlerOk(f, env);
    PhysFrame(Base(f), Base(g));
    hide Inv;
    forall e | e in g.handlers ensures HandlerOk(g, e) {
      if e != env {
        OtherHandlers(f, g, env, e);
      } else {
        StoredWord(f, env);
      }
    }
  }

  lemma StoredWord(f: Fine, env: nat)
    requires FineInv(f) && FineEnabled(f, StoreWord(env))
    ensures HandlerOk(FineApply(f, StoreWord(env)), env)
  {
    assert HandlerOk(f, env);
    var g, h := FineApply(f, StoreWord(env)), f.handlers[env];
    var src := f.flat[Slot(env, h.vpn)].hi;
    hide Inv;
    assert src != h.page && g.phys[src] == f.phys[src];
    assert g.phys[h.page] == f.phys[h.page][h.i := h.word];
    assert g.phys[h.page][..h.i + 1] == f.phys[h.page][..h.i] + [h.word];
    assert f.phys[src][..h.i + 1] == f.phys[src][..h.i] + [f.phys[src][h.i]];
  }

  // Mapping the page back is the copy-on-write fault of CowFork: the whole page is there by now.
  lemma MapBackBase(f: Fine, env: nat)
    requires FineInv(f) && FineEnabled(f, MapBack(env))
    ensures var h := f.handlers[env]; var t := Slot(env, h.vpn);
      && t in Base(f).flat && f.flat[t].hi in f.phys && Enabled(Base(f), CowCopy(env, h.vpn, h.page))
      && Base(FineApply(f, MapBack(env))) == CowFault(Base(f), t, h.page)
  {
    var h := f.handlers[env];
    assert HandlerOk(f, env);
    hide Inv;
    var t := Slot(env, h.vpn);
    var src := f.flat[t].hi;
    assert f.phys[h.page] == f.phys[h.page][..NPTE] && f.phys[src] == f.phys[src][..NPTE];
    assert f.phys[h.page := f.phys[src]] == f.phys;
    CleanInsert(f.flat, t, h.page, CopyPerm(h.perm));
  }

  lemma MapBackInv(f: Fine, env: nat)
    requires FineInv(f) && FineEnabled(f, MapBack(env))
    ensures FineInv(FineApply(f, MapBack(env)))
  {
    var g, h := FineApply(f, MapBack(env)), f.handlers[env];
    MapBackBase(f, env);
    CowFaultInv(Base(f), Slot(env, h.vpn), h.page);
    assert HandlerOk(f, env);
    hide Inv, Base, Enabled, HandlerOk;
    forall e | e in g.handlers ensures HandlerOk(g, e) {
      MappedBack(f, env, e);
    }
  }

  lemma MappedBack(f: Fine, env: nat, e: nat)
    requires FineInv(f) && FineEnabled(f, MapBack(env)) && e in f.handlers
    ensures HandlerOk(FineApply(f, MapBack(env)), e)
  {
    assert HandlerOk(f, env);
    hide Inv;
    if e != env {
      OtherHandlers(f, FineApply(f, MapBack(env)), env, e);
    }
  }

  lemma ReleaseInv(f: Fine, env: nat)
    requires FineInv(f) && FineEnabled(f, Release(env))
    ensures FineInv(FineApply(f, Release(env))) && Base(FineApply(f, Release(env))) == Base(f)
  {
    var g := FineApply(f, Release(env));
    assert HandlerOk(f, env);
    assert Clean(Remove(f.flat, Scratch(env))) == Clean(f.flat);
    hide Inv;
    forall e | e in g.handlers ensures HandlerOk(g, e) {
      OtherHandlers(f, g, env, e);
    }
  }

  lemma ProgramInv(f: Fine, st: Step)
    requires FineInv(f) && FineEnabled(f, Program(st))
    ensures FineInv(FineApply(f, Program(st)))
  {
    var g := FineApply(f, Program(st));
    ProgramBase(f, st);
    StepInv(Base(f), st);
    ProgramScratch(f, st);
    hide Inv, HandlerOk, FineApply;
    forall e | e in g.handlers ensures HandlerOk(g, e) {
      ProgramHandler(f, st, e);
    }
  }

  // Program steps map and unmap no scratch page, except that an exit unmaps all pages of its env.
  lemma ProgramScratch(f: Fine, st: Step)
    requires FineInv(f) && FineEnabled(f, Program(st))
    ensures var g := FineApply(f, Program(st));
      forall t :: t in g.flat && t.vpn == VPN_UCOW ==> t.env in g.handlers && HasPage(g.handlers[t.env])
  {
    WholeOk(f, st);
    if st.ForkChild? || st.ForkParent? {
      assert ForkOk(Base(f), st.parent);
      assert Slot(st.parent, f.forks[st.parent].vpn) in Base(f).flat;
    }
    hide Inv, HandlerOk, PagesOk;
  }

  lemma FineStepInv(f: Fine, step: FineStep)
    requires FineInv(f) && FineEnabled(f, step)
    ensures FineInv(FineApply(f, step))
  {
    hide FineInv, FineEnabled, FineApply;
    match step
    case Program(st) => ProgramInv(f, st);
    case Trap(env, vpn) => TrapInv(f, env, vpn);
    case TakePage(env, page) => TakePageInv(f, env, page);
    case LoadWord(env) => LoadWordInv(f, env);
    case StoreWord(env) => StoreWordInv(f, env);
    case MapBack(env) => MapBackInv(f, env);
    case Release(env) => ReleaseInv(f, env);
  }

  // ------------------------------------------------------------------ what the programs see

  // Only program steps show; the handler is invisible.
  function FineObserve(f: Fine, step: FineStep): Obs
    requires FineEnabled(f, step) && PagesOk(Base(f))
  {
    if step.Program? then Observe(Base(f), step.step) else Silent
  }

  function FineEvent(f: Fine, step: FineStep): Event
    requires FineEnabled(f, step)
  {
    if step.Program? then EventOf(Base(f), step.step) else ENone
  }

  lemma BaseOk(f: Fine)
    requires FineInv(f)
    ensures PagesOk(Base(f))
  {
  }

  lemma ProgramSim(f: Fine, a: Eager, st: Step)
    requires FineInv(f) && FineEnabled(f, Program(st)) && Rel(Base(f), a)
    ensures PagesOk(Base(f))
    ensures Rel(Base(FineApply(f, Program(st))), EagerApply(a, EventOf(Base(f), st)))
    ensures Observe(Base(f), st) == EagerObserve(a, EventOf(Base(f), st))
  {
    ProgramBase(f, st);
    assert Inv(Base(f)) && Enabled(Base(f), st);
    hide FineApply, Rel, Inv, Enabled, PagesOk, FineInv;
    StepSim(Base(f), a, st);
  }

  // A handler step changes nothing that programs see.
  lemma SilentSim(f: Fine, a: Eager, step: FineStep)
    requires FineInv(f) && FineEnabled(f, step) && Rel(Base(f), a) && !step.Program?
    ensures Rel(Base(FineApply(f, step)), a)
  {
    BaseOk(f);
    hide FineInv, FineEnabled, FineApply, Rel, Base, PagesOk;
    match step
    case Trap(env, vpn) => TrapInv(f, env, vpn);
    case TakePage(env, page) => TakePageSim(f, a, env, page);
    case LoadWord(env) => LoadWordInv(f, env);
    case StoreWord(env) => StoreWordSim(f, a, env);
    case MapBack(env) => MapBackSim(f, a, env);
    case Release(env) => ReleaseInv(f, env);
  }

  lemma TakePageSim(f: Fine, a: Eager, env: nat, page: nat)
    requires FineInv(f) && FineEnabled(f, TakePage(env, page)) && Rel(Base(f), a)
    ensures Rel(Base(FineApply(f, TakePage(env, page))), a)
  {
    TakePageInv(f, env, page);
    var g := FineApply(f, TakePage(env, page));
    hide FineInv, FineApply, Rel;
    assert forall t :: t in Base(f).flat ==> t in f.flat && f.flat[t].hi != page;
    PhysFrameRel(Base(f), Base(g), a);
  }

  lemma StoreWordSim(f: Fine, a: Eager, env: nat)
    requires FineInv(f) && FineEnabled(f, StoreWord(env)) && Rel(Base(f), a)
    ensures Rel(Base(FineApply(f, StoreWord(env))), a)
  {
    StoreWordInv(f, env);
    hide FineInv, FineApply, Rel;
    PhysFrameRel(Base(f), Base(FineApply(f, StoreWord(env))), a);
  }

  lemma MapBackSim(f: Fine, a: Eager, env: nat)
    requires FineInv(f) && FineEnabled(f, MapBack(env)) && Rel(Base(f), a)
    ensures Rel(Base(FineApply(f, MapBack(env))), a)
  {
    MapBackBase(f, env);
    assert Inv(Base(f));
    hide FineInv, FineApply, Rel, Inv;
    var h := f.handlers[env];
    CowFaultRel(Base(f), a, Slot(env, h.vpn), h.page);
  }

  /** Each step, of a program or of a handler, is one event of the eager machine with the same result. */
  lemma FineStepSim(f: Fine, a: Eager, step: FineStep)
    requires FineInv(f) && FineEnabled(f, step) && Rel(Base(f), a)
    ensures PagesOk(Base(f))
    ensures Rel(Base(FineApply(f, step)), EagerApply(a, FineEvent(f, step)))
    ensures FineObserve(f, step) == EagerObserve(a, FineEvent(f, step))
  {
    BaseOk(f);
    NothingHappens(a);
    hide FineInv, FineApply, Rel, PagesOk, Base, EagerApply, EagerObserve, Observe, EventOf;
    if step.Program? {
      ProgramSim(f, a, step.step);
    } else {
      SilentSim(f, a, step);
    }
  }

  lemma NothingHappens(a: Eager)
    ensures EagerApply(a, ENone) == a && EagerObserve(a, ENone) == Silent
  {
  }

  ghost predicate FineRuns(f: Fine, steps: seq<FineStep>)
    requires FineInv(f)
    decreases |steps|
  {
    steps == [] || (FineEnabled(f, steps[0]) && (FineStepInv(f, steps[0]); FineRuns(FineApply(f, steps[0]), steps[1..])))
  }

  ghost function FineTrace(f: Fine, steps: seq<FineStep>): seq<Obs>
    requires FineInv(f) && FineRuns(f, steps)
    decreases |steps|
  {
    if steps == [] then [] else
      FineStepInv(f, steps[0]);
      [FineObserve(f, steps[0])] + FineTrace(FineApply(f, steps[0]), steps[1..])
  }

  ghost function FineEvents(f: Fine, steps: seq<FineStep>): seq<Event>
    requires FineInv(f) && FineRuns(f, steps)
    decreases |steps|
  {
    if steps == [] then [] else
      FineStepInv(f, steps[0]);
      [FineEvent(f, steps[0])] + FineEvents(FineApply(f, steps[0]), steps[1..])
  }

  /**
   * Copy-on-write fork, with its fault handler interrupted anywhere, refines eager-copy fork: along
   * every run every load and store gives what it would give if fork copied private pages at once.
   */
  lemma {:induction false} HandlerRefinesEager(f: Fine, a: Eager, steps: seq<FineStep>)
    requires FineInv(f) && Rel(Base(f), a) && FineRuns(f, steps)
    ensures FineTrace(f, steps) == EagerTrace(a, FineEvents(f, steps))
    decreases |steps|
  {
    if steps != [] {
      FineStepInv(f, steps[0]);
      FineStepSim(f, a, steps[0]);
      hide FineInv, Rel, FineEnabled, FineApply;
      var e := FineEvent(f, steps[0]);
      HandlerRefinesEager(FineApply(f, steps[0]), EagerApply(a, e), steps[1..]);
      assert FineEvents(f, steps)[1..] == FineEvents(FineApply(f, steps[0]), steps[1..]);
    }
  }

  lemma HandlerRefinesEagerFromStart(s: State, steps: seq<FineStep>)
    requires CleanStart(s)
    ensures var f := Fine(s.flat, s.phys, s.forks, s.live, map[]);
      FineInv(f) && (FineRuns(f, steps) ==> FineTrace(f, steps) == EagerTrace(Snapshot(s), FineEvents(f, steps)))
  {
    var f := Fine(s.flat, s.phys, s.forks, s.live, map[]);
    assert Base(f) == s by { assert Clean(s.flat) == s.flat; }
    CowRefinesEagerFromStart(s, []);
    assert FineInv(f);
    assert Rel(s, Snapshot(s));
    if FineRuns(f, steps) {
      HandlerRefinesEager(f, Snapshot(s), steps);
    }
  }
}
