/**
 * User-level copy-on-write fork (user/lib/fork.c) over the flat address spaces that the kernel's
 * page tables implement, and the proof that it is indistinguishable from copying eagerly.
 *
 * A fork in progress can be interrupted between reading a page's permissions, mapping the page in
 * the child and remapping it in the parent, and the parent itself keeps writing (its stack) between
 * those steps. The fault handler is one step here; module CowHandler takes it apart.
 */
module CowFork {
  import opened Mmu

  // The words of one physical page.
  type Content = c: seq<nat> | |c| == NPTE witness seq(NPTE, i => 0)

  function Zeros(): Content { seq(NPTE, i => 0) }

  // Where a fork stands on its current virtual page.
  datatype Phase =
    | Next                 // about to look at the page
    | GotPerm(perm: Perm)  // duppage has read vpt[vpn] & 0xfff
    | InChild(perm: Perm)  // mapped copy-on-write in the child, still writable in the parent

  datatype Fork = Fork(child: nat, vpn: nat, phase: Phase)

  datatype State = State(flat: Flat, phys: map<nat, Content>, forks: map<nat, Fork>, live: set<nat>)

  // ------------------------------------------------------------------ the code's decisions

  // duppage: must this page become copy-on-write on both sides?
  predicate NeedsCow(perm: Perm) { perm.d && !perm.lib }

  function DupPerm(perm: Perm): Perm {
    if NeedsCow(perm) then perm.(cow := true, d := false) else perm
  }

  // cow_entry: the permissions of the private copy.
  function CopyPerm(perm: Perm): Perm { perm.(cow := false, d := true) }

  // Addresses where passive_alloc maps a page on demand, without the page reserved for cow_entry.
  predicate OnDemand(vpn: nat) {
    VPN_UTEMP <= vpn < VPN_UTOP && vpn != VPN_USTACKTOP && vpn != VPN_UCOW
  }

  // ------------------------------------------------------------------ effects of the steps

  function PassiveAlloc(s: State, t: Slot, page: nat): State {
    s.(flat := Insert(s.flat, t, page, NO_PERM.(d := true)), phys := s.phys[page := Zeros()])
  }

  // cow_entry as a whole: the slot moves to a private writable copy.
  function CowFault(s: State, t: Slot, page: nat): State
    requires t in s.flat && s.flat[t].hi in s.phys
  {
    s.(flat := Insert(s.flat, t, page, CopyPerm(s.flat[t].lo)), phys := s.phys[page := s.phys[s.flat[t].hi]])
  }

  function Poke(s: State, t: Slot, offset: nat, value: nat): State
    requires t in s.flat && s.flat[t].hi in s.phys && offset < NPTE
  {
    s.(phys := s.phys[s.flat[t].hi := s.phys[s.flat[t].hi][offset := value]])
  }

  function MapChild(s: State, parent: nat): State
    requires parent in s.forks && s.forks[parent].phase.GotPerm? && Slot(parent, s.forks[parent].vpn) in s.flat
  {
    var f := s.forks[parent];
    var perm := f.phase.perm;
    s.(flat := Insert(s.flat, Slot(f.child, f.vpn), s.flat[Slot(parent, f.vpn)].hi, DupPerm(perm)),
       forks := s.forks[parent := if NeedsCow(perm) then f.(phase := InChild(DupPerm(perm)))
                                  else f.(vpn := f.vpn + 1, phase := Next)])
  }

  function MapParent(s: State, parent: nat): State
    requires parent in s.forks && s.forks[parent].phase.InChild? && Slot(parent, s.forks[parent].vpn) in s.flat
  {
    var f := s.forks[parent];
    s.(flat := Insert(s.flat, Slot(parent, f.vpn), s.flat[Slot(parent, f.vpn)].hi, f.phase.perm),
       forks := s.forks[parent := f.(vpn := f.vpn + 1, phase := Next)])
  }

  function Forget(flat: Flat, env: nat): Flat {
    map t | t in flat && t.env != env :: flat[t]
  }

  // ------------------------------------------------------------------ the eager machine

  // What an eagerly copying fork gives each slot: its own data, or a cell shared by name.
  datatype View = Private(data: Content, writable: bool) | Cell(id: nat, writable: bool)

  datatype Eager = Eager(view: map<Slot, View>, cells: map<nat, Content>)

  // ------------------------------------------------------------------ the relation between them

  // The child's slot between the two system calls of duppage: not yet part of the child.
  predicate Embryo(s: State, t: Slot) {
    exists p :: p in s.forks && s.forks[p].phase.InChild? && t == Slot(s.forks[p].child, s.forks[p].vpn)
  }

  predicate Pair(s: State, t: Slot, u: Slot) {
    && t.env in s.forks && s.forks[t.env].phase.InChild?
    && t.vpn == s.forks[t.env].vpn && u == Slot(s.forks[t.env].child, t.vpn)
  }

  // Two slots that may translate to the same page.
  predicate MayShare(s: State, t: Slot, u: Slot)
    requires t in s.flat && u in s.flat
  {
    || (s.flat[t].lo.lib && s.flat[u].lo.lib)
    || (!s.flat[t].lo.lib && !s.flat[u].lo.lib && !s.flat[t].lo.d && !s.flat[u].lo.d)
    || Pair(s, t, u) || Pair(s, u, t)
  }

  ghost predicate PagesOk(s: State) {
    forall t :: t in s.flat ==>
      s.flat[t].hi in s.phys && !(s.flat[t].lo.lib && s.flat[t].lo.cow) && s.flat[t].lo.v
  }

  // The page that cow_entry uses as scratch is not in use.
  ghost predicate NoScratch(flat: Flat) {
    forall t :: t in flat ==> t.vpn != VPN_UCOW
  }

  /** A writable page that is not LIBRARY has one mapping, except midway through duppage. */
  ghost predicate SharingOk(s: State) {
    forall t, u :: t in s.flat && u in s.flat && t != u && s.flat[t].hi == s.flat[u].hi ==> MayShare(s, t, u)
  }

  ghost predicate ForkOk(s: State, p: nat)
    requires p in s.forks
  {
    var f := s.forks[p];
    && p in s.live && f.child !in s.live && f.vpn <= VPN_USTACKTOP
    && (forall q :: q in s.forks && q != p ==> s.forks[q].child != f.child)
    && (forall t :: t in s.flat && t.env == f.child ==> t.vpn < f.vpn || (t.vpn == f.vpn && f.phase.InChild?))
    && (!f.phase.Next? ==> f.vpn < VPN_USTACKTOP && Slot(p, f.vpn) in s.flat)
    && (f.phase.GotPerm? ==> s.flat[Slot(p, f.vpn)].lo == f.phase.perm)
    && (f.phase.InChild? ==>
          && Slot(f.child, f.vpn) in s.flat && s.flat[Slot(f.child, f.vpn)].hi == s.flat[Slot(p, f.vpn)].hi
          && s.flat[Slot(f.child, f.vpn)].lo == f.phase.perm
          && f.phase.perm == DupPerm(s.flat[Slot(p, f.vpn)].lo) && NeedsCow(s.flat[Slot(p, f.vpn)].lo))
  }

  ghost predicate Inv(s: State) {
    && PagesOk(s) && NoScratch(s.flat)
    && SharingOk(s)
    && (forall p :: p in s.forks ==> ForkOk(s, p))
  }

  // One slot of the copy-on-write machine looks like one slot of the eager machine.
  predicate Looks(s: State, a: Eager, t: Slot)
    requires t in s.flat && t in a.view
  {
    var w := s.flat[t];
    if w.lo.lib then
      a.view[t] == Cell(w.hi, w.lo.d) && w.hi in a.cells && w.hi in s.phys && a.cells[w.hi] == s.phys[w.hi]
    else
      w.hi in s.phys && a.view[t] == Private(s.phys[w.hi], w.lo.d || w.lo.cow)
  }

  ghost predicate Rel(s: State, a: Eager) {
    && (forall t :: t in a.view <==> t in s.flat && !Embryo(s, t))
    && (forall t :: t in a.view ==> Looks(s, a, t))
  }

  predicate Fresh(s: State, page: nat) {
    forall t :: t in s.flat ==> s.flat[t].hi != page
  }

  // ------------------------------------------------------------------ each effect simulates

  lemma PassiveAllocInv(s: State, t: Slot, page: nat)
    requires Inv(s) && t !in s.flat && Fresh(s, page) && t.env in s.live && t.vpn != VPN_UCOW
    ensures Inv(PassiveAlloc(s, t, page))
  {
    var r := PassiveAlloc(s, t, page);
    PassiveAllocPages(s, t, page);
    hide SharingOk, PagesOk, NoScratch;
    forall p | p in r.forks ensures ForkOk(r, p) {
      assert ForkOk(s, p);
      ForkKeeps(s, r, p);
    }
  }

  lemma PassiveAllocPages(s: State, t: Slot, page: nat)
    requires PagesOk(s) && SharingOk(s) && NoScratch(s.flat) && t !in s.flat && Fresh(s, page) && t.vpn != VPN_UCOW
    ensures var r := PassiveAlloc(s, t, page); PagesOk(r) && SharingOk(r) && NoScratch(r.flat)
  {
    var r := PassiveAlloc(s, t, page);
    forall x, y | x in r.flat && y in r.flat && x != y && r.flat[x].hi == r.flat[y].hi ensures MayShare(r, x, y) {
      assert x != t && y != t && MayShare(s, x, y);
    }
  }

  lemma PassiveAllocRel(s: State, a: Eager, t: Slot, page: nat)
    requires Inv(s) && Rel(s, a) && t !in s.flat && Fresh(s, page) && t.env in s.live
    ensures Rel(PassiveAlloc(s, t, page), a.(view := a.view[t := Private(Zeros(), true)]))
  {
    hide SharingOk, ForkOk;
    var r, b := PassiveAlloc(s, t, page), a.(view := a.view[t := Private(Zeros(), true)]);
    LiveIsNotEmbryo(s, t);
    assert forall u :: Embryo(r, u) <==> Embryo(s, u);
    hide Embryo, PagesOk;
    forall u | u in b.view ensures u in r.flat && Looks(r, b, u) {
      assert u != t ==> Looks(s, a, u);
    }
  }

  // A fork's own bookkeeping only looks at the child's slots and at its current page in the parent.
  lemma ForkKeeps(s: State, r: State, p: nat)
    requires p in s.forks && ForkOk(s, p) && r.forks == s.forks && r.live == s.live
    requires forall t: Slot :: t.env == s.forks[p].child ==> (t in r.flat <==> t in s.flat)
    requires forall t: Slot :: t.env == s.forks[p].child && t in s.flat ==> r.flat[t] == s.flat[t]
    requires !s.forks[p].phase.Next? ==>
      var t := Slot(p, s.forks[p].vpn); t in r.flat && r.flat[t] == s.flat[t]
    ensures ForkOk(r, p)
  {
  }

  lemma CowFaultInv(s: State, t: Slot, page: nat)
    requires Inv(s) && t in s.flat && Fresh(s, page) && t.env in s.live
    requires s.flat[t].lo.cow && !s.flat[t].lo.d
    requires t.env in s.forks && s.forks[t.env].phase.GotPerm? ==> s.forks[t.env].vpn != t.vpn
    ensures Inv(CowFault(s, t, page))
  {
    var r := CowFault(s, t, page);
    assert SharingOk(r) by { hide ForkOk; }
    forall p | p in r.forks ensures ForkOk(r, p) {
      hide SharingOk, PagesOk;
      assert ForkOk(s, p);
      ForkKeeps(s, r, p);
    }
  }

  lemma CowFaultRel(s: State, a: Eager, t: Slot, page: nat)
    requires Inv(s) && Rel(s, a) && t in s.flat && Fresh(s, page) && t.env in s.live
    requires s.flat[t].lo.cow && !s.flat[t].lo.d
    ensures Rel(CowFault(s, t, page), a)
  {
    hide SharingOk, ForkOk;
    assert !s.flat[t].lo.lib;
    var r := CowFault(s, t, page);
    assert forall u :: Embryo(r, u) <==> Embryo(s, u);
    hide Embryo, PagesOk;
    forall u | u in a.view ensures u in r.flat && Looks(r, a, u) {
      assert Looks(s, a, u);
    }
  }

  lemma PokeInv(s: State, t: Slot, offset: nat, value: nat)
    requires Inv(s) && t in s.flat && offset < NPTE
    ensures s.flat[t].hi in s.phys
    ensures Inv(Poke(s, t, offset, value))
  {
    var r := Poke(s, t, offset, value);
    forall p | p in r.forks ensures ForkOk(r, p) {
      hide SharingOk, PagesOk;
      assert ForkOk(s, p);
      ForkKeeps(s, r, p);
    }
  }

  // What a store does in the eager machine.
  function Write(a: Eager, t: Slot, offset: nat, value: nat): Eager
    requires t in a.view && offset < NPTE && (a.view[t].Cell? ==> a.view[t].id in a.cells)
  {
    match a.view[t]
    case Private(data, w) => a.(view := a.view[t := Private(data[offset := value], w)])
    case Cell(id, w) => a.(cells := a.cells[id := a.cells[id][offset := value]])
  }

  /** A store through a writable mapping reaches exactly the slots that the eager store reaches. */
  lemma PokeRel(s: State, a: Eager, t: Slot, offset: nat, value: nat)
    requires Inv(s) && Rel(s, a) && t in s.flat && offset < NPTE && s.flat[t].lo.d && t.env in s.live
    ensures t in a.view && (a.view[t].Cell? ==> a.view[t].id in a.cells) && s.flat[t].hi in s.phys
    ensures Rel(Poke(s, t, offset, value), Write(a, t, offset, value))
  {
    LiveIsNotEmbryo(s, t);
    assert Looks(s, a, t);
    var r, b := Poke(s, t, offset, value), Write(a, t, offset, value);
    assert forall u :: Embryo(r, u) <==> Embryo(s, u);
    forall u | u in b.view ensures Looks(r, b, u) {
      assert Looks(s, a, u);
      if u != t && s.flat[u].hi == s.flat[t].hi {
        assert MayShare(s, t, u);
        PairIsEmbryo(s, t, u);
        PairIsEmbryo(s, u, t);
      }
    }
  }

  lemma LiveIsNotEmbryo(s: State, t: Slot)
    requires Inv(s) && t.env in s.live
    ensures !Embryo(s, t)
  {
    forall p | p in s.forks ensures s.forks[p].child != t.env {
      assert ForkOk(s, p);
    }
  }

  lemma PairIsEmbryo(s: State, t: Slot, u: Slot)
    ensures Pair(s, t, u) ==> Embryo(s, u)
  {
  }

  // What fork does to one page in the eager machine: copy private data, share a cell by name.
  function Copy(a: Eager, parent: nat, child: nat, vpn: nat): Eager
    requires Slot(parent, vpn) in a.view
  {
    a.(view := a.view[Slot(child, vpn) := a.view[Slot(parent, vpn)]])
  }

  // The bookkeeping of the other forks survives a change of the slot (env, vpn).
  lemma OtherFork(s: State, r: State, parent: nat, q: nat, t: Slot)
    requires q in s.forks && q != parent && ForkOk(s, q) && r.live == s.live
    requires parent in s.forks && ForkOk(s, parent)
    requires parent in r.forks && r.forks == s.forks[parent := r.forks[parent]]
    requires r.forks[parent].child == s.forks[parent].child
    requires t.env == parent || t.env == s.forks[parent].child
    requires t in r.flat && r.flat == s.flat[t := r.flat[t]]
    ensures ForkOk(r, q)
  {
  }

  lemma MapChildInv(s: State, parent: nat)
    requires Inv(s) && parent in s.forks && s.forks[parent].phase.GotPerm?
    ensures Slot(parent, s.forks[parent].vpn) in s.flat
    ensures Inv(MapChild(s, parent))
  {
    assert ForkOk(s, parent);
    var f := s.forks[parent];
    var t, u := Slot(parent, f.vpn), Slot(f.child, f.vpn);
    var r := MapChild(s, parent);
    assert t.env in s.live && u.env !in s.live;
    forall x, y | x in r.flat && y in r.flat && x != y && r.flat[x].hi == r.flat[y].hi ensures MayShare(r, x, y) {
      MapChildSharing(s, parent, x, y);
    }
    MapChildForks(s, parent);
  }

  lemma MapChildForks(s: State, parent: nat)
    requires Inv(s) && parent in s.forks && s.forks[parent].phase.GotPerm?
    requires Slot(parent, s.forks[parent].vpn) in s.flat
    ensures forall q :: q in s.forks ==> ForkOk(MapChild(s, parent), q)
  {
    hide SharingOk;
    assert ForkOk(s, parent);
    assert s.flat[Slot(parent, s.forks[parent].vpn)].lo.v;
    hide PagesOk;
    var r := MapChild(s, parent);
    forall q | q in s.forks ensures ForkOk(r, q) {
      assert ForkOk(s, q);
      if q != parent {
        OtherFork(s, r, parent, q, Slot(s.forks[parent].child, s.forks[parent].vpn));
      }
    }
  }

  lemma MapChildSharing(s: State, parent: nat, x: Slot, y: Slot)
    requires Inv(s) && parent in s.forks && s.forks[parent].phase.GotPerm?
    requires Slot(parent, s.forks[parent].vpn) in s.flat
    requires var r := MapChild(s, parent); x in r.flat && y in r.flat && x != y && r.flat[x].hi == r.flat[y].hi
    ensures MayShare(MapChild(s, parent), x, y)
  {
    assert ForkOk(s, parent);
    var f := s.forks[parent];
    var t, u := Slot(parent, f.vpn), Slot(f.child, f.vpn);
    var r := MapChild(s, parent);
    PairKept(s, r, parent, x, y);
    PairKept(s, r, parent, y, x);
    if x != u && y != u {
      assert MayShare(s, x, y);
    } else {
      var z := if x == u then y else x;
      assert z in s.flat && s.flat[z].hi == s.flat[t].hi;
      NotInPair(s, t);
      if z != t {
        assert MayShare(s, z, t);
      }
    }
  }

  lemma PairKept(s: State, r: State, parent: nat, x: Slot, y: Slot)
    requires parent in s.forks && !s.forks[parent].phase.InChild?
    requires forall q :: q in s.forks && q != parent ==> q in r.forks && r.forks[q] == s.forks[q]
    ensures Pair(s, x, y) ==> Pair(r, x, y)
  {
  }

  // A slot of a live env that is not midway through duppage is in no pair.
  lemma NotInPair(s: State, t: Slot)
    requires Inv(s) && t.env in s.live
    requires t.env in s.forks ==> !s.forks[t.env].phase.InChild?
    ensures forall u :: !Pair(s, t, u) && !Pair(s, u, t)
  {
    LiveIsNotEmbryo(s, t);
    forall u ensures !Pair(s, u, t) {
      PairIsEmbryo(s, u, t);
    }
  }

  // What duppage knows about the page it is about to map in the child.
  lemma MapChildFacts(s: State, a: Eager, parent: nat)
    requires Inv(s) && Rel(s, a) && parent in s.forks && s.forks[parent].phase.GotPerm?
    ensures var f := s.forks[parent]; var t := Slot(parent, f.vpn);
      && t in s.flat && t in a.view && Looks(s, a, t) && s.flat[t].lo == f.phase.perm
      && Slot(f.child, f.vpn) !in s.flat
  {
    hide SharingOk;
    assert ForkOk(s, parent);
    var t := Slot(parent, s.forks[parent].vpn);
    assert t in s.flat && t.env in s.live;
    LiveIsNotEmbryo(s, t);
  }

  lemma MapChildEmbryos(s: State, parent: nat, x: Slot)
    requires parent in s.forks && s.forks[parent].phase.GotPerm? && Slot(parent, s.forks[parent].vpn) in s.flat
    ensures var f := s.forks[parent];
      Embryo(MapChild(s, parent), x) <==> Embryo(s, x) || (x == Slot(f.child, f.vpn) && NeedsCow(f.phase.perm))
  {
    EmbryosAfter(s, MapChild(s, parent), parent, x);
  }

  /** Mapping the child: the eager machine copies now, unless the parent is still writing the page. */
  lemma MapChildRel(s: State, a: Eager, parent: nat)
    requires Inv(s) && Rel(s, a) && parent in s.forks && s.forks[parent].phase.GotPerm?
    ensures var f := s.forks[parent];
      && Slot(parent, f.vpn) in s.flat && Slot(parent, f.vpn) in a.view
      && Rel(MapChild(s, parent), if NeedsCow(f.phase.perm) then a else Copy(a, parent, f.child, f.vpn))
  {
    hide Looks, Embryo;
    MapChildFacts(s, a, parent);
    EmbryoChild(s, parent);
    hide Inv;
    var f := s.forks[parent];
    var u := Slot(f.child, f.vpn);
    var r := MapChild(s, parent);
    var b := if NeedsCow(f.phase.perm) then a else Copy(a, parent, f.child, f.vpn);
    forall x ensures x in b.view <==> x in r.flat && !Embryo(r, x) {
      MapChildEmbryos(s, parent, x);
    }
    forall x | x in b.view ensures x in r.flat && Looks(r, b, x) {
      hide MapChild;
      MapChildLooks(s, a, parent, x);
    }
  }

  lemma MapChildLooks(s: State, a: Eager, parent: nat, x: Slot)
    requires parent in s.forks && s.forks[parent].phase.GotPerm?
    requires var t := Slot(parent, s.forks[parent].vpn);
      t in s.flat && t in a.view && Looks(s, a, t) && s.flat[t].lo == s.forks[parent].phase.perm
    requires var f := s.forks[parent];
      if x == Slot(f.child, f.vpn) then !NeedsCow(f.phase.perm) else x in s.flat && x in a.view && Looks(s, a, x)
    ensures var f := s.forks[parent];
      var r, b := MapChild(s, parent), if NeedsCow(f.phase.perm) then a else Copy(a, parent, f.child, f.vpn);
      x in r.flat && x in b.view && Looks(r, b, x)
  {
  }

  lemma EmbryosAfter(s: State, r: State, parent: nat, x: Slot)
    requires parent in s.forks && !s.forks[parent].phase.InChild?
    requires parent in r.forks && r.forks == s.forks[parent := r.forks[parent]]
    ensures Embryo(r, x) <==>
      Embryo(s, x) || (r.forks[parent].phase.InChild? && x == Slot(r.forks[parent].child, r.forks[parent].vpn))
  {
    if Embryo(s, x) {
      var p :| p in s.forks && s.forks[p].phase.InChild? && x == Slot(s.forks[p].child, s.forks[p].vpn);
      assert p in r.forks && r.forks[p] == s.forks[p];
    }
  }

  // No other fork works on the same child.
  lemma EmbryoChild(s: State, parent: nat)
    requires Inv(s) && parent in s.forks && !s.forks[parent].phase.InChild?
    ensures forall v :: !Embryo(s, Slot(s.forks[parent].child, v))
  {
    forall p | p in s.forks && p != parent ensures s.forks[p].child != s.forks[parent].child {
      assert ForkOk(s, p);
      assert ForkOk(s, parent);
    }
  }

  lemma MapParentInv(s: State, parent: nat)
    requires Inv(s) && parent in s.forks && s.forks[parent].phase.InChild?
    ensures Slot(parent, s.forks[parent].vpn) in s.flat
    ensures Inv(MapParent(s, parent))
  {
    assert ForkOk(s, parent);
    var f := s.forks[parent];
    var t := Slot(parent, f.vpn);
    var r := MapParent(s, parent);
    forall x, y | x in r.flat && y in r.flat && x != y && r.flat[x].hi == r.flat[y].hi ensures MayShare(r, x, y) {
      MapParentSharing(s, parent, x, y);
    }
    forall q | q in r.forks ensures ForkOk(r, q) {
      hide SharingOk, PagesOk;
      assert ForkOk(s, q);
      if q != parent {
        OtherFork(s, r, parent, q, t);
      }
    }
  }

  lemma MapParentSharing(s: State, parent: nat, x: Slot, y: Slot)
    requires Inv(s) && parent in s.forks && s.forks[parent].phase.InChild?
    requires Slot(parent, s.forks[parent].vpn) in s.flat
    requires var r := MapParent(s, parent); x in r.flat && y in r.flat && x != y && r.flat[x].hi == r.flat[y].hi
    ensures MayShare(MapParent(s, parent), x, y)
  {
    assert ForkOk(s, parent);
    var f := s.forks[parent];
    var t, u := Slot(parent, f.vpn), Slot(f.child, f.vpn);
    var r := MapParent(s, parent);
    assert MayShare(s, x, y);
    if Pair(s, x, y) && x.env != parent {
      assert Pair(r, x, y);
    } else if Pair(s, y, x) && y.env != parent {
      assert Pair(r, y, x);
    } else if (x == t || y == t) && !Pair(s, x, y) && !Pair(s, y, x) {
      assert s.flat[t].lo.d && !s.flat[t].lo.lib;
    }
  }

  lemma EmbryosAfterParent(s: State, parent: nat)
    requires Inv(s) && parent in s.forks && s.forks[parent].phase.InChild?
    requires Slot(parent, s.forks[parent].vpn) in s.flat
    ensures var u := Slot(s.forks[parent].child, s.forks[parent].vpn);
      && !Embryo(MapParent(s, parent), u)
      && forall x :: Embryo(s, x) <==> Embryo(MapParent(s, parent), x) || x == u
  {
    hide SharingOk, PagesOk;
    var f := s.forks[parent];
    var r, u := MapParent(s, parent), Slot(f.child, f.vpn);
    forall p | p in s.forks && p != parent ensures s.forks[p].child != f.child {
      assert ForkOk(s, p);
    }
    forall x ensures Embryo(s, x) <==> Embryo(r, x) || x == u {
      if Embryo(s, x) && x != u {
        var p :| p in s.forks && s.forks[p].phase.InChild? && x == Slot(s.forks[p].child, s.forks[p].vpn);
        assert p in r.forks && r.forks[p] == s.forks[p];
      }
    }
  }

  /** Remapping the parent: this is the moment the eager machine copies the page. */
  lemma MapParentRel(s: State, a: Eager, parent: nat)
    requires Inv(s) && Rel(s, a) && parent in s.forks && s.forks[parent].phase.InChild?
    ensures var f := s.forks[parent];
      && Slot(parent, f.vpn) in s.flat && Slot(parent, f.vpn) in a.view
      && Rel(MapParent(s, parent), Copy(a, parent, f.child, f.vpn))
  {
    hide SharingOk, Embryo;
    assert ForkOk(s, parent);
    var f := s.forks[parent];
    var t, u := Slot(parent, f.vpn), Slot(f.child, f.vpn);
    assert s.flat[u].hi == s.flat[t].hi && s.flat[u].lo == DupPerm(s.flat[t].lo) && NeedsCow(s.flat[t].lo);
    assert f.phase.perm == DupPerm(s.flat[t].lo) && t.env in s.live;
    hide ForkOk, PagesOk;
    LiveIsNotEmbryo(s, t);
    assert Looks(s, a, t);
    var r := MapParent(s, parent);
    EmbryosAfterParent(s, parent);
    var b := Copy(a, parent, f.child, f.vpn);
    forall x | x in b.view ensures x in r.flat && Looks(r, b, x) {
      assert x != u ==> Looks(s, a, x);
    }
  }

  // ------------------------------------------------------------------ runs

  // Loads and stores name the page that page_alloc would hand out if one is needed.
  datatype Step =
    | Load(env: nat, vpn: nat, offset: nat, page: nat)
    | Store(env: nat, vpn: nat, offset: nat, value: nat, page: nat)
    | CowCopy(env: nat, vpn: nat, page: nat)
    | ForkStart(parent: nat, child: nat)
    | ForkRead(parent: nat)
    | ForkChild(parent: nat)
    | ForkParent(parent: nat)
    | ForkEnd(parent: nat)
    | Exit(env: nat)

  // A store there takes the copy-on-write fault.
  predicate Faults(s: State, t: Slot) {
    t in s.flat && !s.flat[t].lo.d && s.flat[t].lo.cow
  }

  // The page duppage is looking at: its permissions are in a register, the page not yet mapped.
  predicate InWindow(s: State, t: Slot) {
    t.env in s.forks && s.forks[t.env].phase.GotPerm? && s.forks[t.env].vpn == t.vpn
  }

  predicate Enabled(s: State, step: Step) {
    match step
    case Load(env, vpn, offset, page) =>
      env in s.live && offset < NPTE && (Slot(env, vpn) in s.flat || (OnDemand(vpn) && Fresh(s, page)))
    case Store(env, vpn, offset, value, page) =>
      && env in s.live && offset < NPTE
      && (if Slot(env, vpn) in s.flat then !Faults(s, Slot(env, vpn)) else OnDemand(vpn) && Fresh(s, page))
    case CowCopy(env, vpn, page) =>
      env in s.live && Faults(s, Slot(env, vpn)) && Fresh(s, page) && !InWindow(s, Slot(env, vpn))
    case ForkStart(parent, child) =>
      && parent in s.live && parent !in s.forks && child !in s.live
      && (forall p :: p in s.forks ==> s.forks[p].child != child)
      && (forall t :: t in s.flat ==> t.env != child)
    case ForkRead(parent) =>
      parent in s.forks && s.forks[parent].phase.Next? && s.forks[parent].vpn < VPN_USTACKTOP
    case ForkChild(parent) => parent in s.forks && s.forks[parent].phase.GotPerm?
    case ForkParent(parent) => parent in s.forks && s.forks[parent].phase.InChild?
    case ForkEnd(parent) =>
      parent in s.forks && s.forks[parent].phase.Next? && s.forks[parent].vpn == VPN_USTACKTOP
    case Exit(env) => env in s.live && env !in s.forks
  }

  function Settle(s: State, t: Slot, page: nat): State {
    if t in s.flat then s else PassiveAlloc(s, t, page)
  }

  function StoreEffect(s: State, t: Slot, offset: nat, value: nat, page: nat): State
    requires PagesOk(s) && offset < NPTE
  {
    var s1 := Settle(s, t, page);
    if s1.flat[t].lo.d then Poke(s1, t, offset, value) else s1
  }

  function Apply(s: State, step: Step): State
    requires Enabled(s, step) && PagesOk(s)
  {
    match step
    case Load(env, vpn, offset, page) => Settle(s, Slot(env, vpn), page)
    case Store(env, vpn, offset, value, page) => StoreEffect(s, Slot(env, vpn), offset, value, page)
    case CowCopy(env, vpn, page) => CowFault(s, Slot(env, vpn), page)
    case ForkStart(parent, child) => s.(forks := s.forks[parent := Fork(child, 0, Next)])
    case ForkRead(parent) =>
      var f := s.forks[parent];
      if Slot(parent, f.vpn) in s.flat then
        s.(forks := s.forks[parent := f.(phase := GotPerm(s.flat[Slot(parent, f.vpn)].lo))])
      else
        s.(forks := s.forks[parent := f.(vpn := f.vpn + 1)])
    // syscall_mem_map does nothing for a page that is not mapped
    case ForkChild(parent) => if Slot(parent, s.forks[parent].vpn) in s.flat then MapChild(s, parent) else s
    case ForkParent(parent) => if Slot(parent, s.forks[parent].vpn) in s.flat then MapParent(s, parent) else s
    case ForkEnd(parent) => s.(forks := s.forks - {parent}, live := s.live + {s.forks[parent].child})
    case Exit(env) => s.(flat := Forget(s.flat, env), live := s.live - {env})
  }

  datatype Obs = Silent | Value(value: nat) | Denied

  function Observe(s: State, step: Step): Obs
    requires Enabled(s, step) && PagesOk(s)
  {
    match step
    case Load(env, vpn, offset, page) =>
      var t := Slot(env, vpn);
      Value(if t in s.flat then s.phys[s.flat[t].hi][offset] else 0)
    case Store(env, vpn, offset, value, page) =>
      var t := Slot(env, vpn);
      if t in s.flat && !s.flat[t].lo.d && !s.flat[t].lo.cow then Denied else Silent
    case _ => Silent
  }

  // What the same step means to the eager machine.
  datatype Event =
    | ELoad(t: Slot, offset: nat)
    | EStore(t: Slot, offset: nat, value: nat)
    | ECopy(parent: nat, child: nat, vpn: nat)
    | EExit(env: nat)
    | ENone

  function EventOf(s: State, step: Step): Event
    requires Enabled(s, step)
  {
    match step
    case Load(env, vpn, offset, page) => ELoad(Slot(env, vpn), offset)
    case Store(env, vpn, offset, value, page) => EStore(Slot(env, vpn), offset, value)
    case ForkChild(parent) =>
      var f := s.forks[parent];
      if NeedsCow(f.phase.perm) then ENone else ECopy(parent, f.child, f.vpn)
    case ForkParent(parent) => ECopy(parent, s.forks[parent].child, s.forks[parent].vpn)
    case Exit(env) => EExit(env)
    case _ => ENone
  }

  function Demand(a: Eager, t: Slot): Eager {
    if t in a.view then a else a.(view := a.view[t := Private(Zeros(), true)])
  }

  function EagerApply(a: Eager, e: Event): Eager {
    match e
    case ELoad(t, offset) => Demand(a, t)
    case EStore(t, offset, value) =>
      var b := Demand(a, t);
      if b.view[t].writable && offset < NPTE && (b.view[t].Cell? ==> b.view[t].id in b.cells)
      then Write(b, t, offset, value) else b
    case ECopy(parent, child, vpn) => if Slot(parent, vpn) in a.view then Copy(a, parent, child, vpn) else a
    case EExit(env) => a.(view := map t | t in a.view && t.env != env :: a.view[t])
    case ENone => a
  }

  function EagerObserve(a: Eager, e: Event): Obs {
    match e
    case ELoad(t, offset) =>
      var v := Demand(a, t).view[t];
      var data := if v.Private? then v.data else if v.id in a.cells then a.cells[v.id] else Zeros();
      Value(if offset < NPTE then data[offset] else 0)
    case EStore(t, offset, value) => if Demand(a, t).view[t].writable then Silent else Denied
    case _ => Silent
  }

  lemma SettleInv(s: State, t: Slot, page: nat)
    requires Inv(s) && t.env in s.live && (t in s.flat || (OnDemand(t.vpn) && Fresh(s, page)))
    ensures Inv(Settle(s, t, page))
  {
    hide Inv;
    if t !in s.flat {
      PassiveAllocInv(s, t, page);
    }
  }

  lemma StoreInv(s: State, env: nat, vpn: nat, offset: nat, value: nat, page: nat)
    requires Inv(s) && Enabled(s, Store(env, vpn, offset, value, page))
    ensures Inv(Apply(s, Store(env, vpn, offset, value, page)))
  {
    var t := Slot(env, vpn);
    SettleInv(s, t, page);
    var s1 := Settle(s, t, page);
    hide Inv;
    if s1.flat[t].lo.d {
      PokeInv(s1, t, offset, value);
    }
  }

  lemma ControlInv(s: State, step: Step)
    requires Inv(s) && Enabled(s, step) && (step.ForkStart? || step.ForkRead? || step.ForkEnd?)
    ensures Inv(Apply(s, step))
  {
    var r := Apply(s, step);
    ControlPairs(s, step);
    assert PagesOk(r) && SharingOk(r) by { hide ForkOk, Pair; }
    hide SharingOk, PagesOk, ForkOk;
    forall p | p in r.forks ensures ForkOk(r, p) {
      ControlForks(s, step, p);
    }
  }

  lemma ControlPairs(s: State, step: Step)
    requires Inv(s) && Enabled(s, step) && (step.ForkStart? || step.ForkRead? || step.ForkEnd?)
    ensures forall t, u :: Pair(Apply(s, step), t, u) <==> Pair(s, t, u)
  {
    hide SharingOk, ForkOk;
  }

  lemma ControlForks(s: State, step: Step, p: nat)
    requires Inv(s) && Enabled(s, step) && (step.ForkStart? || step.ForkRead? || step.ForkEnd?)
    requires p in Apply(s, step).forks
    ensures ForkOk(Apply(s, step), p)
  {
    hide SharingOk;
    assert p in s.forks ==> ForkOk(s, p);
    assert !step.ForkStart? ==> ForkOk(s, step.parent);
    hide PagesOk;
  }

  lemma ControlEmbryos(s: State, step: Step)
    requires Inv(s) && Enabled(s, step) && (step.ForkStart? || step.ForkRead? || step.ForkEnd?)
    ensures forall t :: Embryo(Apply(s, step), t) <==> Embryo(s, t)
  {
    hide SharingOk, ForkOk;
    var r := Apply(s, step);
    forall t ensures Embryo(r, t) <==> Embryo(s, t) {
      if Embryo(s, t) {
        var p :| p in s.forks && s.forks[p].phase.InChild? && t == Slot(s.forks[p].child, s.forks[p].vpn);
        assert p in r.forks && r.forks[p] == s.forks[p];
      }
    }
  }

  lemma ExitInv(s: State, env: nat)
    requires Inv(s) && Enabled(s, Exit(env))
    ensures Inv(Apply(s, Exit(env)))
  {
    var r := Apply(s, Exit(env));
    assert PagesOk(r) && SharingOk(r) by {
      hide ForkOk;
      forall t, u | t in r.flat && u in r.flat && t != u && r.flat[t].hi == r.flat[u].hi ensures MayShare(r, t, u) {
        assert MayShare(s, t, u);
      }
    }
    hide SharingOk, PagesOk;
    forall p | p in r.forks ensures ForkOk(r, p) {
      assert ForkOk(s, p);
    }
  }

  /** The sharing discipline survives every step. */
  lemma StepInv(s: State, step: Step)
    requires Inv(s) && Enabled(s, step)
    ensures Inv(Apply(s, step))
  {
    match step
    case Load(env, vpn, offset, page) => SettleInv(s, Slot(env, vpn), page);
    case Store(env, vpn, offset, value, page) => StoreInv(s, env, vpn, offset, value, page);
    case CowCopy(env, vpn, page) => CowFaultInv(s, Slot(env, vpn), page);
    case ForkStart(parent, child) => ControlInv(s, step);
    case ForkRead(parent) => ControlInv(s, step);
    case ForkChild(parent) => MapChildInv(s, parent);
    case ForkParent(parent) => MapParentInv(s, parent);
    case ForkEnd(parent) => ControlInv(s, step);
    case Exit(env) => ExitInv(s, env);
  }

  lemma SettleRel(s: State, a: Eager, t: Slot, page: nat)
    requires Inv(s) && Rel(s, a) && t.env in s.live
    requires t in s.flat || (OnDemand(t.vpn) && Fresh(s, page))
    ensures Rel(Settle(s, t, page), Demand(a, t)) && (t in a.view <==> t in s.flat)
  {
    hide SharingOk, PagesOk, ForkOk, Embryo;
    LiveIsNotEmbryo(s, t);
    if t !in s.flat {
      PassiveAllocRel(s, a, t, page);
    }
  }

  lemma LoadSim(s: State, a: Eager, env: nat, vpn: nat, offset: nat, page: nat)
    requires Inv(s) && Rel(s, a) && Enabled(s, Load(env, vpn, offset, page))
    ensures var step := Load(env, vpn, offset, page);
      Observe(s, step) == EagerObserve(a, ELoad(Slot(env, vpn), offset))
  {
    var t := Slot(env, vpn);
    LiveIsNotEmbryo(s, t);
    assert t in s.flat ==> t in a.view && Looks(s, a, t);
    assert Zeros()[offset] == 0;
  }

  lemma StoreSim(s: State, a: Eager, env: nat, vpn: nat, offset: nat, value: nat, page: nat)
    requires Inv(s) && Rel(s, a) && Enabled(s, Store(env, vpn, offset, value, page))
    ensures var step := Store(env, vpn, offset, value, page);
      && Rel(Apply(s, step), EagerApply(a, EStore(Slot(env, vpn), offset, value)))
      && Observe(s, step) == EagerObserve(a, EStore(Slot(env, vpn), offset, value))
  {
    var t := Slot(env, vpn);
    SettleInv(s, t, page);
    SettleRel(s, a, t, page);
    var s1, b := Settle(s, t, page), Demand(a, t);
    assert Looks(s1, b, t);
    hide Inv, Rel;
    if s1.flat[t].lo.d {
      PokeRel(s1, b, t, offset, value);
    }
  }

  lemma ControlRel(s: State, a: Eager, step: Step)
    requires Inv(s) && Rel(s, a) && Enabled(s, step) && (step.ForkStart? || step.ForkRead? || step.ForkEnd?)
    ensures Rel(Apply(s, step), a)
  {
    hide SharingOk, ForkOk, Embryo;
    ControlEmbryos(s, step);
    var r := Apply(s, step);
    assert r.flat == s.flat && r.phys == s.phys;
    hide PagesOk, Apply, Enabled;
    forall t | t in a.view ensures Looks(r, a, t) {
      assert Looks(s, a, t);
    }
  }

  lemma ExitRel(s: State, a: Eager, env: nat)
    requires Inv(s) && Rel(s, a) && Enabled(s, Exit(env))
    ensures Rel(Apply(s, Exit(env)), EagerApply(a, EExit(env)))
  {
    hide SharingOk, ForkOk;
    var r, b := Apply(s, Exit(env)), EagerApply(a, EExit(env));
    assert forall t :: Embryo(r, t) <==> Embryo(s, t);
    hide PagesOk, Embryo;
    forall t | t in b.view ensures Looks(r, b, t) {
      assert Looks(s, a, t);
    }
  }

  /** Every step of the copy-on-write machine is one event of the eager machine, with the same result. */
  lemma StepSim(s: State, a: Eager, step: Step)
    requires Inv(s) && Rel(s, a) && Enabled(s, step)
    ensures Rel(Apply(s, step), EagerApply(a, EventOf(s, step)))
    ensures Observe(s, step) == EagerObserve(a, EventOf(s, step))
  {
    hide SharingOk, PagesOk, ForkOk, Rel;
    match step
    case Load(env, vpn, offset, page) =>
      SettleRel(s, a, Slot(env, vpn), page);
      LoadSim(s, a, env, vpn, offset, page);
    case Store(env, vpn, offset, value, page) => StoreSim(s, a, env, vpn, offset, value, page);
    case CowCopy(env, vpn, page) => CowFaultRel(s, a, Slot(env, vpn), page);
    case ForkStart(parent, child) => ControlRel(s, a, step);
    case ForkRead(parent) => ControlRel(s, a, step);
    case ForkChild(parent) => MapChildRel(s, a, parent);
    case ForkParent(parent) => MapParentRel(s, a, parent);
    case ForkEnd(parent) => ControlRel(s, a, step);
    case Exit(env) => ExitRel(s, a, env);
  }

  // A run: each step is enabled where it happens.
  ghost predicate Runs(s: State, steps: seq<Step>)
    requires Inv(s)
    decreases |steps|
  {
    steps == [] ||
    (Enabled(s, steps[0]) && (StepInv(s, steps[0]); Runs(Apply(s, steps[0]), steps[1..])))
  }

  // What the programs see along a run.
  ghost function Trace(s: State, steps: seq<Step>): seq<Obs>
    requires Inv(s) && Runs(s, steps)
    decreases |steps|
  {
    if steps == [] then [] else StepInv(s, steps[0]); [Observe(s, steps[0])] + Trace(Apply(s, steps[0]), steps[1..])
  }

  ghost function Events(s: State, steps: seq<Step>): seq<Event>
    requires Inv(s) && Runs(s, steps)
    decreases |steps|
  {
    if steps == [] then [] else StepInv(s, steps[0]); [EventOf(s, steps[0])] + Events(Apply(s, steps[0]), steps[1..])
  }

  function EagerTrace(a: Eager, events: seq<Event>): seq<Obs>
    decreases |events|
  {
    if events == [] then [] else [EagerObserve(a, events[0])] + EagerTrace(EagerApply(a, events[0]), events[1..])
  }

  /**
   * Copy-on-write fork refines eager-copy fork: along every run of forks, loads, stores, faults and
   * exits, every load and store gives what it would give if fork copied private pages at once.
   */
  lemma {:induction false} CowRefinesEager(s: State, a: Eager, steps: seq<Step>)
    requires Inv(s) && Rel(s, a) && Runs(s, steps)
    ensures Trace(s, steps) == EagerTrace(a, Events(s, steps))
    decreases |steps|
  {
    if steps != [] {
      StepInv(s, steps[0]);
      StepSim(s, a, steps[0]);
      hide SharingOk, PagesOk, ForkOk, Rel, Enabled;
      var e := EventOf(s, steps[0]);
      CowRefinesEager(Apply(s, steps[0]), EagerApply(a, e), steps[1..]);
      assert Events(s, steps)[1..] == Events(Apply(s, steps[0]), steps[1..]);
    }
  }

  // ------------------------------------------------------------------ where runs may start

  // The eager machine that looks like s, when no fork is in progress.
  ghost function Snapshot(s: State): Eager
    requires PagesOk(s)
  {
    Eager(map t | t in s.flat ::
            if s.flat[t].lo.lib then Cell(s.flat[t].hi, s.flat[t].lo.d)
            else Private(s.phys[s.flat[t].hi], s.flat[t].lo.d || s.flat[t].lo.cow),
          s.phys)
  }

  /**
   * The start condition a caller can check: no fork in progress, a page mapped writable and not
   * LIBRARY is mapped once, and LIBRARY pages are mapped LIBRARY everywhere.
   */
  ghost predicate CleanStart(s: State) {
    && s.forks == map[] && PagesOk(s) && NoScratch(s.flat)
    && (forall t, u :: t in s.flat && u in s.flat && t != u && s.flat[t].hi == s.flat[u].hi ==>
          && (s.flat[t].lo.lib <==> s.flat[u].lo.lib)
          && (!s.flat[t].lo.lib ==> !s.flat[t].lo.d && !s.flat[u].lo.d))
  }

  lemma CowRefinesEagerFromStart(s: State, steps: seq<Step>)
    requires CleanStart(s)
    ensures Inv(s)
    ensures Runs(s, steps) ==> Trace(s, steps) == EagerTrace(Snapshot(s), Events(s, steps))
  {
    assert Rel(s, Snapshot(s));
    if Runs(s, steps) {
      CowRefinesEager(s, Snapshot(s), steps);
    }
  }

  // ------------------------------------------------------------------ the code of fork.c

  // What duppage does to the flat map.
  function DupFlat(flat: Flat, parent: nat, child: nat, vpn: nat): Flat
    requires Slot(parent, vpn) in flat
  {
    var w := flat[Slot(parent, vpn)];
    var f := Insert(flat, Slot(child, vpn), w.hi, DupPerm(w.lo));
    if NeedsCow(w.lo) then Insert(f, Slot(parent, vpn), w.hi, DupPerm(w.lo)) else f
  }

  /** The steps of an interleaved fork on one page add up to duppage. */
  lemma DupIsSteps(s: State, parent: nat)
    requires Inv(s) && parent in s.forks && s.forks[parent].phase.GotPerm?
    ensures var f := s.forks[parent];
      && Slot(parent, f.vpn) in s.flat
      && var s1 := MapChild(s, parent);
         && parent in s1.forks && Slot(parent, f.vpn) in s1.flat
         && DupFlat(s.flat, parent, f.child, f.vpn)
            == if s1.forks[parent].phase.InChild? then MapParent(s1, parent).flat else s1.flat
  {
    assert ForkOk(s, parent);
  }

  // After the loop of fork has handled the virtual pages below n.
  ghost predicate Forked(was: Flat, now: Flat, parent: nat, child: nat, n: nat) {
    && (forall t :: t in now <==> t in was || (t.env == child && t.vpn < n && Slot(parent, t.vpn) in was))
    && (forall t :: t in now ==>
          if t.env == child && t.vpn < n then
            && Slot(parent, t.vpn) in was
            && now[t] == Word(was[Slot(parent, t.vpn)].hi, DupPerm(was[Slot(parent, t.vpn)].lo))
          else
            && t in was
            && now[t] == if t.env == parent && t.vpn < n then Word(was[t].hi, DupPerm(was[t].lo)) else was[t])
  }

  class UserVm {
    var flat: Flat
    var phys: map<nat, Content>

    ghost function St(): State
      reads this
    {
      State(flat, phys, map[], {})
    }

    // syscall_mem_alloc, given the page that page_alloc hands out.
    method MemAlloc(env: nat, vpn: nat, perm: Perm, page: nat)
      modifies this
      ensures flat == Insert(old(flat), Slot(env, vpn), page, perm) && phys == old(phys)[page := Zeros()]
    {
      flat, phys := Insert(flat, Slot(env, vpn), page, perm), phys[page := Zeros()];
    }

    // syscall_mem_map of a mapped source page.
    method MemMap(src: nat, sva: nat, dst: nat, dva: nat, perm: Perm)
      requires Slot(src, sva) in flat
      modifies `flat
      ensures flat == Insert(old(flat), Slot(dst, dva), old(flat)[Slot(src, sva)].hi, perm)
    {
      flat := Insert(flat, Slot(dst, dva), flat[Slot(src, sva)].hi, perm);
    }

    method MemUnmap(env: nat, vpn: nat)
      modifies `flat
      ensures flat == Remove(old(flat), Slot(env, vpn))
    {
      flat := Remove(flat, Slot(env, vpn));
    }

    /** cow_entry: panics unless the page is copy-on-write; otherwise moves it to a private copy. */
    method CowEntry(env: nat, vpn: nat, page: nat) returns (ok: bool)
      requires Slot(env, vpn) in flat && flat[Slot(env, vpn)].hi in phys && flat[Slot(env, vpn)].lo.v
      requires vpn != VPN_UCOW && Fresh(St(), page)
      modifies this
      ensures ok <==> old(flat)[Slot(env, vpn)].lo.cow
      ensures !ok ==> flat == old(flat) && phys == old(phys)
      ensures ok ==>
        var r := CowFault(old(St()), Slot(env, vpn), page); flat == Remove(r.flat, Slot(env, VPN_UCOW)) && phys == r.phys
    {
      var perm := flat[Slot(env, vpn)].lo;
      if !perm.cow {
        return false;
      }
      perm := perm.(cow := false);
      perm := perm.(d := true);
      MemAlloc(env, VPN_UCOW, perm, page);
      phys := phys[flat[Slot(env, VPN_UCOW)].hi := phys[flat[Slot(env, vpn)].hi]];
      MemMap(env, VPN_UCOW, env, vpn, perm);
      MemUnmap(env, VPN_UCOW);
      assert flat == Remove(CowFault(old(St()), Slot(env, vpn), page).flat, Slot(env, VPN_UCOW));
      return true;
    }

    /** duppage: the child maps the page first, and then the parent if it was privately writable. */
    method Duppage(parent: nat, child: nat, vpn: nat)
      requires Slot(parent, vpn) in flat && parent != child
      modifies `flat
      ensures flat == DupFlat(old(flat), parent, child, vpn)
    {
      var perm := flat[Slot(parent, vpn)].lo;
      var r := false;
      if perm.d && !perm.lib {
        perm := perm.(cow := true);
        perm := perm.(d := false);
        r := true;
      }
      MemMap(parent, vpn, child, vpn, perm);
      if r {
        MemMap(parent, vpn, parent, vpn, perm);
      }
    }

    /** The page loop of fork: every page below USTACKTOP is shared the right way, and no data moves. */
    method Fork(parent: nat, child: nat)
      requires parent != child
      requires forall t :: t in flat ==> t.env != child && flat[t].lo.v
      modifies `flat
      ensures Forked(old(flat), flat, parent, child, VPN_USTACKTOP)
    {
      var i := 0;
      while i < VPN_USTACKTOP
        invariant 0 <= i <= VPN_USTACKTOP
        invariant Forked(old(flat), flat, parent, child, i)
      {
        if Slot(parent, i) in flat {
          Duppage(parent, child, i);
        }
        i := i + 1;
      }
    }
  }
}
