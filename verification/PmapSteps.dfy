/** The operations of kern/pmap.c, kern/tlbex.c and kern/env.c as steps on whole machine states. */
module PmapSteps {
  import opened Common
  import opened Mmu
  import opened PageTrees
  import Bitmap

  // ------------------------------------------------------------------ steps on whole states

  // Bounds, for proofs that do not look inside the invariant.
  lemma Bounds(s: State, e: nat, i: nat, p: nat)
    requires Inv(s)
    ensures |s.use| == |s.mem| == |s.ref|
    ensures e in s.spaces ==> s.spaces[e].root < |s.mem| && s.use[s.spaces[e].root] == Root(e)
    ensures i < PDX_UTOP && Pde(s.mem, s.spaces, e, i).lo.v ==>
      Pde(s.mem, s.spaces, e, i).hi < |s.mem| && s.use[Pde(s.mem, s.spaces, e, i).hi] == Table(e, i)
    ensures p < |s.ref| && (s.use[p] == Free || s.use[p] == InFlight) ==> s.ref[p] == 0
  {
  }

  // page_alloc, when the free list is not empty.
  ghost function Alloc(s: State): State
    requires s.free != [] && s.free[0] < |s.mem| == |s.use|
  {
    var p := s.free[0];
    s.(free := s.free[1..], mem := s.mem[p := ZeroPage()], use := s.use[p := InFlight])
  }

  lemma AllocKeeps(s: State)
    requires Inv(s) && s.free != []
    ensures s.free[0] < |s.mem| == |s.use| && s.use[s.free[0]] == Free && Inv(Alloc(s))
  {
    TakeFree(s.free, s.use, InFlight);
    LooseWrite(s.mem, s.spaces, s.use, s.flat, s.free[0], ZeroPage(), InFlight);
    SetUse(s.ref, s.use, s.flat, s.free[0], 0, InFlight);
    assert s.ref[s.free[0] := 0] == s.ref;
  }

  // A page that is not mapped changes its count and use to others that fit.
  lemma SetUse(ref: seq<nat>, use: seq<Use>, flat: Flat, p: nat, r: nat, u: Use)
    requires UserOk(use, flat) && RefsOk(ref, use, flat) && p < |use|
    requires !use[p].User? && !u.User? && RefOk(r, u, 0)
    ensures UserOk(use[p := u], flat) && RefsOk(ref[p := r], use[p := u], flat)
  {
  }

  lemma SetUseFree(free: seq<nat>, use: seq<Use>, p: nat, u: Use)
    requires FreeOk(free, use) && p < |use| && use[p] != Free && u != Free
    ensures FreeOk(free, use[p := u])
  {
  }

  // pgdir_walk with create: the allocated page t becomes the table of entry i of env e.
  ghost function WithTable(s: State, e: nat, i: nat, t: nat): State
    requires e in s.spaces && s.spaces[e].root < |s.mem| && i < NPTE && t < |s.ref| == |s.use|
  {
    s.(mem := SetPde(s.mem, s.spaces[e].root, i, Word(t, NO_PERM.(v := true, d := true))),
       ref := s.ref[t := (s.ref[t] + 1) % REF_LIMIT],
       use := s.use[t := Table(e, i)])
  }

  lemma WithTableKeeps(s: State, e: nat, i: nat, t: nat)
    requires Inv(s) && e in s.spaces && i < PDX_UTOP && !Pde(s.mem, s.spaces, e, i).lo.v
    requires t < |s.mem| && s.use[t] == InFlight && s.mem[t] == ZeroPage()
    ensures s.spaces[e].root < |s.mem| && s.ref[t] == 0
    ensures Inv(WithTable(s, e, i, t))
  {
    hide Trees, UserOk, RefsOk, FreeOk, AsidsOk;
    Bounds(s, e, i, t);
    var w := Word(t, NO_PERM.(v := true, d := true));
    AddTable(s.mem, s.spaces, s.use, s.flat, e, i, t, w);
    SetUse(s.ref, s.use, s.flat, t, 1, Table(e, i));
    SetUseFree(s.free, s.use, t, Table(e, i));
  }

  lemma SlotHasTable(s: State, e: nat, vpn: nat)
    requires Inv(s) && Slot(e, vpn) in s.flat
    ensures vpn < VPN_UTOP && e in s.spaces
    ensures Pde(s.mem, s.spaces, e, Pdx(vpn)).lo.v && Pde(s.mem, s.spaces, e, Pdx(vpn)).hi < |s.mem|
    ensures Pte(s.mem, s.spaces, e, vpn) == s.flat[Slot(e, vpn)]
    ensures var p := s.flat[Slot(e, vpn)].hi;
      p < |s.ref| && p < |s.use| && s.use[p] == User && s.ref[p] == |Mapped(s.flat, p)| > 0
    ensures s.flat[Slot(e, vpn)].lo.v
  {
  }

  // page_remove of a mapped slot; tlb is what the invalidation leaves.
  ghost function Unmap(s: State, e: nat, vpn: nat, tlb: Tlb): State
    requires Inv(s) && Slot(e, vpn) in s.flat
  {
    SlotHasTable(s, e, vpn);
    var p := s.flat[Slot(e, vpn)].hi;
    var last := s.ref[p] == 1;
    s.(mem := SetPte(s.mem, Pde(s.mem, s.spaces, e, Pdx(vpn)).hi, vpn, ZERO),
       ref := s.ref[p := s.ref[p] - 1],
       free := if last then [p] + s.free else s.free,
       tlb := tlb,
       flat := Remove(s.flat, Slot(e, vpn)),
       use := if last then s.use[p := Free] else s.use)
  }

  lemma UnmapKeeps(s: State, e: nat, vpn: nat, tlb: Tlb)
    requires Inv(s) && Slot(e, vpn) in s.flat
    ensures Inv(Unmap(s, e, vpn, tlb))
    ensures forall f, i :: Pde(Unmap(s, e, vpn, tlb).mem, s.spaces, f, i) == Pde(s.mem, s.spaces, f, i)
  {
    hide Trees, UserOk, RefsOk, FreeOk, AsidsOk;
    SlotHasTable(s, e, vpn);
    var p := s.flat[Slot(e, vpn)].hi;
    var flat := Remove(s.flat, Slot(e, vpn));
    RewriteTree(s.mem, s.spaces, s.use, s.flat, e, vpn, ZERO, p, if s.ref[p] == 1 then Free else User);
    assert s.use[p := User] == s.use;
    UnmapRefs(s.ref, s.free, s.use, s.flat, Slot(e, vpn));
  }

  // The end of page_insert for an empty slot whose table exists.
  ghost function Map(s: State, e: nat, p: nat, vpn: nat, perm: Perm): State
    requires e in s.spaces && Pde(s.mem, s.spaces, e, Pdx(vpn)).hi < |s.mem| && p < |s.ref| == |s.use|
  {
    s.(mem := SetPte(s.mem, Pde(s.mem, s.spaces, e, Pdx(vpn)).hi, vpn, Word(p, perm.(v := true))),
       ref := s.ref[p := (s.ref[p] + 1) % REF_LIMIT],
       flat := Insert(s.flat, Slot(e, vpn), p, perm),
       use := s.use[p := User])
  }

  lemma MapKeeps(s: State, e: nat, p: nat, vpn: nat, perm: Perm)
    requires Inv(s) && e in s.spaces && vpn < VPN_UTOP && Slot(e, vpn) !in s.flat
    requires Pde(s.mem, s.spaces, e, Pdx(vpn)).lo.v
    requires p < |s.use| && (s.use[p] == InFlight || s.use[p] == User)
    requires |Mapped(s.flat, p)| < REF_LIMIT - 1
    ensures Pde(s.mem, s.spaces, e, Pdx(vpn)).hi < |s.mem| && p < |s.ref| == |s.use|
    ensures Inv(Map(s, e, p, vpn, perm))
  {
    hide Trees, UserOk, RefsOk, FreeOk, AsidsOk;
    Bounds(s, e, Pdx(vpn), p);
    var w := Word(p, perm.(v := true));
    var flat := Insert(s.flat, Slot(e, vpn), p, perm);
    RewriteTree(s.mem, s.spaces, s.use, s.flat, e, vpn, w, p, User);
    MapRefs(s.ref, s.use, s.flat, Slot(e, vpn), w);
    SetUseFree(s.free, s.use, p, User);
  }

  // page_insert of the page the slot already holds: only the permissions change.
  ghost function Remap(s: State, e: nat, vpn: nat, perm: Perm, tlb: Tlb): State
    requires Inv(s) && Slot(e, vpn) in s.flat
  {
    SlotHasTable(s, e, vpn);
    var p := s.flat[Slot(e, vpn)].hi;
    s.(mem := SetPte(s.mem, Pde(s.mem, s.spaces, e, Pdx(vpn)).hi, vpn, Word(p, perm.(v := true))),
       tlb := tlb,
       flat := Insert(s.flat, Slot(e, vpn), p, perm))
  }

  lemma RemapKeeps(s: State, e: nat, vpn: nat, perm: Perm, tlb: Tlb)
    requires Inv(s) && Slot(e, vpn) in s.flat
    ensures Inv(Remap(s, e, vpn, perm, tlb))
  {
    hide Trees, UserOk, RefsOk, FreeOk, AsidsOk;
    SlotHasTable(s, e, vpn);
    var w := Word(s.flat[Slot(e, vpn)].hi, perm.(v := true));
    TableWrite(s.mem, s.spaces, s.use, s.flat, e, vpn, w);
    RemapRefs(s.ref, s.use, s.flat, Slot(e, vpn), w);
  }

  // env_free for one directory entry whose table no longer maps anything.
  ghost function FreeTable(s: State, e: nat, i: nat): State
    requires e in s.spaces && s.spaces[e].root < |s.mem| && i < NPTE
    requires Pde(s.mem, s.spaces, e, i).hi < |s.ref| == |s.use|
  {
    var t := Pde(s.mem, s.spaces, e, i).hi;
    s.(mem := SetPde(s.mem, s.spaces[e].root, i, ZERO),
       ref := s.ref[t := 0], free := [t] + s.free, use := s.use[t := Free])
  }

  lemma TableIsTable(s: State, e: nat, i: nat)
    requires Inv(s) && i < PDX_UTOP && Pde(s.mem, s.spaces, e, i).lo.v
    ensures e in s.spaces && s.spaces[e].root < |s.mem| == |s.ref| == |s.use|
    ensures var t := Pde(s.mem, s.spaces, e, i).hi; t < |s.ref| && s.use[t] == Table(e, i) && s.ref[t] == 1
  {
  }

  lemma FreeTableKeeps(s: State, e: nat, i: nat)
    requires Inv(s) && i < PDX_UTOP && Pde(s.mem, s.spaces, e, i).lo.v
    requires forall t :: t in s.flat && t.env == e ==> Pdx(t.vpn) != i
    ensures e in s.spaces && s.spaces[e].root < |s.mem| == |s.ref| == |s.use|
    ensures Pde(s.mem, s.spaces, e, i).hi < |s.ref| && s.ref[Pde(s.mem, s.spaces, e, i).hi] == 1
    ensures Inv(FreeTable(s, e, i))
  {
    hide Trees, UserOk, RefsOk, FreeOk, AsidsOk;
    TableIsTable(s, e, i);
    var t := Pde(s.mem, s.spaces, e, i).hi;
    DropTable(s.mem, s.spaces, s.use, s.flat, e, i);
    SetUse(s.ref, s.use, s.flat, t, 0, Free);
    GiveFree(s.free, s.use, t);
  }

  // The end of env_free: the empty directory and the ASID go back.
  ghost function CloseSpace(s: State, e: nat): State
    requires e in s.spaces && s.spaces[e].root < |s.ref| == |s.use| && s.spaces[e].asid / 32 < |s.asids|
  {
    var p, a := s.spaces[e].root, s.spaces[e].asid;
    s.(ref := s.ref[p := 0], free := [p] + s.free, use := s.use[p := Free],
       spaces := s.spaces - {e}, asids := Bitmap.Put(s.asids, a, false), owner := s.owner - {a})
  }

  lemma RootIsRoot(s: State, e: nat)
    requires Inv(s) && e in s.spaces
    ensures var p := s.spaces[e].root; p < |s.mem| == |s.ref| == |s.use| && s.use[p] == Root(e) && s.ref[p] == 1
    ensures s.spaces[e].asid < NASID && s.spaces[e].asid / 32 < |s.asids|
    ensures s.spaces[e].asid in s.owner && s.owner[s.spaces[e].asid] == e
  {
  }

  lemma CloseAsid(spaces: Spaces, owner: map<nat, nat>, asids: seq<Bitmap.Bits>, e: nat)
    requires AsidsOk(spaces, owner, asids) && e in spaces && spaces[e].asid / 32 < |asids|
    ensures AsidsOk(spaces - {e}, owner - {spaces[e].asid}, Bitmap.Put(asids, spaces[e].asid, false))
  {
  }

  /** Once an address space maps nothing, no TLB entry carries its ASID. */
  lemma NoStaleEntries(spaces: Spaces, owner: map<nat, nat>, asids: seq<Bitmap.Bits>, tlb: map<TlbKey, Word>,
                       flat: Flat, e: nat)
    requires AsidsOk(spaces, owner, asids) && TlbOk(tlb, owner, flat)
    requires e in spaces && forall t :: t in flat ==> t.env != e
    ensures forall k :: k in tlb ==> k.asid != spaces[e].asid
    ensures TlbOk(tlb, owner - {spaces[e].asid}, flat)
  {
  }

  lemma CloseSpaceKeeps(s: State, e: nat)
    requires Inv(s) && e in s.spaces
    requires forall i :: 0 <= i < PDX_UTOP ==> !Pde(s.mem, s.spaces, e, i).lo.v
    requires forall t :: t in s.flat ==> t.env != e
    ensures s.spaces[e].root < |s.ref| == |s.use| && s.spaces[e].asid / 32 < |s.asids|
    ensures s.ref[s.spaces[e].root] == 1
    ensures Inv(CloseSpace(s, e))
  {
    hide Trees, UserOk, RefsOk, FreeOk, AsidsOk;
    RootIsRoot(s, e);
    DropRoot(s.mem, s.spaces, s.use, s.flat, e);
    SetUse(s.ref, s.use, s.flat, s.spaces[e].root, 0, Free);
    GiveFree(s.free, s.use, s.spaces[e].root);
    CloseAsid(s.spaces, s.owner, s.asids, e);
  }

  // env_alloc: page p, holding a directory with an empty user part, becomes the root of e.
  ghost function OpenSpace(s: State, e: nat, p: nat, page: Page, asid: nat): State
    requires p < |s.mem| == |s.ref| == |s.use| && asid / 32 < |s.asids|
  {
    s.(mem := s.mem[p := page], ref := s.ref[p := 1], use := s.use[p := Root(e)],
       spaces := s.spaces[e := Space(p, asid)], asids := Bitmap.Put(s.asids, asid, true),
       owner := s.owner[asid := e])
  }

  lemma OpenAsid(spaces: Spaces, owner: map<nat, nat>, asids: seq<Bitmap.Bits>, e: nat, p: nat, a: nat)
    requires AsidsOk(spaces, owner, asids) && e !in spaces && a < NASID && !Bitmap.Get(asids, a)
    ensures |asids| == NASID / 32
    ensures AsidsOk(spaces[e := Space(p, a)], owner[a := e], Bitmap.Put(asids, a, true))
  {
  }

  lemma OpenSpaceKeeps(s: State, e: nat, p: nat, page: Page, asid: nat)
    requires Inv(s) && e !in s.spaces && p < |s.mem| && s.use[p] == InFlight
    requires forall i :: 0 <= i < PDX_UTOP ==> !page[i].lo.v
    requires asid < NASID && !Bitmap.Get(s.asids, asid)
    ensures p < |s.mem| == |s.ref| == |s.use| && asid / 32 < |s.asids|
    ensures Inv(OpenSpace(s, e, p, page, asid))
  {
    hide Trees, UserOk, RefsOk, FreeOk, AsidsOk;
    Bounds(s, e, 0, p);
    AddRoot(s.mem, s.spaces, s.use, s.flat, e, p, page, asid);
    SetUse(s.ref, s.use, s.flat, p, 1, Root(e));
    SetUseFree(s.free, s.use, p, Root(e));
    OpenAsid(s.spaces, s.owner, s.asids, e, p, asid);
  }

  // The result of pgdir_walk: the page holding the entry, a null pointer, or -E_NO_MEM.
  datatype Walk = In(table: nat) | Null | NoTable

  predicate Data(u: Use) { u.User? || u.InFlight? }

  // Mapping operations change neither the contents of data pages, nor which pages hold data except
  // for the page p being mapped.
  ghost predicate SameData(s: State, r: State, p: nat) {
    && |r.mem| == |s.mem| == |s.use| == |r.use|
    && forall q :: 0 <= q < |s.mem| && Data(r.use[q]) ==>
         && (q != p ==> r.use[q] == s.use[q])
         && (Data(s.use[q]) ==> r.mem[q] == s.mem[q])
  }

  // What pgdir_walk promises: only a missing table with create changes anything.
  ghost predicate WalkDone(s: State, r: State, e: nat, vpn: nat, create: bool, w: Walk) {
    var d := Pde(s.mem, s.spaces, e, Pdx(vpn));
    && (w.NoTable? <==> create && !d.lo.v && s.free == [])
    && (w.Null? <==> !create && !d.lo.v)
    && (w.In? ==> Pde(r.mem, r.spaces, e, Pdx(vpn)).lo.v && w.table == Pde(r.mem, r.spaces, e, Pdx(vpn)).hi < |r.mem|)
    && (if w.In? && !d.lo.v then
          && s.free != [] && w.table == s.free[0] < |s.ref| && s.free[0] < |s.use| && s.use[w.table] == Free
          && r.use == s.use[w.table := Table(e, Pdx(vpn))]
          && r == s.(mem := r.mem, free := s.free[1..], ref := s.ref[w.table := 1], use := r.use)
          && SameData(s, r, w.table)
        else
          r == s)
  }

  // What page_remove promises: one slot is emptied, its page released, and nothing else.
  ghost predicate RemoveDone(s: State, r: State, e: nat, vpn: nat) {
    && r.flat == Remove(s.flat, Slot(e, vpn))
    && (Slot(e, vpn) !in s.flat ==> r == s)
    && r.spaces == s.spaces && r.asids == s.asids && r.owner == s.owner
    && (forall f, i :: Pde(r.mem, r.spaces, f, i) == Pde(s.mem, s.spaces, f, i))
    && SameData(s, r, |s.use|)
    && (Slot(e, vpn) in s.flat ==>
          var p := s.flat[Slot(e, vpn)].hi;
          && p < |s.use| && e in s.spaces && Flushed(s.tlb, r.tlb, s.spaces[e].asid, vpn)
          && r.use == if |Mapped(s.flat, p)| == 1 then s.use[p := Free] else s.use)
  }

  // What page_insert promises. It fails only when a page table is missing and no page is free.
  ghost predicate InsertDone(s: State, r: State, e: nat, p: nat, vpn: nat, perm: Perm, ok: bool) {
    && (ok <==> Pde(s.mem, s.spaces, e, Pdx(vpn)).lo.v || s.free != [])
    && (ok ==> r.flat == Insert(s.flat, Slot(e, vpn), p, perm))
    && (!ok ==> r.flat == s.flat && r.use == s.use && r.free == s.free && r.mem == s.mem && r.ref == s.ref)
    && r.spaces == s.spaces && r.asids == s.asids && r.owner == s.owner
    && e in s.spaces && Flushed(s.tlb, r.tlb, s.spaces[e].asid, vpn)
    && SameData(s, r, p) && (ok ==> p < |r.use| && r.use[p] == User)
  }

  lemma RemoveNothing(s: State, e: nat, vpn: nat)
    requires Inv(s) && Slot(e, vpn) !in s.flat
    ensures RemoveDone(s, s, e, vpn)
  {
    hide Trees, UserOk, RefsOk, FreeOk, AsidsOk;
    Bounds(s, e, 0, 0);
    assert Remove(s.flat, Slot(e, vpn)) == s.flat;
  }

  // The walk of page_insert found or made the table: what is known of the state m it left.
  ghost predicate WalkFound(s: State, m: State, e: nat, vpn: nat, p: nat) {
    && e in s.spaces && m.spaces == s.spaces && m.asids == s.asids && m.owner == s.owner && m.flat == s.flat
    && (Pde(s.mem, s.spaces, e, Pdx(vpn)).lo.v || s.free != [])
    && Flushed(s.tlb, m.tlb, s.spaces[e].asid, vpn)
    && SameData(s, m, |s.use|) && |m.ref| == |m.use| && p < |s.use| && Data(s.use[p]) && m.use[p] == s.use[p]
    && var t := Pde(m.mem, m.spaces, e, Pdx(vpn)).hi; t < |m.use| && m.use[t].Table?
  }

  lemma WalkEnds(s: State, tlb: Tlb, m: State, e: nat, vpn: nat, w: Walk, p: nat, perm: Perm)
    requires Inv(s) && Inv(m) && e in s.spaces && vpn < VPN_UTOP && p < |s.use| && Data(s.use[p])
    requires Flushed(s.tlb, tlb, s.spaces[e].asid, vpn) && WalkDone(s.(tlb := tlb), m, e, vpn, true, w)
    ensures w.NoTable? ==> InsertDone(s, m, e, p, vpn, perm, false)
    ensures !w.NoTable? ==>
      && w.In? && Pde(m.mem, m.spaces, e, Pdx(vpn)).lo.v
      && w.table == Pde(m.mem, m.spaces, e, Pdx(vpn)).hi < |m.mem|
      && WalkFound(s, m, e, vpn, p)
  {
    hide Trees, UserOk, RefsOk, FreeOk, AsidsOk, Pte;
    Bounds(s, e, Pdx(vpn), 0);
    Bounds(m, e, Pdx(vpn), 0);
  }

  lemma UnmapDone(s: State, e: nat, vpn: nat, tlb: Tlb)
    requires Inv(s) && Slot(e, vpn) in s.flat && e in s.spaces && Flushed(s.tlb, tlb, s.spaces[e].asid, vpn)
    ensures RemoveDone(s, Unmap(s, e, vpn, tlb), e, vpn)
  {
    hide Trees, UserOk, RefsOk, FreeOk, AsidsOk, Pte;
    SlotHasTable(s, e, vpn);
    Bounds(s, e, Pdx(vpn), 0);
    UnmapKeeps(s, e, vpn, tlb);
    hide Flushed;
  }

  lemma RemapDone(s: State, e: nat, vpn: nat, perm: Perm, tlb: Tlb)
    requires Inv(s) && Slot(e, vpn) in s.flat && e in s.spaces && Flushed(s.tlb, tlb, s.spaces[e].asid, vpn)
    ensures InsertDone(s, Remap(s, e, vpn, perm, tlb), e, s.flat[Slot(e, vpn)].hi, vpn, perm, true)
  {
    hide Trees, UserOk, RefsOk, FreeOk, AsidsOk, Pte;
    SlotHasTable(s, e, vpn);
    Bounds(s, e, Pdx(vpn), 0);
  }

  // Writing the entry in the state m that the walk left.
  lemma MapDone(s: State, m: State, e: nat, p: nat, vpn: nat, perm: Perm)
    requires WalkFound(s, m, e, vpn, p)
    ensures InsertDone(s, Map(m, e, p, vpn, perm), e, p, vpn, perm, true)
  {
  }

  lemma RemoveThenInsert(s: State, m: State, r: State, e: nat, p: nat, vpn: nat, perm: Perm, ok: bool)
    requires Slot(e, vpn) in s.flat && s.flat[Slot(e, vpn)].hi != p && Pde(s.mem, s.spaces, e, Pdx(vpn)).lo.v
    requires RemoveDone(s, m, e, vpn) && InsertDone(m, r, e, p, vpn, perm, ok)
    ensures InsertDone(s, r, e, p, vpn, perm, ok)
  {
    FlushTwice(s.tlb, m.tlb, r.tlb, s.spaces[e].asid, vpn);
    hide Flushed;
    assert Insert(Remove(s.flat, Slot(e, vpn)), Slot(e, vpn), p, perm) == Insert(s.flat, Slot(e, vpn), p, perm);
  }

  // What sys_mem_alloc and passive_alloc promise: the slot holds a page nobody else maps.
  ghost predicate AllocDone(s: State, r: State, e: nat, vpn: nat, perm: Perm) {
    && s.free != []
    && r.flat == Insert(s.flat, Slot(e, vpn), s.free[0], perm)
    && Mapped(s.flat, s.free[0]) == {}
    && SameData(s, r, s.free[0]) && s.free[0] < |r.mem| && r.mem[s.free[0]] == ZeroPage()
    && r.spaces == s.spaces && r.asids == s.asids && r.owner == s.owner
    && e in s.spaces && Flushed(s.tlb, r.tlb, s.spaces[e].asid, vpn)
  }

  /**
   * sys_mem_alloc without memory: nothing happens, or the last free page was taken for the data and
   * none was left for the missing page table; then it is neither mapped nor free.
   */
  ghost predicate AllocLost(s: State, r: State, e: nat, vpn: nat) {
    if s.free == [] then r == s
    else
      && |s.free| == 1 && s.free[0] < |s.use| && !Pde(s.mem, s.spaces, e, Pdx(vpn)).lo.v
      && r.flat == s.flat && r.free == [] && r.use == s.use[s.free[0] := InFlight] && r.ref == s.ref
      && r.spaces == s.spaces && r.asids == s.asids && r.owner == s.owner
      && e in s.spaces && Flushed(s.tlb, r.tlb, s.spaces[e].asid, vpn)
  }

  // Taking a page from the free list changes no directory.
  lemma AllocPde(s: State, e: nat, i: nat)
    requires Inv(s) && s.free != [] && s.free[0] < |s.mem| == |s.use|
    ensures Pde(Alloc(s).mem, s.spaces, e, i) == Pde(s.mem, s.spaces, e, i)
  {
    assert s.free[0] in s.free;
    assert e in s.spaces ==> s.use[s.spaces[e].root] == Root(e);
  }

  lemma LostAlloc(s: State, m: State, r: State, e: nat, vpn: nat, p: nat, perm: Perm)
    requires Inv(s) && s.free != [] && s.free[0] < |s.mem| == |s.use| && m == Alloc(s)
    requires InsertDone(m, r, e, p, vpn, perm, false)
    ensures AllocLost(s, r, e, vpn)
  {
    AllocPde(s, e, Pdx(vpn));
    hide Inv, Pde;
  }

  lemma LooseUnmapped(s: State, p: nat)
    requires Inv(s) && p < |s.use| && s.use[p] != User
    ensures Mapped(s.flat, p) == {}
  {
  }

  // Only the TLB does not belong to the invariant of the memory.
  lemma TlbAside(s: State, tlb: Tlb)
    requires Inv(s)
    ensures Inv(s.(tlb := tlb))
  {
  }

  // ------------------------------------------------------------------ refill, stores and the end of a space

  // do_tlb_refill writes the looked-up word, in place of any other entry.
  ghost function Refill(s: State, e: nat, vpn: nat, victim: TlbKey): State
    requires e in s.spaces && Slot(e, vpn) in s.flat
  {
    s.(tlb := (s.tlb - {victim})[TlbKey(s.spaces[e].asid, vpn) := s.flat[Slot(e, vpn)]])
  }

  /**
   * What do_tlb_refill does: the current word of the slot goes to the TLB; an unmapped slot is first
   * given a zero page, unless the address is not for that or no memory is left, when it panics.
   */
  ghost predicate TouchDone(s: State, r: State, e: nat, vpn: nat, victim: TlbKey) {
    if e !in s.spaces then r == s
    else if Slot(e, vpn) in s.flat then r == Refill(s, e, vpn, victim)
    else if vpn < VPN_UTEMP || vpn == VPN_USTACKTOP then r == s
    else
      || AllocLost(s, r, e, vpn)
      || exists m: State :: AllocDone(s, m, e, vpn, NO_PERM.(d := true)) && Slot(e, vpn) in m.flat && e in m.spaces
                            && r == Refill(m, e, vpn, victim)
  }

  lemma RefillKeeps(s: State, e: nat, vpn: nat, victim: TlbKey)
    requires Inv(s) && e in s.spaces && Slot(e, vpn) in s.flat
    ensures Inv(Refill(s, e, vpn, victim))
  {
    hide Trees, UserOk, RefsOk, FreeOk;
  }

  /** A user store through the TLB writes the page the flat map names, and disturbs no mapping. */
  lemma StoreKeeps(s: State, k: TlbKey, page: Page)
    requires Inv(s) && TlbOk(s.tlb, s.owner, s.flat) && k in s.tlb
    ensures s.tlb[k].hi < |s.mem| && s.tlb[k].hi < |s.use| && s.use[s.tlb[k].hi] == User
    ensures k.asid in s.owner && Slot(s.owner[k.asid], k.vpn) in s.flat
    ensures s.flat[Slot(s.owner[k.asid], k.vpn)] == s.tlb[k]
    ensures Inv(s.(mem := s.mem[s.tlb[k].hi := page]))
  {
    hide Trees, UserOk, RefsOk, FreeOk, AsidsOk;
    EntryIsUser(s, k);
    var p := s.tlb[k].hi;
    LooseWrite(s.mem, s.spaces, s.use, s.flat, p, page, User);
    assert s.use[p := User] == s.use;
  }

  lemma EntryIsUser(s: State, k: TlbKey)
    requires Inv(s) && TlbOk(s.tlb, s.owner, s.flat) && k in s.tlb
    ensures s.tlb[k].hi < |s.mem| == |s.use| && s.use[s.tlb[k].hi] == User
    ensures k.asid in s.owner && Slot(s.owner[k.asid], k.vpn) in s.flat
    ensures s.flat[Slot(s.owner[k.asid], k.vpn)] == s.tlb[k]
  {
  }

  // env_alloc without a free ASID: the directory page keeps its reference and is lost.
  ghost function Leak(s: State, p: nat, page: Page): State
    requires p < |s.mem| == |s.ref| == |s.use|
  {
    s.(mem := s.mem[p := page], ref := s.ref[p := 1], use := s.use[p := Leaked])
  }

  lemma LeakKeeps(s: State, p: nat, page: Page)
    requires Inv(s) && p < |s.mem| && s.use[p] == InFlight
    ensures |s.mem| == |s.ref| == |s.use|
    ensures Inv(Leak(s, p, page))
  {
    hide Trees, UserOk, RefsOk, FreeOk, AsidsOk;
    Bounds(s, 0, 0, p);
    LooseWrite(s.mem, s.spaces, s.use, s.flat, p, page, Leaked);
    SetUse(s.ref, s.use, s.flat, p, 1, Leaked);
    SetUseFree(s.free, s.use, p, Leaked);
  }

  // The flat map without the slots of env e below virtual page n.
  ghost function Without(flat: Flat, e: nat, n: nat): Flat {
    map s | s in flat && !(s.env == e && s.vpn < n) :: flat[s]
  }

  lemma WithoutNext(flat: Flat, e: nat, n: nat)
    ensures Remove(Without(flat, e, n), Slot(e, n)) == Without(flat, e, n + 1)
    ensures Slot(e, n) !in flat ==> Without(flat, e, n) == Without(flat, e, n + 1)
  {
  }

  // The only uses that env_free changes.
  ghost predicate FreedOnly(use: seq<Use>, now: seq<Use>, e: nat) {
    && |now| == |use|
    && forall p :: 0 <= p < |use| ==>
         now[p] == use[p]
         || (now[p] == Free && (use[p] == User || use[p] == Root(e) || (use[p].Table? && use[p].env == e)))
  }

  // While env_free runs: the slots below n are gone, and the directory entries below i.
  ghost predicate Freeing(s: State, r: State, e: nat, i: nat, n: nat) {
    && Inv(r) && e in s.spaces
    && r.spaces == s.spaces && r.asids == s.asids && r.owner == s.owner
    && r.flat == Without(s.flat, e, n)
    && FreedOnly(s.use, r.use, e)
    && (forall j :: 0 <= j < i ==> !Pde(r.mem, r.spaces, e, j).lo.v)
    && (forall p :: 0 <= p < |r.use| && |s.mem| == |r.mem| == |s.use| && r.use[p] == User ==> r.mem[p] == s.mem[p])
    && |s.mem| == |r.mem| == |s.use|
    && (forall k :: k in r.tlb ==> k in s.tlb)
    && (Clean(s) ==> Clean(r))
  }

  // Removing a mapping keeps a clean TLB clean.
  lemma RemoveClean(r: State, q: State, e: nat, vpn: nat)
    requires Inv(r) && Clean(r) && RemoveDone(r, q, e, vpn)
    ensures Clean(q)
  {
    hide Trees, UserOk, RefsOk, FreeOk, AsidsOk, SameData, Flushed, TlbOk;
    if Slot(e, vpn) in r.flat {
      InvalidateKeeps(r, q.tlb, e, vpn, q.flat);
    }
  }

  lemma FreeingSlot(s: State, r: State, q: State, e: nat, i: nat, n: nat)
    requires Freeing(s, r, e, i, n) && Inv(q) && RemoveDone(r, q, e, n)
    ensures Freeing(s, q, e, i, n + 1)
  {
    hide Inv;
    WithoutNext(s.flat, e, n);
    assert Slot(e, n) !in r.flat ==> Slot(e, n) !in s.flat;
    if Slot(e, n) in r.flat {
      SlotHasTable(r, e, n);
    }
    if Clean(s) {
      RemoveClean(r, q, e, n);
    }
    hide Clean;
  }

  lemma FreeingTable(s: State, r: State, e: nat, i: nat)
    requires Freeing(s, r, e, i, (i + 1) * NPTE) && i < PDX_UTOP && Pde(r.mem, r.spaces, e, i).lo.v
    ensures e in r.spaces && r.spaces[e].root < |r.mem| && Pde(r.mem, r.spaces, e, i).hi < |r.ref| == |r.use|
    ensures r.ref[Pde(r.mem, r.spaces, e, i).hi] == 1
    ensures Freeing(s, FreeTable(r, e, i), e, i + 1, (i + 1) * NPTE)
  {
    hide Inv;
    forall t | t in r.flat && t.env == e ensures Pdx(t.vpn) != i {
      assert t.vpn >= (i + 1) * NPTE;
    }
    FreeTableKeeps(r, e, i);
    TableIsTable(r, e, i);
    RootIsRoot(r, e);
    var t := Pde(r.mem, r.spaces, e, i).hi;
    assert FreeTable(r, e, i).mem[r.spaces[e].root] == r.mem[r.spaces[e].root][i := ZERO];
    forall j | 0 <= j < i + 1 ensures !Pde(FreeTable(r, e, i).mem, r.spaces, e, j).lo.v {
      assert j < i ==> !Pde(r.mem, r.spaces, e, j).lo.v;
    }
    assert r.use[t] == s.use[t];
  }

  lemma FreeingSkip(s: State, r: State, e: nat, i: nat)
    requires Freeing(s, r, e, i, i * NPTE) && i < PDX_UTOP && !Pde(r.mem, r.spaces, e, i).lo.v
    ensures Freeing(s, r, e, i + 1, (i + 1) * NPTE)
  {
    hide Inv;
    forall t | t in s.flat && t.env == e && i * NPTE <= t.vpn ensures (i + 1) * NPTE <= t.vpn {
      assert t in r.flat;
      SlotHasTable(r, e, t.vpn);
    }
    assert Without(s.flat, e, i * NPTE) == Without(s.flat, e, (i + 1) * NPTE);
  }

  // What env_free makes of a page, given whether some other address space still maps it.
  function FreedUse(u: Use, e: nat, unmapped: bool): Use {
    if u == Root(e) || (u.Table? && u.env == e) || (u == User && unmapped) then Free else u
  }

  /**
   * What env_free promises: the address space is gone from the flat map, exactly its directory, its
   * tables and the pages nobody else maps are free, and, if the TLB was clean, its ASID has no entry
   * left.
   */
  ghost predicate SpaceFreed(s: State, r: State, e: nat) {
    && e in s.spaces && r.spaces == s.spaces - {e} && r.owner == s.owner - {s.spaces[e].asid}
    && r.flat == Without(s.flat, e, VPN_UTOP) && (forall t :: t in r.flat ==> t.env != e)
    && (forall k :: k in r.tlb ==> k in s.tlb)
    && (Clean(s) ==> Clean(r) && forall k :: k in r.tlb ==> k.asid != s.spaces[e].asid)
    && |r.use| == |s.use| == |r.mem| == |s.mem|
    && (forall p :: 0 <= p < |s.use| ==> r.use[p] == FreedUse(s.use[p], e, Mapped(r.flat, p) == {}))
    && (forall p :: 0 <= p < |s.use| && r.use[p] == User ==> r.mem[p] == s.mem[p])
  }

  lemma FlatBelowUtop(s: State)
    requires Inv(s)
    ensures forall t :: t in s.flat ==> t.vpn < VPN_UTOP
  {
  }

  // With the invariant, changing uses only the allowed way leaves one possibility per page.
  lemma UsesExact(s: State, r: State, e: nat, p: nat)
    requires Inv(s) && Inv(r) && e !in r.spaces && FreedOnly(s.use, r.use, e) && p < |s.use|
    ensures r.use[p] == FreedUse(s.use[p], e, Mapped(r.flat, p) == {})
  {
    if r.use[p] == Free && s.use[p] == User {
      LooseUnmapped(r, p);
    }
  }

  lemma FreeingDone(s: State, r: State, e: nat)
    requires Inv(s) && Freeing(s, r, e, PDX_UTOP, VPN_UTOP)
    ensures e in r.spaces && r.spaces[e].root < |r.ref| == |r.use| && r.spaces[e].asid / 32 < |r.asids|
    ensures r.ref[r.spaces[e].root] == 1
    ensures Inv(CloseSpace(r, e)) && SpaceFreed(s, CloseSpace(r, e), e)
  {
    hide Inv;
    FlatBelowUtop(s);
    CloseSpaceKeeps(r, e);
    RootIsRoot(r, e);
    var q := CloseSpace(r, e);
    forall p | 0 <= p < |s.use| ensures r.use[p] == User <==> q.use[p] == User {
    }
    assert FreedOnly(s.use, q.use, e) by {
      assert r.use[r.spaces[e].root] == s.use[r.spaces[e].root];
    }
    forall p | 0 <= p < |s.use| ensures q.use[p] == FreedUse(s.use[p], e, Mapped(q.flat, p) == {})
    {
      UsesExact(s, q, e, p);
    }
    if Clean(s) {
      NoTlbLeft(r, e);
    }
  }

  lemma NoTlbLeft(s: State, e: nat)
    requires Inv(s) && Clean(s) && e in s.spaces && forall t :: t in s.flat ==> t.env != e
    ensures forall k :: k in s.tlb ==> k.asid != s.spaces[e].asid
    ensures TlbOk(s.tlb, s.owner - {s.spaces[e].asid}, s.flat)
  {
    hide Trees, UserOk, RefsOk, FreeOk, AsidsOk;
    NoStaleEntries(s.spaces, s.owner, s.asids, s.tlb, s.flat, e);
  }

  // ------------------------------------------------------------------ what the invariant means

  // A place in memory that refers to a physical page.
  datatype Site = RootOf(env: nat) | DirEntry(env: nat, pdx: nat) | TableEntry(env: nat, vpn: nat)

  // Every reference to page p, read off the directories and tables themselves.
  ghost function References(mem: seq<Page>, spaces: Spaces, p: nat): set<Site> {
    (set e | e in spaces && spaces[e].root == p :: RootOf(e))
    + (set e, i | e in spaces && 0 <= i < PDX_UTOP && Pde(mem, spaces, e, i).lo.v && Pde(mem, spaces, e, i).hi == p
       :: DirEntry(e, i))
    + (set e, v | e in spaces && 0 <= v < VPN_UTOP && Pte(mem, spaces, e, v).lo.v && Pte(mem, spaces, e, v).hi == p
       :: TableEntry(e, v))
  }

  lemma {:induction false} SameSize(slots: set<Slot>)
    ensures |set s | s in slots :: TableEntry(s.env, s.vpn)| == |slots|
  {
    if slots != {} {
      var s :| s in slots;
      SameSize(slots - {s});
      assert (set t | t in slots :: TableEntry(t.env, t.vpn))
          == (set t | t in slots - {s} :: TableEntry(t.env, t.vpn)) + {TableEntry(s.env, s.vpn)};
    }
  }

  lemma MappedSites(s: State, p: nat)
    requires Inv(s)
    ensures forall e, v :: TableEntry(e, v) in References(s.mem, s.spaces, p) <==> Slot(e, v) in Mapped(s.flat, p)
  {
    hide UserOk, RefsOk, FreeOk, AsidsOk, RootsOk, TablesOk, UsesOk;
    forall e, v ensures TableEntry(e, v) in References(s.mem, s.spaces, p) <==> Slot(e, v) in Mapped(s.flat, p) {
      if Slot(e, v) in Mapped(s.flat, p) {
        SlotHasTable(s, e, v);
      }
    }
  }

  lemma UserReferences(s: State, p: nat)
    requires Inv(s) && p < |s.use| && Loose(s.use[p])
    ensures References(s.mem, s.spaces, p) == set t | t in Mapped(s.flat, p) :: TableEntry(t.env, t.vpn)
  {
    hide UserOk, RefsOk, FreeOk, AsidsOk, FlatOk, UsesOk, Mapped;
    MappedSites(s, p);
    forall x | x in References(s.mem, s.spaces, p) ensures x.TableEntry? {
    }
  }

  lemma OnlyUserPagesMapped(s: State, p: nat)
    requires Inv(s) && p < |s.use| && s.use[p] != User
    ensures forall x :: x in References(s.mem, s.spaces, p) ==> !x.TableEntry?
  {
    hide Trees, UserOk, RefsOk, FreeOk, AsidsOk, References;
    MappedSites(s, p);
    LooseUnmapped(s, p);
  }

  lemma RootReferences(s: State, p: nat)
    requires Inv(s) && p < |s.use| && s.use[p].Root?
    ensures References(s.mem, s.spaces, p) == {RootOf(s.use[p].env)}
  {
    hide UserOk, RefsOk, FreeOk, AsidsOk, FlatOk;
    OnlyUserPagesMapped(s, p);
  }

  lemma TableReferences(s: State, p: nat)
    requires Inv(s) && p < |s.use| && s.use[p].Table?
    ensures References(s.mem, s.spaces, p) == {DirEntry(s.use[p].env, s.use[p].pdx)}
  {
    hide UserOk, RefsOk, FreeOk, AsidsOk, FlatOk;
    OnlyUserPagesMapped(s, p);
  }

  /**
   * Conservation: for every page the allocator handed out, pp_ref is the number of directory
   * roots, directory entries and page table entries that refer to it; the free list holds, each
   * once, exactly the allocator pages with no reference that are not in flight.
   */
  ghost predicate Conserved(s: State) {
    && |s.ref| == |s.use| == |s.mem|
    && (forall p :: 0 <= p < |s.ref| && s.use[p] != Boot && s.use[p] != Leaked ==>
          s.ref[p] == |References(s.mem, s.spaces, p)|)
    && (forall i, j :: 0 <= i < j < |s.free| ==> s.free[i] != s.free[j])
    && (forall p: nat :: p in s.free <==>
          p < |s.ref| && References(s.mem, s.spaces, p) == {}
          && s.use[p] != Boot && s.use[p] != Leaked && s.use[p] != InFlight)
  }

  lemma PageConserved(s: State, p: nat)
    requires Inv(s) && p < |s.use| && s.use[p] != Boot && s.use[p] != Leaked
    ensures p < |s.ref| && s.ref[p] == |References(s.mem, s.spaces, p)|
    ensures s.use[p] == Free || s.use[p] == InFlight <==> References(s.mem, s.spaces, p) == {}
  {
    if s.use[p].Root? {
      RootReferences(s, p);
    } else if s.use[p].Table? {
      TableReferences(s, p);
    } else {
      UserReferences(s, p);
      SameSize(Mapped(s.flat, p));
      if s.use[p] != User {
        LooseUnmapped(s, p);
      }
    }
  }

  lemma InvConserved(s: State)
    requires Inv(s)
    ensures Conserved(s)
  {
    hide Trees, UserOk, RefsOk, AsidsOk, References;
    Bounds(s, 0, 0, 0);
    forall p: nat | p < |s.use| && s.use[p] != Boot && s.use[p] != Leaked
      ensures s.ref[p] == |References(s.mem, s.spaces, p)|
      ensures s.use[p] == Free || s.use[p] == InFlight <==> References(s.mem, s.spaces, p) == {}
    {
      PageConserved(s, p);
    }
  }

  // va2pa: the physical page of a virtual page, straight off the tables.
  function Va2Pa(mem: seq<Page>, spaces: Spaces, e: nat, vpn: nat): Option<nat> {
    if !Pde(mem, spaces, e, Pdx(vpn)).lo.v then None
    else
      var w := At(mem, Pde(mem, spaces, e, Pdx(vpn)).hi, Ptx(vpn));
      if !w.lo.v then None else Some(w.hi)
  }

  /** va2pa agrees with page_lookup: both report the flat map. */
  lemma Va2PaIsFlat(s: State, e: nat, vpn: nat)
    requires Inv(s) && vpn < VPN_UTOP
    ensures Va2Pa(s.mem, s.spaces, e, vpn)
         == if Slot(e, vpn) in s.flat then Some(s.flat[Slot(e, vpn)].hi) else None
  {
    assert Slot(e, vpn) in s.flat ==> s.flat[Slot(e, vpn)] == Pte(s.mem, s.spaces, e, vpn);
  }

  /** TLB coherence, read off the page tables themselves. */
  ghost predicate Coherent(s: State) {
    forall k :: k in s.tlb ==>
      exists e :: e in s.spaces && s.spaces[e].asid == k.asid && s.tlb[k] == Pte(s.mem, s.spaces, e, k.vpn)
                  && (forall f :: f in s.spaces && s.spaces[f].asid == k.asid ==> f == e)
  }

  lemma InvCoherent(s: State)
    requires Inv(s) && TlbOk(s.tlb, s.owner, s.flat)
    ensures Coherent(s)
  {
    forall k | k in s.tlb
      ensures exists e :: e in s.spaces && s.spaces[e].asid == k.asid && s.tlb[k] == Pte(s.mem, s.spaces, e, k.vpn)
                          && (forall f :: f in s.spaces && s.spaces[f].asid == k.asid ==> f == e)
    {
      OwnerOwns(s, k);
      var e := s.owner[k.asid];
      assert s.tlb[k] == Pte(s.mem, s.spaces, e, k.vpn);
    }
  }

  lemma OwnerOwns(s: State, k: TlbKey)
    requires Inv(s) && TlbOk(s.tlb, s.owner, s.flat) && k in s.tlb
    ensures k.asid in s.owner && s.owner[k.asid] in s.spaces && s.spaces[s.owner[k.asid]].asid == k.asid
    ensures s.tlb[k] == Pte(s.mem, s.spaces, s.owner[k.asid], k.vpn)
    ensures forall f :: f in s.spaces && s.spaces[f].asid == k.asid ==> f == s.owner[k.asid]
  {
  }

  // is_illegal_va, negated.
  predicate IsLegal(vpn: nat) { VPN_UTEMP <= vpn < VPN_UTOP }

  lemma NewSpaceIsEmpty(s: State, e: nat)
    requires Inv(s) && e !in s.spaces
    ensures forall t :: t in s.flat ==> t.env != e
  {
  }

  // env_setup_vm: the template's entries in [UTOP, UVPT), and the directory itself at UVPT.
  function DirPage(template: Page, p: nat): (dir: Page)
    ensures forall i :: 0 <= i < PDX_UTOP ==> !dir[i].lo.v
    ensures forall i :: PDX_UTOP <= i < PDX_UVPT ==> dir[i] == template[i]
    ensures dir[PDX_UVPT] == Word(p, NO_PERM.(v := true))
  {
    ZeroPage()[PDX_UTOP := template[PDX_UTOP]][PDX_UTOP + 1 := template[PDX_UTOP + 1]]
      [PDX_UVPT := Word(p, NO_PERM.(v := true))]
  }

  // What env_alloc promises: an empty address space under an ASID nobody uses and no TLB entry has.
  ghost predicate SpaceOpened(s: State, r: State, e: nat) {
    && s.free != [] && s.free[0] < |s.use|
    && e in r.spaces && r.spaces[e].root == s.free[0] && r.spaces == s.spaces[e := r.spaces[e]]
    && r.flat == s.flat && (forall t :: t in r.flat ==> t.env != e)
    && r.spaces[e].asid !in s.owner && r.owner == s.owner[r.spaces[e].asid := e]
    && r.tlb == s.tlb
    && (TlbOk(s.tlb, s.owner, s.flat) ==> forall k :: k in r.tlb ==> k.asid != r.spaces[e].asid)
    && r.use == s.use[s.free[0] := Root(e)] && r.free == s.free[1..]
  }

  // env_alloc without a free ASID: the directory page is gone from the free list for good.
  ghost predicate SpaceLost(s: State, r: State) {
    && s.free != [] && s.free[0] < |s.use|
    && (forall a: nat :: a < NASID ==> Bitmap.Get(s.asids, a))
    && r.spaces == s.spaces && r.asids == s.asids && r.owner == s.owner && r.flat == s.flat && r.tlb == s.tlb
    && r.use == s.use[s.free[0] := Leaked] && r.free == s.free[1..]
  }

  lemma LostState(s0: State, s: State, q: State, p: nat, dir: Page)
    requires s0.free != [] && s0.free[0] == p < |s0.mem| == |s0.use| && s == Alloc(s0)
    requires |s.ref| == |s.mem| && q == Leak(s, p, dir)
    requires forall a: nat :: a < NASID ==> Bitmap.Get(s.asids, a)
    ensures SpaceLost(s0, q)
  {
  }

  lemma OpenedState(s0: State, s: State, q: State, e: nat, p: nat, dir: Page, a: nat)
    requires Inv(s0) && e !in s0.spaces && s0.free != [] && s0.free[0] == p < |s0.mem| == |s0.use| && s == Alloc(s0)
    requires a < NASID && !Bitmap.Get(s0.asids, a)
    requires p < |s.mem| == |s.ref| == |s.use| && a / 32 < |s.asids|
    requires q == OpenSpace(s, e, p, dir, a)
    ensures SpaceOpened(s0, q, e)
  {
    hide Inv;
    FreshAsid(s0, a);
    NewSpaceIsEmpty(s0, e);
  }

  lemma FreshAsid(s: State, a: nat)
    requires Inv(s) && a < NASID && !Bitmap.Get(s.asids, a)
    ensures a !in s.owner && (TlbOk(s.tlb, s.owner, s.flat) ==> forall k :: k in s.tlb ==> k.asid != a)
  {
    hide Trees, UserOk, RefsOk, FreeOk;
  }

  lemma FreeingStart(s: State, e: nat)
    requires Inv(s) && e in s.spaces
    ensures Freeing(s, s, e, 0, 0)
  {
    hide Inv;
    Bounds(s, 0, 0, 0);
    assert Without(s.flat, e, 0) == s.flat;
  }

  lemma FreeingFacts(s: State, r: State, e: nat, i: nat, n: nat)
    requires Freeing(s, r, e, i, n)
    ensures Inv(r) && e in r.spaces && r.spaces == s.spaces && r.asids == s.asids && r.owner == s.owner
    ensures r.flat == Without(s.flat, e, n)
    ensures r.spaces[e].root < |r.mem|
  {
    hide Inv;
    RootIsRoot(r, e);
  }

  lemma VpnParts(i: nat, j: nat)
    requires i < PDX_UTOP && j < NPTE
    ensures Pdx(i * NPTE + j) == i && Ptx(i * NPTE + j) == j && i * NPTE + j < VPN_UTOP
  {
  }

  lemma EmptySlot(s: State, e: nat, vpn: nat)
    requires Inv(s) && Pde(s.mem, s.spaces, e, Pdx(vpn)).lo.v
    requires !At(s.mem, Pde(s.mem, s.spaces, e, Pdx(vpn)).hi, Ptx(vpn)).lo.v
    ensures RemoveDone(s, s, e, vpn)
  {
    if Slot(e, vpn) in s.flat {
      SlotHasTable(s, e, vpn);
    }
    RemoveNothing(s, e, vpn);
  }

  lemma FreedTableState(r: State, q: State, e: nat, i: nat)
    requires e in r.spaces && r.spaces[e].root < |r.mem| && i < NPTE
    requires Pde(r.mem, r.spaces, e, i).hi < |r.ref| == |r.use|
    requires var t := Pde(r.mem, r.spaces, e, i).hi;
      q == r.(mem := r.mem[r.spaces[e].root := r.mem[r.spaces[e].root][i := ZERO]], ref := r.ref[t := 0],
              free := [t] + r.free, use := r.use[t := Free])
    ensures q == FreeTable(r, e, i)
  {
  }

  lemma ClosedState(r: State, q: State, e: nat)
    requires e in r.spaces && r.spaces[e].root < |r.ref| == |r.use| && r.spaces[e].asid / 32 < |r.asids|
    requires var p, a := r.spaces[e].root, r.spaces[e].asid;
      q == r.(ref := r.ref[p := 0], free := [p] + r.free, use := r.use[p := Free], spaces := r.spaces - {e},
              asids := Bitmap.Put(r.asids, a, false), owner := r.owner - {a})
    ensures q == CloseSpace(r, e)
  {
  }

  // ------------------------------------------------------------------ coherence, step by step

  // Mapping without PTE_G keeps a clean TLB clean.
  lemma InsertClean(s: State, r: State, e: nat, p: nat, vpn: nat, perm: Perm, ok: bool)
    requires Inv(s) && Clean(s) && InsertDone(s, r, e, p, vpn, perm, ok) && !perm.g
    ensures Clean(r)
  {
    hide Trees, UserOk, RefsOk, FreeOk, AsidsOk, SameData, Flushed, TlbOk;
    InvalidateKeeps(s, r.tlb, e, vpn, r.flat);
  }

  lemma AllocClean(s: State, r: State, e: nat, vpn: nat, perm: Perm)
    requires Inv(s) && Clean(s) && AllocDone(s, r, e, vpn, perm) && !perm.g
    ensures Clean(r)
  {
    hide Trees, UserOk, RefsOk, FreeOk, AsidsOk, SameData, Flushed, TlbOk;
    InvalidateKeeps(s, r.tlb, e, vpn, r.flat);
  }

  lemma LostClean(s: State, r: State, e: nat, vpn: nat)
    requires Inv(s) && Clean(s) && AllocLost(s, r, e, vpn)
    ensures Clean(r)
  {
    if s.free != [] {
      hide Trees, UserOk, RefsOk, FreeOk, AsidsOk, Flushed, TlbOk;
      InvalidateKeeps(s, r.tlb, e, vpn, r.flat);
    }
  }

  lemma OpenClean(s: State, r: State, e: nat)
    requires Inv(s) && Clean(s) && SpaceOpened(s, r, e)
    ensures Clean(r)
  {
    hide Trees, UserOk, RefsOk, FreeOk;
  }

  lemma RefillClean(s: State, e: nat, vpn: nat, victim: TlbKey)
    requires AsidsOk(s.spaces, s.owner, s.asids) && Clean(s) && e in s.spaces && Slot(e, vpn) in s.flat
    ensures Clean(Refill(s, e, vpn, victim))
  {
  }

  lemma TouchClean(s: State, r: State, e: nat, vpn: nat, victim: TlbKey)
    requires Inv(s) && Clean(s) && TouchDone(s, r, e, vpn, victim)
    ensures Clean(r)
  {
    hide Clean, AllocLost, AllocDone, Refill;
    if e in s.spaces {
      if Slot(e, vpn) in s.flat {
        RefillClean(s, e, vpn, victim);
      } else if vpn >= VPN_UTEMP && vpn != VPN_USTACKTOP {
        if AllocLost(s, r, e, vpn) {
          LostClean(s, r, e, vpn);
        } else {
          var m: State :| AllocDone(s, m, e, vpn, NO_PERM.(d := true)) && Slot(e, vpn) in m.flat && e in m.spaces
                          && r == Refill(m, e, vpn, victim);
          AllocClean(s, m, e, vpn, NO_PERM.(d := true));
          AllocAsids(s, m, e, vpn, NO_PERM.(d := true));
          RefillClean(m, e, vpn, victim);
        }
      }
    }
  }

  lemma AllocAsids(s: State, m: State, e: nat, vpn: nat, perm: Perm)
    requires Inv(s) && AllocDone(s, m, e, vpn, perm)
    ensures AsidsOk(m.spaces, m.owner, m.asids)
  {
  }

  // ---- global mappings

  /**
   * Why PTE_G below UTOP is left out of coherence: once env ea has a global entry for a page number,
   * unmapping the same page number of env eb may clear that entry and leave eb's own behind.
   */
  lemma GlobalHidesStale(s: State, ea: nat, eb: nat, vpn: nat)
    requires Inv(s) && GlobalOver(s, ea, eb, vpn)
    ensures var r := Unmap(s, eb, vpn, s.tlb - {TlbKey(s.spaces[ea].asid, vpn)});
      Inv(r) && RemoveDone(s, r, eb, vpn) && !TlbOk(r.tlb, r.owner, r.flat)
  {
    hide Trees, UserOk, RefsOk, FreeOk, AsidsOk, RemoveDone;
    var ka, kb := TlbKey(s.spaces[ea].asid, vpn), TlbKey(s.spaces[eb].asid, vpn);
    var tlb := s.tlb - {ka};
    RootIsRoot(s, eb);
    assert Flushed(s.tlb, tlb, s.spaces[eb].asid, vpn);
    UnmapKeeps(s, eb, vpn, tlb);
    UnmapDone(s, eb, vpn, tlb);
    hide Flushed;
    var r := Unmap(s, eb, vpn, tlb);
    assert kb in r.tlb && Slot(r.owner[kb.asid], vpn) !in r.flat;
  }

  // Mapping in one address space leaves the entries of another one alone, unless they are global.
  lemma EntrySurvives(s: State, m: State, e: nat, vpn: nat, perm: Perm, k: TlbKey)
    requires AllocDone(s, m, e, vpn, perm) && k in s.tlb && !s.tlb[k].lo.g && k.asid != s.spaces[e].asid
    ensures k in m.tlb
  {
    hide SameData;
    assert !Hits(s.tlb, s.spaces[e].asid, k);
  }

  // The state in which unmapping the page number of eb may go wrong.
  ghost predicate GlobalOver(s: State, ea: nat, eb: nat, vpn: nat) {
    && ea in s.spaces && eb in s.spaces && Slot(eb, vpn) in s.flat
    && var ka, kb := TlbKey(s.spaces[ea].asid, vpn), TlbKey(s.spaces[eb].asid, vpn);
       ka in s.tlb && kb in s.tlb && ka != kb && s.tlb[ka].lo.g
  }

  /** Such states come about when eb has touched the page number, ea maps it globally (state m), and touches it. */
  lemma GlobalEntryArises(s: State, m: State, ea: nat, eb: nat, vpn: nat, perm: Perm, victim: TlbKey)
    requires ea in s.spaces && eb in s.spaces && s.spaces[ea].asid != s.spaces[eb].asid && ea != eb
    requires Slot(eb, vpn) in s.flat && perm.g
    requires var kb := TlbKey(s.spaces[eb].asid, vpn); kb in s.tlb && !s.tlb[kb].lo.g && victim != kb
    requires AllocDone(s, m, ea, vpn, perm)
    ensures ea in m.spaces && Slot(ea, vpn) in m.flat && GlobalOver(Refill(m, ea, vpn, victim), ea, eb, vpn)
  {
    EntrySurvives(s, m, ea, vpn, perm, TlbKey(s.spaces[eb].asid, vpn));
    hide SameData, Flushed, Mapped;
  }
}
