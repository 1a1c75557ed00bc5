/**
 * Physical pages, two-level page tables, the software-filled TLB and the life of an address space
 * (kern/pmap.c, kern/tlbex.c, and the memory part of kern/env.c).
 *
 * Page directories and page tables live in the same physical memory as user data. The ghost
 * fields say what the hardware state stands for: the flat map of all address spaces, what each
 * physical page is used for, and which env owns each ASID.
 */
module Pmap {
  import opened Common
  import opened Mmu
  import opened PageTrees
  import opened PmapSteps
  import Bitmap

  datatype Ret = Ok | BadEnv | Inval | NoMem | NoFreeEnv

  /** The search of asid_alloc: the lowest clear bit, or none when all are taken. */
  method FindAsid(asids: seq<Bitmap.Bits>) returns (r: Option<nat>)
    ensures r.None? <==> forall a: nat :: a < NASID ==> Bitmap.Get(asids, a)
    ensures r.Some? ==> r.value < NASID && !Bitmap.Get(asids, r.value)
    ensures r.Some? ==> forall a: nat :: a < r.value ==> Bitmap.Get(asids, a)
  {
    var i := 0;
    while i < NASID
      invariant 0 <= i <= NASID
      invariant forall a: nat :: a < i ==> Bitmap.Get(asids, a)
    {
      if !Bitmap.Get(asids, i) {
        return Some(i);
      }
      i := i + 1;
    }
    return None;
  }

  // The kernel entries that touch memory management.
  datatype Op =
    | MemAlloc(env: Option<nat>, vpn: nat, perm: Perm)
    | MemMap(src: Option<nat>, sva: nat, dst: Option<nat>, dva: nat, perm: Perm)
    | MemUnmap(env: Option<nat>, vpn: nat)
    | Touch(e: nat, vpn: nat, victim: TlbKey)
    | Write(e: nat, key: TlbKey, offset: nat, value: Word)    // a store of env e that hits this entry
    | Evict(key: TlbKey)
    | Open(e: nat, template: Page)
    | Close(e: nat)

  // A resolved env is alive, and no count reaches its limit; mapping a page where it is mapped
  // already changes no count.
  predicate InScope(mem: seq<Page>, ref: seq<nat>, spaces: Spaces, op: Op) {
    match op
    case MemAlloc(env, vpn, perm) => (env.Some? ==> env.value in spaces)
    case MemMap(src, sva, dst, dva, perm) =>
      && (src.Some? ==> src.value in spaces) && (dst.Some? ==> dst.value in spaces)
      && (IsLegal(dva) && src.Some? && Pte(mem, spaces, src.value, sva).lo.v ==>
            var p := Pte(mem, spaces, src.value, sva).hi;
            || (p < |ref| && ref[p] < REF_LIMIT - 1)
            || (dst.Some? && Pte(mem, spaces, dst.value, dva).lo.v && Pte(mem, spaces, dst.value, dva).hi == p))
    case MemUnmap(env, vpn) => env.Some? ==> env.value in spaces
    case Touch(e, vpn, victim) => e in spaces && vpn < VPN_UTOP
    case Write(e, key, offset, value) => e in spaces && offset < NPTE
    case Evict(key) => true
    case Open(e, template) => e !in spaces
    case Close(e) => e in spaces
  }

  // The mapping calls carry no PTE_G.
  predicate Plain(op: Op) { op.MemAlloc? || op.MemMap? ==> !op.perm.g }

  /** What one kernel entry, store or eviction does; one that is out of scope does nothing. */
  ghost predicate StepDone(s: State, op: Op, r: State) {
    if !InScope(s.mem, s.ref, s.spaces, op) then r == s else
    match op
    case MemAlloc(env, vpn, perm) =>
      if !IsLegal(vpn) || env.None? then r == s
      else AllocDone(s, r, env.value, vpn, perm) || AllocLost(s, r, env.value, vpn)
    case MemMap(src, sva, dst, dva, perm) =>
      if !IsLegal(sva) || !IsLegal(dva) || src.None? || dst.None? || Slot(src.value, sva) !in s.flat then r == s
      else InsertDone(s, r, dst.value, s.flat[Slot(src.value, sva)].hi, dva, perm,
                      Pde(s.mem, s.spaces, dst.value, Pdx(dva)).lo.v || s.free != [])
    case MemUnmap(env, vpn) => if !IsLegal(vpn) || env.None? then r == s else RemoveDone(s, r, env.value, vpn)
    case Touch(e, vpn, victim) => TouchDone(s, r, e, vpn, victim)
    case Write(e, k, offset, value) =>
      if e in s.spaces && Hits(s.tlb, s.spaces[e].asid, k) && s.tlb[k].lo.d && s.tlb[k].hi < |s.mem| && offset < NPTE
      then r == s.(mem := s.mem[s.tlb[k].hi := s.mem[s.tlb[k].hi][offset := value]])
      else r == s
    case Evict(key) => r == s.(tlb := s.tlb - {key})
    case Open(e, template) => if s.free == [] then r == s else SpaceOpened(s, r, e) || SpaceLost(s, r)
    case Close(e) => SpaceFreed(s, r, e)
  }

  // page_init: no address space yet, all pages from freemem up on the free list.
  ghost predicate Booted(boot: seq<Page>, freemem: nat, s: State) {
    && s.mem == boot && s.spaces == map[] && s.tlb == map[] && s.flat == map[]
    && |s.free| == |boot| - freemem && |s.ref| == |s.use| == |boot|
    && (forall i :: 0 <= i < |s.free| ==> s.free[i] == |boot| - 1 - i)
    && (forall p :: 0 <= p < freemem && p < |boot| ==> s.ref[p] == 1 && s.use[p] == Boot)
    && (forall p :: freemem <= p < |boot| ==> s.ref[p] == 0 && s.use[p] == Free)
  }

  lemma InScopeCount(s: State, e: nat, vpn: nat)
    requires Inv(s) && Slot(e, vpn) in s.flat
    ensures Pte(s.mem, s.spaces, e, vpn) == s.flat[Slot(e, vpn)] && s.flat[Slot(e, vpn)].lo.v
    ensures var p := s.flat[Slot(e, vpn)].hi; p < |s.ref| && s.ref[p] == |Mapped(s.flat, p)|
  {
    SlotHasTable(s, e, vpn);
  }

  class Machine {
    var mem: seq<Page>
    var ref: seq<nat>
    var free: seq<nat>
    var spaces: Spaces
    var asids: seq<Bitmap.Bits>
    var tlb: Tlb

    ghost var flat: Flat
    ghost var use: seq<Use>
    ghost var owner: map<nat, nat>

    ghost function St(): State
      reads this
    {
      State(mem, ref, free, spaces, asids, tlb, flat, use, owner)
    }

    ghost predicate Valid()
      reads this
    {
      Inv(St())
    }

    /** page_init: pages below freemem are in use, the rest are pushed on the free list in turn. */
    constructor (boot: seq<Page>, freemem: nat)
      requires freemem <= |boot|
      ensures Valid() && Clean(St())
      ensures Booted(boot, freemem, St())
    {
      mem := boot;
      spaces, tlb, flat, owner := map[], map[], map[], map[];
      asids := [Bitmap.Fill(false), Bitmap.Fill(false)];
      use := seq(|boot|, i => if i < freemem then Boot else Free);
      var r := seq(|boot|, i => 0);
      var p := 0;
      while p < freemem
        invariant 0 <= p <= freemem && |r| == |boot|
        invariant forall q :: 0 <= q < p ==> r[q] == 1
      {
        r := r[p := 1];
        p := p + 1;
      }
      var f: seq<nat> := [];
      p := freemem;
      while p < |boot|
        invariant freemem <= p <= |boot| && |r| == |boot|
        invariant forall q :: 0 <= q < p ==> r[q] == if q < freemem then 1 else 0
        invariant |f| == p - freemem
        invariant forall i :: 0 <= i < |f| ==> f[i] == p - 1 - i
      {
        r := r[p := 0];
        f := [p] + f;
        p := p + 1;
      }
      ref := r;
      free := f;
      new;
      forall q: nat ensures q in free <==> q < |use| && use[q] == Free {
        if q < |use| && use[q] == Free { assert free[|boot| - 1 - q] == q; }
      }
    }

    /** page_alloc: take the first free page and zero it; its reference count stays 0. */
    method PageAlloc() returns (r: Option<nat>)
      requires Valid()
      modifies `mem, `free, `use
      ensures Valid()
      ensures r.None? <==> old(free) == []
      ensures r.None? ==> mem == old(mem) && free == old(free) && use == old(use)
      ensures r.Some? ==>
        && r.value == old(free)[0] < |old(mem)| == |old(use)| && old(use)[r.value] == Free
        && St() == Alloc(old(St())) && use == old(use)[r.value := InFlight]
    {
      if free == [] {
        return None;
      }
      var p := free[0];
      AllocKeeps(St());
      free := free[1..];
      mem := mem[p := ZeroPage()];
      use := use[p := InFlight];
      return Some(p);
    }

    /** page_free. */
    method PageFree(p: nat)
      requires p < |ref| && ref[p] == 0
      modifies `free
      ensures free == [p] + old(free)
    {
      free := [p] + free;
    }

    /** page_decref: drop one reference; the last one frees the page. */
    method PageDecref(p: nat)
      requires p < |ref| && ref[p] > 0
      modifies `free, `ref
      ensures ref == old(ref)[p := old(ref)[p] - 1]
      ensures free == if old(ref)[p] == 1 then [p] + old(free) else old(free)
    {
      ref := ref[p := ref[p] - 1];
      if ref[p] == 0 {
        PageFree(p);
      }
    }

    /** tlb_invalidate with tlb_out: the probe finds some matching entry, if there is one, and clears it. */
    method TlbInvalidate(asid: nat, vpn: nat)
      modifies `tlb
      ensures Flushed(old(tlb), tlb, asid, vpn)
      ensures if exists k: TlbKey :: k.vpn == vpn && Hits(old(tlb), asid, k)
        then exists k: TlbKey :: k.vpn == vpn && Hits(old(tlb), asid, k) && tlb == old(tlb) - {k} else tlb == old(tlb)
    {
      if k: TlbKey :| k in tlb && k.vpn == vpn && Hits(tlb, asid, k) {
        tlb := tlb - {k};
      }
    }

    /** pgdir_walk: the page holding the entry of vpn; with create, a missing table is added. */
    method PgdirWalk(e: nat, vpn: nat, create: bool) returns (r: Walk)
      requires Valid() && e in spaces && vpn < VPN_UTOP
      modifies `mem, `free, `ref, `use
      ensures WalkDone(old(St()), St(), e, vpn, create, r)
      ensures Valid()
    {
      hide Inv;
      Bounds(St(), e, Pdx(vpn), 0);
      var d := Pde(mem, spaces, e, Pdx(vpn));
      if !d.lo.v {
        if create {
          var pp := PageAlloc();
          if pp.None? {
            return NoTable;
          }
          var t := pp.value;
          WithTableKeeps(St(), e, Pdx(vpn), t);
          var root := spaces[e].root;
          var w := Word(t, NO_PERM.(v := true, d := true));
          mem := mem[root := mem[root][Pdx(vpn) := w]];
          ref := ref[t := (ref[t] + 1) % REF_LIMIT];
          use := use[t := Table(e, Pdx(vpn))];
        } else {
          return Null;
        }
      }
      return In(Pde(mem, spaces, e, Pdx(vpn)).hi);
    }

    /** page_lookup: the page table word of a mapped slot, or nothing. */
    method PageLookup(e: nat, vpn: nat) returns (r: Option<Word>)
      requires Valid() && e in spaces && vpn < VPN_UTOP
      ensures r == if Slot(e, vpn) in flat then Some(flat[Slot(e, vpn)]) else None
    {
      var d := Pde(mem, spaces, e, Pdx(vpn));
      if !d.lo.v {
        return None;
      }
      var pte := At(mem, d.hi, Ptx(vpn));
      if !pte.lo.v {
        return None;
      }
      return Some(pte);
    }

    /** page_remove: the slot becomes empty; nothing else is unmapped. */
    method PageRemove(e: nat, vpn: nat)
      requires Valid() && e in spaces && vpn < VPN_UTOP
      modifies `mem, `ref, `free, `tlb, `flat, `use
      ensures RemoveDone(old(St()), St(), e, vpn)
      ensures Valid()
    {
      hide Inv, Pde, Pte, At, RemoveDone;
      ghost var s := St();
      var r := PageLookup(e, vpn);
      if r.None? {
        RemoveNothing(s, e, vpn);
        return;
      }
      SlotHasTable(s, e, vpn);
      hide Flushed;
      var p := r.value.hi;
      var t := Pde(mem, spaces, e, Pdx(vpn)).hi;
      PageDecref(p);
      mem := mem[t := mem[t][Ptx(vpn) := ZERO]];
      TlbInvalidate(spaces[e].asid, vpn);
      flat, use := Remove(flat, Slot(e, vpn)), if s.ref[p] == 1 then use[p := Free] else use;
      UnmapKeeps(s, e, vpn, tlb);
      UnmapDone(s, e, vpn, tlb);
      assert St() == Unmap(s, e, vpn, tlb);
    }

    /**
     * page_insert: on success exactly this slot translates to page p with perm; the only failure
     * is a missing page table with no free page, and then the flat map is unchanged.
     */
    method PageInsert(e: nat, p: nat, vpn: nat, perm: Perm) returns (ok: bool)
      requires Valid() && e in spaces && vpn < VPN_UTOP
      requires p < |use| && Data(use[p])
      requires |Mapped(flat, p)| < REF_LIMIT - 1 || (Slot(e, vpn) in flat && flat[Slot(e, vpn)].hi == p)
      modifies `mem, `ref, `free, `tlb, `flat, `use
      ensures InsertDone(old(St()), St(), e, p, vpn, perm, ok)
      ensures Valid()
    {
      hide Inv, Pde, Pte, At, InsertDone, Flushed;
      ghost var s := St();
      var pte := PageLookup(e, vpn);
      if pte.Some? {
        SlotHasTable(s, e, vpn);
        if pte.value.hi != p {
          assert Mapped(Remove(flat, Slot(e, vpn)), p) == Mapped(flat, p);
          PageRemove(e, vpn);
          ghost var m := St();
          ok := InsertEmpty(e, p, vpn, perm);
          RemoveThenInsert(s, m, St(), e, p, vpn, perm, ok);
          return;
        } else {
          TlbInvalidate(spaces[e].asid, vpn);
          RemapKeeps(s, e, vpn, perm, tlb);
          RemapDone(s, e, vpn, perm, tlb);
          var t := Pde(mem, spaces, e, Pdx(vpn)).hi;
          mem, flat := mem[t := mem[t][Ptx(vpn) := Word(p, perm.(v := true))]], Insert(flat, Slot(e, vpn), p, perm);
          assert St() == Remap(s, e, vpn, perm, tlb);
          return true;
        }
      }
      ok := InsertEmpty(e, p, vpn, perm);
    }

    // Steps 2 to 4 of page_insert, for a slot that is empty by now.
    method InsertEmpty(e: nat, p: nat, vpn: nat, perm: Perm) returns (ok: bool)
      requires Valid() && e in spaces && vpn < VPN_UTOP && Slot(e, vpn) !in flat
      requires p < |use| && Data(use[p])
      requires |Mapped(flat, p)| < REF_LIMIT - 1
      modifies `mem, `ref, `free, `tlb, `flat, `use
      ensures InsertDone(old(St()), St(), e, p, vpn, perm, ok)
      ensures Valid()
    {
      hide Inv, Pde, Pte, At, Mapped, InsertDone, WalkDone, Flushed;
      ghost var s := St();
      TlbInvalidate(spaces[e].asid, vpn);
      ghost var left := tlb;
      TlbAside(s, left);
      var w := PgdirWalk(e, vpn, true);
      ghost var m := St();
      WalkEnds(s, left, m, e, vpn, w, p, perm);
      if w.NoTable? {
        return false;
      }
      MapDone(s, m, e, p, vpn, perm);
      MapKeeps(m, e, p, vpn, perm);
      mem, ref, flat, use :=
        mem[w.table := mem[w.table][Ptx(vpn) := Word(p, perm.(v := true))]],
        ref[p := (ref[p] + 1) % REF_LIMIT],
        Insert(flat, Slot(e, vpn), p, perm),
        use[p := User];
      assert St() == Map(m, e, p, vpn, perm);
      return true;
    }

    /**
     * sys_mem_alloc: a zeroed page at va. If page_insert fails the page stays out of the free list
     * without being mapped.
     */
    method SysMemAlloc(env: Option<nat>, vpn: nat, perm: Perm) returns (r: Ret)
      requires Valid() && (env.Some? ==> env.value in spaces)
      modifies `mem, `ref, `free, `tlb, `flat, `use
      ensures r == Inval <==> vpn < VPN_UTEMP || vpn >= VPN_UTOP
      ensures r == BadEnv <==> VPN_UTEMP <= vpn < VPN_UTOP && env.None?
      ensures r in {Ok, Inval, BadEnv, NoMem}
      ensures r == Ok ==> AllocDone(old(St()), St(), env.value, vpn, perm)
      ensures r == NoMem ==> AllocLost(old(St()), St(), env.value, vpn)
      ensures r == NoMem <==>
        && IsLegal(vpn) && env.Some?
        && (old(free) == [] || (|old(free)| == 1 && !Pde(old(mem), old(spaces), env.value, Pdx(vpn)).lo.v))
      ensures r == Inval || r == BadEnv ==> St() == old(St())
      ensures Valid()
    {
      hide Inv, Pde, Pte, At;
      if vpn < VPN_UTEMP || vpn >= VPN_UTOP {
        return Inval;
      }
      if env.None? {
        return BadEnv;
      }
      ghost var s := St();
      Bounds(s, 0, 0, 0);
      var pp := PageAlloc();
      if pp.None? {
        return NoMem;
      }
      ghost var m := St();
      LooseUnmapped(m, pp.value);
      AllocPde(s, env.value, Pdx(vpn));
      var ok := PageInsert(env.value, pp.value, vpn, perm);
      if !ok {
        LostAlloc(s, m, St(), env.value, vpn, pp.value, perm);
        return NoMem;
      }
      return Ok;
    }

    /** sys_mem_map: the destination slot shares the page of the source slot. */
    method SysMemMap(src: Option<nat>, sva: nat, dst: Option<nat>, dva: nat, perm: Perm) returns (r: Ret)
      requires Valid() && (src.Some? ==> src.value in spaces) && (dst.Some? ==> dst.value in spaces)
      requires IsLegal(dva) && src.Some? && Slot(src.value, sva) in flat ==>
        || |Mapped(flat, flat[Slot(src.value, sva)].hi)| < REF_LIMIT - 1
        || (dst.Some? && Slot(dst.value, dva) in flat && flat[Slot(dst.value, dva)].hi == flat[Slot(src.value, sva)].hi)
      modifies `mem, `ref, `free, `tlb, `flat, `use
      ensures r == BadEnv <==> IsLegal(sva) && IsLegal(dva) && (src.None? || dst.None?)
      ensures r == Inval <==> !IsLegal(sva) || !IsLegal(dva)
                              || (src.Some? && dst.Some? && Slot(src.value, sva) !in old(flat))
      ensures r in {Ok, BadEnv, Inval, NoMem}
      ensures r == Ok || r == NoMem ==>
        && src.Some? && dst.Some? && Slot(src.value, sva) in old(flat)
        && InsertDone(old(St()), St(), dst.value, old(flat)[Slot(src.value, sva)].hi, dva, perm, r == Ok)
      ensures r == BadEnv || r == Inval ==> St() == old(St())
      ensures Valid()
    {
      hide Inv, Pde, Pte, At;
      if !IsLegal(sva) || !IsLegal(dva) {
        return Inval;
      }
      if src.None? {
        return BadEnv;
      }
      if dst.None? {
        return BadEnv;
      }
      var pp := PageLookup(src.value, sva);
      if pp.None? {
        return Inval;
      }
      SlotHasTable(St(), src.value, sva);
      var ok := PageInsert(dst.value, pp.value.hi, dva, perm);
      return if ok then Ok else NoMem;
    }

    /** sys_mem_unmap: silently succeeds when nothing is mapped. */
    method SysMemUnmap(env: Option<nat>, vpn: nat) returns (r: Ret)
      requires Valid() && (env.Some? ==> env.value in spaces)
      modifies `mem, `ref, `free, `tlb, `flat, `use
      ensures r == if !IsLegal(vpn) then Inval else if env.None? then BadEnv else Ok
      ensures if r == Ok then RemoveDone(old(St()), St(), env.value, vpn) else St() == old(St())
      ensures Valid()
    {
      hide Inv, Pde, Pte, At;
      if !IsLegal(vpn) {
        return Inval;
      }
      if env.None? {
        return BadEnv;
      }
      PageRemove(env.value, vpn);
      return Ok;
    }

    /**
     * do_tlb_refill and _do_tlb_refill with passive_alloc: the entry written is the current word of
     * the slot, which was mapped already or now holds a fresh zero page. None stands for a panic.
     */
    method TlbRefill(e: nat, vpn: nat, victim: TlbKey) returns (w: Option<Word>)
      requires Valid() && e in spaces && vpn < VPN_UTOP
      modifies `mem, `ref, `free, `tlb, `flat, `use
      ensures TouchDone(old(St()), St(), e, vpn, victim)
      ensures w.Some? ==>
        && Slot(e, vpn) in flat && w.value == flat[Slot(e, vpn)]
        && TlbKey(spaces[e].asid, vpn) in tlb && tlb[TlbKey(spaces[e].asid, vpn)] == w.value
      ensures Slot(e, vpn) in old(flat) ==> w.Some?
      ensures Slot(e, vpn) !in old(flat) && (vpn < VPN_UTEMP || vpn == VPN_USTACKTOP) ==> w.None?
      ensures w.None? ==> flat == old(flat)
      ensures Valid()
    {
      hide Inv, Pde, Pte, At;
      var pte := PageLookup(e, vpn);
      while pte.None?
        invariant Valid()
        invariant pte == if Slot(e, vpn) in flat then Some(flat[Slot(e, vpn)]) else None
        invariant pte.None? || Slot(e, vpn) in old(flat) ==> St() == old(St())
        invariant Slot(e, vpn) in old(flat) ==> pte.Some?
        invariant Slot(e, vpn) !in old(flat) && pte.Some? ==>
          vpn >= VPN_UTEMP && vpn != VPN_USTACKTOP && AllocDone(old(St()), St(), e, vpn, NO_PERM.(d := true))
        decreases pte.None?
      {
        if vpn < VPN_UTEMP || vpn == VPN_USTACKTOP {
          return None;
        }
        var r := SysMemAlloc(Some(e), vpn, NO_PERM.(d := true));
        if r != Ok {
          return None;
        }
        pte := PageLookup(e, vpn);
      }
      RefillKeeps(St(), e, vpn, victim);
      tlb := (tlb - {victim})[TlbKey(spaces[e].asid, vpn) := pte.value];
      return pte;
    }

    /** A user store: the TLB entry k that it hits supplies the page, and only that page changes. */
    method Store(e: nat, k: TlbKey, offset: nat, value: Word) returns (done: bool)
      requires Valid() && TlbOk(tlb, owner, flat) && e in spaces && offset < NPTE
      modifies `mem
      ensures done <==> Hits(tlb, spaces[e].asid, k) && tlb[k].lo.d
      ensures !done ==> mem == old(mem)
      ensures done ==> tlb[k].hi < |old(mem)| && mem == old(mem)[tlb[k].hi := old(mem)[tlb[k].hi][offset := value]]
      ensures done && !tlb[k].lo.g ==> Slot(e, k.vpn) in flat && flat[Slot(e, k.vpn)] == tlb[k]
      ensures Valid()
    {
      hide Inv, Pde, Pte, At;
      if !Hits(tlb, spaces[e].asid, k) || !tlb[k].lo.d {
        return false;
      }
      RootIsRoot(St(), e);
      EntryIsUser(St(), k);
      var p := tlb[k].hi;
      StoreKeeps(St(), k, mem[p][offset := value]);
      mem := mem[p := mem[p][offset := value]];
      return true;
    }

    /**
     * env_alloc with env_setup_vm: a new empty address space under an unused ASID. Without a free
     * ASID the directory page has already been taken, and is not given back.
     */
    method EnvAlloc(e: nat, template: Page) returns (r: Ret)
      requires Valid() && e !in spaces
      modifies `mem, `ref, `free, `use, `spaces, `asids, `owner
      ensures r == NoMem <==> old(free) == []
      ensures r in {Ok, NoMem, NoFreeEnv}
      ensures r == NoMem ==> St() == old(St())
      ensures r == NoFreeEnv ==> SpaceLost(old(St()), St())
      ensures r == Ok ==> SpaceOpened(old(St()), St(), e)
      ensures Valid()
    {
      hide Inv, Alloc, SpaceOpened, SpaceLost, OpenSpace, Leak;
      ghost var s0 := St();
      Bounds(s0, 0, 0, 0);
      var pp := PageAlloc();
      if pp.None? {
        return NoMem;
      }
      ghost var s := St();
      Bounds(s, 0, 0, 0);
      var a := InstallDir(e, pp.value, template);
      if a.None? {
        LostState(s0, s, St(), pp.value, DirPage(template, pp.value));
        return NoFreeEnv;
      }
      OpenedState(s0, s, St(), e, pp.value, DirPage(template, pp.value), a.value);
      return Ok;
    }

    // The rest of env_setup_vm and env_alloc, once page p is allocated.
    method InstallDir(e: nat, p: nat, template: Page) returns (a: Option<nat>)
      requires Valid() && e !in spaces && p < |mem| && p < |use| && use[p] == InFlight
      modifies `mem, `ref, `use, `spaces, `asids, `owner
      ensures p < |old(mem)| == |old(ref)| == |old(use)|
      ensures a.None? ==>
        && (forall b: nat :: b < NASID ==> Bitmap.Get(old(asids), b))
        && St() == Leak(old(St()), p, DirPage(template, p))
      ensures a.Some? ==>
        && a.value < NASID && !Bitmap.Get(old(asids), a.value) && a.value / 32 < |old(asids)|
        && St() == OpenSpace(old(St()), e, p, DirPage(template, p), a.value)
      ensures Valid()
    {
      hide Inv, Bitmap.Get, Bitmap.Put, ZeroPage;
      ghost var s := St();
      var dir := DirPage(template, p);
      hide DirPage;
      Bounds(s, 0, 0, p);
      mem, ref := mem[p := dir], ref[p := ref[p] + 1];
      a := FindAsid(asids);
      if a.None? {
        LeakKeeps(s, p, dir);
        use := use[p := Leaked];
        return;
      }
      OpenSpaceKeeps(s, e, p, dir, a.value);
      use, spaces, asids, owner :=
        use[p := Root(e)], spaces[e := Space(p, a.value)], Bitmap.Put(asids, a.value, true), owner[a.value := e];
      assert St() == OpenSpace(s, e, p, dir, a.value);
    }

    /** env_free: unmap every user page, free every table, then the directory and the ASID. */
    method EnvFree(e: nat)
      requires Valid() && e in spaces
      modifies this
      ensures SpaceFreed(old(St()), St(), e)
      ensures Valid()
    {
      hide Inv, Pde, Pte, At, Freeing, SpaceFreed, FreeTable, CloseSpace;
      ghost var s := St();
      FreeingStart(s, e);
      var pdeno := 0;
      while pdeno < PDX_UTOP
        invariant 0 <= pdeno <= PDX_UTOP
        invariant Freeing(s, St(), e, pdeno, pdeno * NPTE)
      {
        FreeingFacts(s, St(), e, pdeno, pdeno * NPTE);
        if Pde(mem, spaces, e, pdeno).lo.v {
          var t := Pde(mem, spaces, e, pdeno).hi;
          var pteno := 0;
          while pteno < NPTE
            invariant 0 <= pteno <= NPTE
            invariant Freeing(s, St(), e, pdeno, pdeno * NPTE + pteno)
            invariant Pde(mem, spaces, e, pdeno) == Word(t, Pde(mem, spaces, e, pdeno).lo)
            invariant Pde(mem, spaces, e, pdeno).lo.v
          {
            var vpn := pdeno * NPTE + pteno;
            ghost var r := St();
            FreeingFacts(s, r, e, pdeno, vpn);
            VpnParts(pdeno, pteno);
            if At(mem, t, pteno).lo.v {
              PageRemove(e, vpn);
            } else {
              EmptySlot(r, e, vpn);
            }
            FreeingSlot(s, r, St(), e, pdeno, vpn);
            pteno := pteno + 1;
          }
          ghost var r := St();
          FreeingFacts(s, r, e, pdeno, (pdeno + 1) * NPTE);
          FreeingTable(s, r, e, pdeno);
          var root := spaces[e].root;
          mem := mem[root := mem[root][pdeno := ZERO]];
          PageDecref(t);
          use := use[t := Free];
          FreedTableState(r, St(), e, pdeno);
        } else {
          FreeingSkip(s, St(), e, pdeno);
        }
        pdeno := pdeno + 1;
      }
      ghost var r := St();
      FreeingDone(s, r, e);
      var root, a := spaces[e].root, spaces[e].asid;
      PageDecref(root);
      asids := Bitmap.Put(asids, a, false);
      spaces := spaces - {e};
      use, owner := use[root := Free], owner - {a};
      ClosedState(r, St(), e);
    }

    /**
     * One kernel entry, one user store or one eviction, if it is in scope. A store needs a clean TLB;
     * nothing else does, and whatever maps without PTE_G keeps it clean.
     */
    method Step(op: Op)
      requires Valid() && (op.Write? ==> Clean(St()))
      modifies this
      ensures Valid() && StepDone(old(St()), op, St())
      ensures Clean(old(St())) && Plain(op) ==> Clean(St())
    {
      ghost var s := St();
      Perform(op);
      if Clean(s) && Plain(op) {
        StepClean(s, op, St());
      }
    }

    method Perform(op: Op)
      requires Valid() && (op.Write? ==> Clean(St()))
      modifies this
      ensures Valid() && StepDone(old(St()), op, St())
    {
      hide Inv, Pde, Pte, At, AllocDone, AllocLost, InsertDone, RemoveDone, TouchDone, SpaceOpened, SpaceLost, SpaceFreed;
      if !InScope(mem, ref, spaces, op) {
        return;
      }
      match op
      case MemAlloc(env, vpn, perm) => var r := SysMemAlloc(env, vpn, perm);
      case MemMap(src, sva, dst, dva, perm) => ScopedMap(op);
      case MemUnmap(env, vpn) => var r := SysMemUnmap(env, vpn);
      case Touch(e, vpn, victim) => var w := TlbRefill(e, vpn, victim);
      case Write(e, k, offset, value) => var done := Store(e, k, offset, value);
      case Evict(key) =>
        TlbAside(St(), tlb - {key});
        tlb := tlb - {key};
      case Open(e, template) => var r := EnvAlloc(e, template);
      case Close(e) => EnvFree(e);
    }

    method ScopedMap(op: Op)
      requires Valid() && op.MemMap? && InScope(mem, ref, spaces, op)
      modifies `mem, `ref, `free, `tlb, `flat, `use
      ensures Valid() && StepDone(old(St()), op, St())
    {
      hide Inv, Pde, Pte, At;
      if IsLegal(op.dva) && op.src.Some? && Slot(op.src.value, op.sva) in flat {
        InScopeCount(St(), op.src.value, op.sva);
        if op.dst.Some? {
          InScopeSlot(St(), op.dst.value, op.dva);
        }
      }
      var r := SysMemMap(op.src, op.sva, op.dst, op.dva, op.perm);
    }
  }

  lemma InScopeSlot(s: State, e: nat, vpn: nat)
    requires Inv(s) && vpn < VPN_UTOP
    ensures Pte(s.mem, s.spaces, e, vpn).lo.v ==>
      Slot(e, vpn) in s.flat && s.flat[Slot(e, vpn)].hi == Pte(s.mem, s.spaces, e, vpn).hi
  {
    assert Pte(s.mem, s.spaces, e, vpn).lo.v ==> Slot(e, vpn) in s.flat;
  }

  /** Coherence, step by step: what maps without PTE_G keeps the TLB clean. */
  lemma StepClean(s: State, op: Op, r: State)
    requires Inv(s) && Clean(s) && Plain(op) && StepDone(s, op, r)
    ensures Clean(r)
  {
    hide Inv, Clean, InScope, AllocDone, AllocLost, InsertDone, RemoveDone, TouchDone, SpaceOpened, SpaceLost, SpaceFreed;
    if InScope(s.mem, s.ref, s.spaces, op) {
      match op
      case MemAlloc(env, vpn, perm) =>
        if IsLegal(vpn) && env.Some? {
          if AllocLost(s, r, env.value, vpn) {
            LostClean(s, r, env.value, vpn);
          } else {
            AllocClean(s, r, env.value, vpn, perm);
          }
        }
      case MemMap(src, sva, dst, dva, perm) =>
        if r != s {
          InsertClean(s, r, dst.value, s.flat[Slot(src.value, sva)].hi, dva, perm,
                      Pde(s.mem, s.spaces, dst.value, Pdx(dva)).lo.v || s.free != []);
        }
      case MemUnmap(env, vpn) =>
        if r != s {
          RemoveClean(s, r, env.value, vpn);
        }
      case Touch(e, vpn, victim) => TouchClean(s, r, e, vpn, victim);
      case Write(e, k, offset, value) => SameTlbClean(s, r);
      case Evict(key) => EvictClean(s, key);
      case Open(e, template) => OpenedClean(s, r, e);
      case Close(e) => FreedClean(s, r, e);
    }
  }

  lemma SameTlbClean(s: State, r: State)
    requires Clean(s) && r.tlb == s.tlb && r.owner == s.owner && r.flat == s.flat
    ensures Clean(r)
  {
  }

  lemma EvictClean(s: State, key: TlbKey)
    requires Clean(s)
    ensures Clean(s.(tlb := s.tlb - {key}))
  {
  }

  lemma OpenedClean(s: State, r: State, e: nat)
    requires Inv(s) && Clean(s) && (r == s || SpaceOpened(s, r, e) || SpaceLost(s, r))
    ensures Clean(r)
  {
    if SpaceOpened(s, r, e) {
      OpenClean(s, r, e);
    }
  }

  lemma FreedClean(s: State, r: State, e: nat)
    requires Clean(s) && SpaceFreed(s, r, e)
    ensures Clean(r)
  {
  }

  /**
   * Every run from boot: whatever kernel entries, stores and evictions follow one another, each does
   * what StepDone says, and after each of them the reference counts are conserved; if nothing is
   * mapped with PTE_G, the TLB is coherent as well. Conservation also holds with PTE_G, as long as no
   * program stores through the TLB. trace holds all the states.
   */
  method Run(boot: seq<Page>, freemem: nat, ops: seq<Op>) returns (m: Machine, ghost trace: seq<State>)
    requires freemem <= |boot|
    requires (forall i :: 0 <= i < |ops| ==> Plain(ops[i])) || (forall i :: 0 <= i < |ops| ==> !ops[i].Write?)
    ensures m.Valid() && |trace| == |ops| + 1 && Booted(boot, freemem, trace[0]) && trace[|ops|] == m.St()
    ensures forall i :: 0 <= i < |ops| ==> StepDone(trace[i], ops[i], trace[i + 1])
    ensures forall i :: 0 <= i <= |ops| ==> Conserved(trace[i])
    ensures (forall i :: 0 <= i < |ops| ==> Plain(ops[i])) ==> forall i :: 0 <= i <= |ops| ==> Coherent(trace[i])
  {
    hide Inv, Conserved, Coherent, StepDone, Booted, Clean, Plain;
    m := new Machine(boot, freemem);
    trace := [m.St()];
    ghost var plain := forall i :: 0 <= i < |ops| ==> Plain(ops[i]);
    InvConserved(m.St());
    CleanCoherent(m.St());
    var n := 0;
    while n < |ops|
      invariant 0 <= n <= |ops| && fresh(m) && m.Valid() && (plain ==> Clean(m.St()))
      invariant |trace| == n + 1 && Booted(boot, freemem, trace[0]) && trace[n] == m.St()
      invariant forall i :: 0 <= i < n ==> StepDone(trace[i], ops[i], trace[i + 1])
      invariant forall i :: 0 <= i <= n ==> Conserved(trace[i]) && (plain ==> Coherent(trace[i]))
    {
      m.Step(ops[n]);
      InvConserved(m.St());
      if plain {
        CleanCoherent(m.St());
      }
      trace := trace + [m.St()];
      n := n + 1;
    }
  }

  lemma CleanCoherent(s: State)
    requires Inv(s) && Clean(s)
    ensures Coherent(s)
  {
    InvCoherent(s);
  }

  // ------------------------------------------------------------------ the limit of the counts

  ghost predicate HasTable(flat: Flat, e: nat, i: nat) { exists u: nat :: Slot(e, u) in flat && Pdx(u) == i }

  // The slots from v on, n of them.
  ghost function Stretch(e: nat, v: nat, n: nat): set<Slot> { set j | v <= j < v + n :: Slot(e, j) }

  lemma {:induction false} StretchSize(e: nat, v: nat, n: nat)
    ensures |Stretch(e, v, n)| == n
    decreases n
  {
    if n > 0 {
      StretchSize(e, v, n - 1);
      assert Stretch(e, v, n) == Stretch(e, v, n - 1) + {Slot(e, v + n - 1)};
    } else {
      assert Stretch(e, v, n) == {};
    }
  }

  lemma StretchOne(e: nat, v: nat)
    ensures Stretch(e, v, 1) == {Slot(e, v)}
  {
  }

  // Each page number from v on has its table.
  ghost predicate TablesOver(flat: Flat, e: nat, v: nat) {
    forall j :: v <= j < v + REF_LIMIT - 1 ==> HasTable(flat, e, Pdx(j))
  }

  lemma Extended(flat: Flat, e: nat, v: nat, n: nat, w: Word)
    requires 0 < n < REF_LIMIT - 1 && Mapped(flat, w.hi) == Stretch(e, v, n) && TablesOver(flat, e, v)
    ensures |Mapped(flat, w.hi)| == n && HasTable(flat, e, Pdx(v + n))
    ensures Mapped(flat[Slot(e, v + n) := w], w.hi) == Stretch(e, v, n + 1) && TablesOver(flat[Slot(e, v + n) := w], e, v)
  {
    StretchSize(e, v, n);
    MappedInsert(flat, Slot(e, v + n), w, w.hi);
    hide Mapped;
    assert Stretch(e, v, n) + {Slot(e, v + n)} == Stretch(e, v, n + 1);
    hide Stretch, Pdx;
    forall j | v <= j < v + REF_LIMIT - 1 ensures HasTable(flat[Slot(e, v + n) := w], e, Pdx(j)) {
      assert HasTable(flat, e, Pdx(j));
      var u: nat :| Slot(e, u) in flat && Pdx(u) == Pdx(j);
      assert Slot(e, u) in flat[Slot(e, v + n) := w];
    }
  }

  method MapOneMore(m: Machine, e: nat, v: nat, u: nat, perm: Perm, ghost w: Word)
    requires m.Valid() && Slot(e, v) in m.flat && m.flat[Slot(e, v)] == w
    requires VPN_UTEMP <= v < VPN_UTOP && VPN_UTEMP <= u < VPN_UTOP && u != v
    requires |Mapped(m.flat, w.hi)| < REF_LIMIT - 1 && HasTable(m.flat, e, Pdx(u))
    modifies m
    ensures m.Valid() && m.flat == old(m.flat)[Slot(e, u) := Word(w.hi, perm.(v := true))]
  {
    ghost var s := m.St();
    ghost var x :| Slot(e, x) in m.flat && Pdx(x) == Pdx(u);
    SlotHasTable(s, e, x);
    hide Inv, Pde, Mapped;
    var r := m.SysMemMap(Some(e), v, Some(e), u, perm);
  }

  method MapUpTo(m: Machine, e: nat, v: nat, n: nat, perm: Perm, ghost w: Word)
    requires m.Valid() && Slot(e, v) in m.flat && m.flat[Slot(e, v)] == w && Mapped(m.flat, w.hi) == {Slot(e, v)}
    requires 1 <= n <= REF_LIMIT - 1 && VPN_UTEMP <= v && v + n <= VPN_UTOP && TablesOver(m.flat, e, v)
    modifies m
    ensures m.Valid() && Slot(e, v) in m.flat && m.flat[Slot(e, v)] == w
    ensures Mapped(m.flat, w.hi) == Stretch(e, v, n) && TablesOver(m.flat, e, v)
    decreases n
  {
    hide Inv, Pde, Mapped, TablesOver, Stretch, HasTable;
    if n == 1 {
      StretchOne(e, v);
    } else {
      MapUpTo(m, e, v, n - 1, perm, w);
      Extended(m.flat, e, v, n - 1, Word(w.hi, perm.(v := true)));
      MapOneMore(m, e, v, v + n - 1, perm, w);
    }
  }

  /**
   * A program that maps its page again and again, 65534 times, where page tables exist: each call
   * succeeds, and the count reaches the last value it can hold.
   */
  method ReachLimit(m: Machine, e: nat, v: nat, perm: Perm)
    requires m.Valid() && Slot(e, v) in m.flat && VPN_UTEMP <= v && v + REF_LIMIT - 1 <= VPN_UTOP
    requires Mapped(m.flat, m.flat[Slot(e, v)].hi) == {Slot(e, v)}
    requires TablesOver(m.flat, e, v)
    modifies m
    ensures m.Valid() && Slot(e, v) in m.flat && m.flat[Slot(e, v)] == old(m.flat)[Slot(e, v)]
    ensures |Mapped(m.flat, m.flat[Slot(e, v)].hi)| == REF_LIMIT - 1
  {
    ghost var w := m.flat[Slot(e, v)];
    MapUpTo(m, e, v, REF_LIMIT - 1, perm, w);
    StretchSize(e, v, REF_LIMIT - 1);
  }
}
