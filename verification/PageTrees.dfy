/**
 * The invariant of kern/pmap.c: directories and page tables living in physical memory form disjoint
 * trees that spell out a flat map, reference counts count, the free list is exact, and the TLB is
 * coherent. The lemmas say what each single write does to each part.
 */
module PageTrees {
  import opened Common
  import opened Mmu
  import Bitmap

  // pp_ref is a u_short.
  const REF_LIMIT: nat := 65536
  const NASID: nat := 64

  // The part of struct Env that memory management uses.
  datatype Space = Space(root: nat, asid: nat)
  type Spaces = map<nat, Space>

  datatype TlbKey = TlbKey(asid: nat, vpn: nat)

  // What a physical page is used for.
  datatype Use = Boot | Free | InFlight | Leaked | User | Root(env: nat) | Table(env: nat, pdx: nat)

  // A page that no directory root and no directory entry refers to.
  predicate Loose(u: Use) { !u.Root? && !u.Table? && !u.Boot? }

  // The word at index i of physical page p.
  function At(mem: seq<Page>, p: nat, i: nat): Word {
    if p < |mem| && i < NPTE then mem[p][i] else ZERO
  }

  // The directory entry that governs index i of env e, and the page table entry of vpn.
  function Pde(mem: seq<Page>, spaces: Spaces, e: nat, i: nat): Word {
    if e in spaces then At(mem, spaces[e].root, i) else ZERO
  }

  function Pte(mem: seq<Page>, spaces: Spaces, e: nat, vpn: nat): Word {
    var d := Pde(mem, spaces, e, Pdx(vpn));
    if d.lo.v then At(mem, d.hi, Ptx(vpn)) else ZERO
  }

  // ------------------------------------------------------------------ the invariant, part by part

  ghost predicate RootsOk(spaces: Spaces, use: seq<Use>) {
    forall e :: e in spaces ==> spaces[e].root < |use| && use[spaces[e].root] == Root(e)
  }

  ghost predicate TablesOk(mem: seq<Page>, spaces: Spaces, use: seq<Use>) {
    forall e, i :: 0 <= i < PDX_UTOP && Pde(mem, spaces, e, i).lo.v ==>
      Pde(mem, spaces, e, i).hi < |use| && use[Pde(mem, spaces, e, i).hi] == Table(e, i)
  }

  ghost predicate UsesOk(mem: seq<Page>, spaces: Spaces, use: seq<Use>) {
    forall p :: 0 <= p < |use| ==>
      && (use[p].Root? ==> use[p].env in spaces && spaces[use[p].env].root == p)
      && (use[p].Table? ==>
            && use[p].pdx < PDX_UTOP
            && Pde(mem, spaces, use[p].env, use[p].pdx).lo.v
            && Pde(mem, spaces, use[p].env, use[p].pdx).hi == p)
  }

  ghost predicate FlatOk(mem: seq<Page>, spaces: Spaces, flat: Flat) {
    && (forall s :: s in flat ==> s.vpn < VPN_UTOP && flat[s] == Pte(mem, spaces, s.env, s.vpn))
    && (forall e, v :: 0 <= v < VPN_UTOP && Pte(mem, spaces, e, v).lo.v ==> Slot(e, v) in flat)
  }

  ghost predicate UserOk(use: seq<Use>, flat: Flat) {
    forall s :: s in flat ==>
      && flat[s].hi < |use| && use[flat[s].hi] == User && flat[s].lo.v
  }

  ghost predicate RefOk(r: nat, u: Use, mapped: nat) {
    match u
    case Boot => true
    case Free => r == 0
    case InFlight => r == 0
    case User => 0 < r == mapped < REF_LIMIT
    case _ => r == 1
  }

  ghost predicate RefsOk(ref: seq<nat>, use: seq<Use>, flat: Flat) {
    && |ref| == |use|
    && forall p :: 0 <= p < |ref| ==> RefOk(ref[p], use[p], |Mapped(flat, p)|)
  }

  ghost predicate FreeOk(free: seq<nat>, use: seq<Use>) {
    && (forall i, j :: 0 <= i < j < |free| ==> free[i] != free[j])
    && (forall p :: p in free <==> 0 <= p < |use| && use[p] == Free)
  }

  ghost predicate AsidsOk(spaces: Spaces, owner: map<nat, nat>, asids: seq<Bitmap.Bits>) {
    && |asids| == NASID / 32
    && (forall e :: e in spaces ==> spaces[e].asid in owner && owner[spaces[e].asid] == e)
    && (forall a :: a in owner ==> a < NASID && owner[a] in spaces && spaces[owner[a]].asid == a)
    && (forall a: nat :: a < NASID ==> (Bitmap.Get(asids, a) <==> a in owner))
  }

  type Tlb = map<TlbKey, Word>

  // An access or a probe with this ASID matches the entry k: its own, or a global one.
  predicate Hits(tlb: Tlb, asid: nat, k: TlbKey) { k in tlb && (k.asid == asid || tlb[k].lo.g) }

  /** Every TLB entry is the current page-table word of the live env that owns its ASID. */
  ghost predicate TlbOk(tlb: Tlb, owner: map<nat, nat>, flat: Flat) {
    forall k :: k in tlb ==>
      && k.asid in owner
      && Slot(owner[k.asid], k.vpn) in flat && flat[Slot(owner[k.asid], k.vpn)] == tlb[k]
  }

  // Nothing below UTOP is mapped with PTE_G.
  ghost predicate NoGlobals(flat: Flat) { forall s :: s in flat ==> !flat[s].lo.g }

  ghost predicate NoGlobalEntries(tlb: Tlb) { forall k :: k in tlb ==> !tlb[k].lo.g }

  /**
   * What probing for (asid, vpn) and clearing the entry found may do, once or several times: only
   * matching entries go. The entry itself is sure to go only if no global entry can be found instead.
   */
  ghost predicate Flushed(tlb: Tlb, now: Tlb, asid: nat, vpn: nat) {
    && (forall k :: k in now ==> k in tlb && now[k] == tlb[k])
    && (forall k :: k in tlb && k !in now ==> k.vpn == vpn && Hits(tlb, asid, k))
    && (NoGlobalEntries(tlb) ==> TlbKey(asid, vpn) !in now)
  }

  datatype State = State(
    mem: seq<Page>, ref: seq<nat>, free: seq<nat>, spaces: Spaces, asids: seq<Bitmap.Bits>,
    tlb: Tlb, flat: Flat, use: seq<Use>, owner: map<nat, nat>)

  // Directories and page tables form disjoint trees that spell out the flat map.
  ghost predicate Trees(mem: seq<Page>, spaces: Spaces, use: seq<Use>, flat: Flat) {
    && |use| == |mem|
    && RootsOk(spaces, use)
    && TablesOk(mem, spaces, use)
    && UsesOk(mem, spaces, use)
    && FlatOk(mem, spaces, flat)
  }

  ghost predicate Inv(s: State) {
    && Trees(s.mem, s.spaces, s.use, s.flat)
    && UserOk(s.use, s.flat)
    && RefsOk(s.ref, s.use, s.flat)
    && FreeOk(s.free, s.use)
    && AsidsOk(s.spaces, s.owner, s.asids)
  }

  /** The TLB is coherent, and no user mapping is global. */
  ghost predicate Clean(s: State) { TlbOk(s.tlb, s.owner, s.flat) && NoGlobals(s.flat) }

  // ------------------------------------------------------------------ what each write does to the trees

  // Rewriting a loose page, and changing its use to another loose one.
  lemma LooseWrite(mem: seq<Page>, spaces: Spaces, use: seq<Use>, flat: Flat, p: nat, page: Page, u: Use)
    requires Trees(mem, spaces, use, flat)
    requires p < |use| && Loose(use[p]) && Loose(u)
    ensures Trees(mem[p := page], spaces, use[p := u], flat)
  {
    var m := mem[p := page];
    forall e, i ensures Pde(m, spaces, e, i) == Pde(mem, spaces, e, i) {
    }
    forall e, v | 0 <= v < VPN_UTOP ensures Pte(m, spaces, e, v) == Pte(mem, spaces, e, v) {
    }
  }

  lemma SlotParts(v: nat, u: nat)
    requires Pdx(v) == Pdx(u) && Ptx(v) == Ptx(u)
    ensures v == u
  {
  }

  ghost function SetPte(mem: seq<Page>, t: nat, vpn: nat, w: Word): seq<Page>
    requires t < |mem|
  {
    mem[t := mem[t][Ptx(vpn) := w]]
  }

  ghost function FlatWith(flat: Flat, s: Slot, w: Word): Flat {
    if w.lo.v then flat[s := w] else flat - {s}
  }

  /** Writing one word of a page table changes the translation of exactly one slot. */
  lemma TableWrite(mem: seq<Page>, spaces: Spaces, use: seq<Use>, flat: Flat, e: nat, vpn: nat, w: Word)
    requires Trees(mem, spaces, use, flat)
    requires vpn < VPN_UTOP && Pde(mem, spaces, e, Pdx(vpn)).lo.v
    ensures Pde(mem, spaces, e, Pdx(vpn)).hi < |mem|
    ensures Trees(SetPte(mem, Pde(mem, spaces, e, Pdx(vpn)).hi, vpn, w), spaces, use,
                  FlatWith(flat, Slot(e, vpn), w))
    ensures forall f, i ::
      Pde(SetPte(mem, Pde(mem, spaces, e, Pdx(vpn)).hi, vpn, w), spaces, f, i) == Pde(mem, spaces, f, i)
  {
    var t := Pde(mem, spaces, e, Pdx(vpn)).hi;
    assert use[t] == Table(e, Pdx(vpn));
    var m := SetPte(mem, t, vpn, w);
    forall f, i ensures Pde(m, spaces, f, i) == Pde(mem, spaces, f, i) {
    }
    forall f, v | 0 <= v < VPN_UTOP
      ensures Pte(m, spaces, f, v) == if f == e && v == vpn then w else Pte(mem, spaces, f, v)
    {
      var d := Pde(mem, spaces, f, Pdx(v));
      if d.lo.v && d.hi == t && Ptx(v) == Ptx(vpn) {
        SlotParts(v, vpn);
      }
    }
  }

  // The same write, with a change of use between loose pages.
  lemma RewriteTree(mem: seq<Page>, spaces: Spaces, use: seq<Use>, flat: Flat, e: nat, vpn: nat, w: Word,
                    p: nat, u: Use)
    requires Trees(mem, spaces, use, flat)
    requires vpn < VPN_UTOP && Pde(mem, spaces, e, Pdx(vpn)).lo.v
    requires p < |use| && Loose(use[p]) && Loose(u)
    ensures Pde(mem, spaces, e, Pdx(vpn)).hi < |mem|
    ensures Trees(SetPte(mem, Pde(mem, spaces, e, Pdx(vpn)).hi, vpn, w), spaces, use[p := u],
                  FlatWith(flat, Slot(e, vpn), w))
    ensures forall f, i ::
      Pde(SetPte(mem, Pde(mem, spaces, e, Pdx(vpn)).hi, vpn, w), spaces, f, i) == Pde(mem, spaces, f, i)
  {
    TableWrite(mem, spaces, use, flat, e, vpn, w);
    var m := SetPte(mem, Pde(mem, spaces, e, Pdx(vpn)).hi, vpn, w);
    LooseWrite(m, spaces, use, FlatWith(flat, Slot(e, vpn), w), p, m[p], u);
    assert m[p := m[p]] == m;
  }

  ghost function SetPde(mem: seq<Page>, root: nat, i: nat, w: Word): seq<Page>
    requires root < |mem| && i < NPTE
  {
    mem[root := mem[root][i := w]]
  }

  lemma PdeWrite(mem: seq<Page>, spaces: Spaces, use: seq<Use>, e: nat, i: nat, w: Word)
    requires RootsOk(spaces, use) && |use| == |mem| && e in spaces && i < NPTE
    ensures var m := SetPde(mem, spaces[e].root, i, w);
      forall f, j :: Pde(m, spaces, f, j) == if f == e && j == i then w else Pde(mem, spaces, f, j)
  {
  }

  /** A zeroed page becomes a page table; it maps nothing yet. */
  lemma AddTable(mem: seq<Page>, spaces: Spaces, use: seq<Use>, flat: Flat, e: nat, i: nat, t: nat, w: Word)
    requires Trees(mem, spaces, use, flat)
    requires e in spaces && i < PDX_UTOP && !Pde(mem, spaces, e, i).lo.v
    requires t < |mem| && Loose(use[t]) && mem[t] == ZeroPage() && w.lo.v && w.hi == t
    ensures spaces[e].root < |mem|
    ensures Trees(SetPde(mem, spaces[e].root, i, w), spaces, use[t := Table(e, i)], flat)
  {
    PdeWrite(mem, spaces, use, e, i, w);
    var m := SetPde(mem, spaces[e].root, i, w);
    forall f, v | 0 <= v < VPN_UTOP
      ensures Pte(m, spaces, f, v) == Pte(mem, spaces, f, v)
    {
      assert Pde(m, spaces, f, Pdx(v)) == if f == e && Pdx(v) == i then w else Pde(mem, spaces, f, Pdx(v));
      assert At(mem, t, Ptx(v)) == ZERO;
    }
  }

  /** A page table without valid entries leaves its directory. */
  lemma DropTable(mem: seq<Page>, spaces: Spaces, use: seq<Use>, flat: Flat, e: nat, i: nat)
    requires Trees(mem, spaces, use, flat)
    requires i < PDX_UTOP && Pde(mem, spaces, e, i).lo.v
    requires forall s :: s in flat && s.env == e ==> Pdx(s.vpn) != i
    ensures e in spaces && Pde(mem, spaces, e, i).hi < |mem|
    ensures Trees(SetPde(mem, spaces[e].root, i, ZERO), spaces, use[Pde(mem, spaces, e, i).hi := Free], flat)
  {
    PdeWrite(mem, spaces, use, e, i, ZERO);
    var m := SetPde(mem, spaces[e].root, i, ZERO);
    var t := Pde(mem, spaces, e, i).hi;
    assert use[t] == Table(e, i);
    forall f, v | 0 <= v < VPN_UTOP
      ensures Pte(m, spaces, f, v) == if f == e && Pdx(v) == i then ZERO else Pte(mem, spaces, f, v)
    {
      assert Pde(m, spaces, f, Pdx(v)) == if f == e && Pdx(v) == i then ZERO else Pde(mem, spaces, f, Pdx(v));
    }
  }

  /** A page whose user part holds no valid entry becomes a page directory. */
  lemma AddRoot(mem: seq<Page>, spaces: Spaces, use: seq<Use>, flat: Flat, e: nat, p: nat, page: Page, asid: nat)
    requires Trees(mem, spaces, use, flat)
    requires e !in spaces && p < |mem| && Loose(use[p])
    requires forall i :: 0 <= i < PDX_UTOP ==> !page[i].lo.v
    ensures Trees(mem[p := page], spaces[e := Space(p, asid)], use[p := Root(e)], flat)
  {
    var m, sp := mem[p := page], spaces[e := Space(p, asid)];
    forall f, i | 0 <= i < PDX_UTOP
      ensures if f == e then !Pde(m, sp, f, i).lo.v else Pde(m, sp, f, i) == Pde(mem, spaces, f, i)
    {
      if f == e { assert Pde(m, sp, f, i) == page[i]; }
    }
    forall f, v | 0 <= v < VPN_UTOP
      ensures Pte(m, sp, f, v) == Pte(mem, spaces, f, v)
    {
      assert Pdx(v) < PDX_UTOP;
      assert Pde(m, sp, f, Pdx(v)) == Pde(mem, spaces, f, Pdx(v)) || f == e;
    }
  }

  /** An empty page directory goes away with its address space. */
  lemma DropRoot(mem: seq<Page>, spaces: Spaces, use: seq<Use>, flat: Flat, e: nat)
    requires Trees(mem, spaces, use, flat)
    requires e in spaces
    requires forall i :: 0 <= i < PDX_UTOP ==> !Pde(mem, spaces, e, i).lo.v
    ensures spaces[e].root < |mem|
    ensures Trees(mem, spaces - {e}, use[spaces[e].root := Free], flat)
  {
    var sp := spaces - {e};
    forall f, i | 0 <= i < PDX_UTOP
      ensures if f == e then !Pde(mem, sp, f, i).lo.v else Pde(mem, sp, f, i) == Pde(mem, spaces, f, i)
    {
    }
    forall f, v | 0 <= v < VPN_UTOP
      ensures Pte(mem, sp, f, v) == Pte(mem, spaces, f, v)
    {
      assert Pdx(v) < PDX_UTOP;
      assert Pde(mem, sp, f, Pdx(v)) == Pde(mem, spaces, f, Pdx(v)) || f == e;
    }
  }

  // ------------------------------------------------------------------ counts, free list and TLB

  lemma MappedInsert(flat: Flat, s: Slot, w: Word, p: nat)
    ensures Mapped(flat[s := w], p)
         == if w.hi == p then Mapped(flat, p) + {s} else Mapped(flat, p) - {s}
  {
  }

  lemma MappedRemove(flat: Flat, s: Slot, p: nat)
    ensures Mapped(flat - {s}, p) == Mapped(flat, p) - {s}
  {
  }

  lemma TakeFree(free: seq<nat>, use: seq<Use>, u: Use)
    requires FreeOk(free, use) && free != [] && u != Free
    ensures free[0] < |use| && use[free[0]] == Free && FreeOk(free[1..], use[free[0] := u])
  {
    assert free[0] in free;
    forall p ensures p in free[1..] <==> p in free && p != free[0] {
      if p in free && p != free[0] {
        var i :| 0 <= i < |free| && free[i] == p;
        assert free[1..][i - 1] == p;
      }
    }
  }

  lemma GiveFree(free: seq<nat>, use: seq<Use>, p: nat)
    requires FreeOk(free, use) && p < |use| && use[p] != Free
    ensures FreeOk([p] + free, use[p := Free])
  {
    var f := [p] + free;
    forall q ensures q in f <==> q == p || q in free {
    }
  }

  // A mapping disappears: its page loses one reference, the last one frees it.
  lemma UnmapRefs(ref: seq<nat>, free: seq<nat>, use: seq<Use>, flat: Flat, s: Slot)
    requires UserOk(use, flat) && RefsOk(ref, use, flat) && FreeOk(free, use) && s in flat
    ensures var p := flat[s].hi;
      && p < |ref| && ref[p] > 0 && ref[p] == |Mapped(flat, p)|
      && var last := ref[p] == 1;
         var use' := if last then use[p := Free] else use;
         && UserOk(use', flat - {s})
         && RefsOk(ref[p := ref[p] - 1], use', flat - {s})
         && FreeOk(if last then [p] + free else free, use')
  {
    var p := flat[s].hi;
    MappedLess(flat, s);
    if ref[p] == 1 {
      GiveFree(free, use, p);
      assert Mapped(flat - {s}, p) == {};
      forall t | t in flat - {s} ensures flat[t].hi != p {
        assert t !in Mapped(flat - {s}, p);
      }
    }
    hide Mapped, FreeOk;
  }

  lemma MappedLess(flat: Flat, s: Slot)
    requires s in flat
    ensures forall q :: |Mapped(flat - {s}, q)| == |Mapped(flat, q)| - if q == flat[s].hi then 1 else 0
    ensures s in Mapped(flat, flat[s].hi)
  {
    forall q ensures |Mapped(flat - {s}, q)| == |Mapped(flat, q)| - if q == flat[s].hi then 1 else 0 {
      MappedRemove(flat, s, q);
      if q != flat[s].hi { assert Mapped(flat - {s}, q) == Mapped(flat, q); }
    }
  }

  lemma MappedCount(flat: Flat, s: Slot, w: Word, q: nat)
    requires s !in flat
    ensures |Mapped(flat[s := w], q)| == |Mapped(flat, q)| + if q == w.hi then 1 else 0
  {
    MappedInsert(flat, s, w, q);
    assert s !in Mapped(flat, q);
    if q != w.hi { assert Mapped(flat[s := w], q) == Mapped(flat, q); }
  }

  // A mapping appears in an empty slot: its page gains one reference.
  lemma MapRefs(ref: seq<nat>, use: seq<Use>, flat: Flat, s: Slot, w: Word)
    requires UserOk(use, flat) && RefsOk(ref, use, flat) && s !in flat
    requires w.hi < |use| && (use[w.hi] == InFlight || use[w.hi] == User) && w.lo.v
    requires |Mapped(flat, w.hi)| < REF_LIMIT - 1
    ensures ref[w.hi] + 1 < REF_LIMIT
    ensures UserOk(use[w.hi := User], flat[s := w])
    ensures RefsOk(ref[w.hi := ref[w.hi] + 1], use[w.hi := User], flat[s := w])
  {
    var p := w.hi;
    if use[p] == InFlight {
      assert Mapped(flat, p) == {};
    }
    assert ref[p] == |Mapped(flat, p)|;
    forall q ensures |Mapped(flat[s := w], q)| == |Mapped(flat, q)| + if q == p then 1 else 0 {
      MappedCount(flat, s, w, q);
    }
  }

  /** At 65535 references the bound is tight: one more wraps the u_short to 0 while the page is mapped. */
  lemma RefWraps(ref: seq<nat>, use: seq<Use>, flat: Flat, s: Slot, w: Word)
    requires RefsOk(ref, use, flat) && s !in flat && w.hi < |use| && use[w.hi] == User
    requires |Mapped(flat, w.hi)| == REF_LIMIT - 1
    ensures (ref[w.hi] + 1) % REF_LIMIT == 0 && |Mapped(flat[s := w], w.hi)| == REF_LIMIT
    ensures !RefsOk(ref[w.hi := (ref[w.hi] + 1) % REF_LIMIT], use, flat[s := w])
  {
    MappedCount(flat, s, w, w.hi);
    assert RefOk(ref[w.hi], use[w.hi], |Mapped(flat, w.hi)|);
    var r := ref[w.hi := (ref[w.hi] + 1) % REF_LIMIT];
    assert !RefOk(r[w.hi], use[w.hi], |Mapped(flat[s := w], w.hi)|);
  }

  // A mapping changes its permissions and keeps its page: no count changes.
  lemma RemapRefs(ref: seq<nat>, use: seq<Use>, flat: Flat, s: Slot, w: Word)
    requires UserOk(use, flat) && RefsOk(ref, use, flat) && s in flat
    requires w.hi == flat[s].hi && w.lo.v
    ensures UserOk(use, flat[s := w]) && RefsOk(ref, use, flat[s := w])
  {
    forall q ensures Mapped(flat[s := w], q) == Mapped(flat, q) {
      MappedInsert(flat, s, w, q);
    }
  }

  /** Without global mappings, invalidating a slot keeps the TLB coherent whatever happens to that slot. */
  lemma InvalidateKeeps(s: State, tlb: Tlb, e: nat, vpn: nat, flat: Flat)
    requires AsidsOk(s.spaces, s.owner, s.asids) && Clean(s)
    requires e in s.spaces && Flushed(s.tlb, tlb, s.spaces[e].asid, vpn)
    requires forall t :: t != Slot(e, vpn) && t in s.flat ==> t in flat && flat[t] == s.flat[t]
    ensures TlbOk(tlb, s.owner, flat)
  {
    assert NoGlobalEntries(s.tlb);
  }

  lemma FlushTwice(a: Tlb, b: Tlb, c: Tlb, asid: nat, vpn: nat)
    requires Flushed(a, b, asid, vpn) && Flushed(b, c, asid, vpn)
    ensures Flushed(a, c, asid, vpn)
  {
  }
}
