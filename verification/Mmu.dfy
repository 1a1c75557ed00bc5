/** Words, page-table flags and the flat view of the address spaces (include/mmu.h). */
module Mmu {

  // Words in one physical page, and entries in one page directory or page table.
  const NPTE: nat := 1024

  // PDX(UTOP) and PDX(UVPT): directory entries below PDX_UTOP belong to the user.
  const PDX_UTOP: nat := 509
  const PDX_UVPT: nat := 511

  // Virtual page numbers of UTEMP, UCOW, USTACKTOP and UTOP.
  const VPN_UTEMP: nat := 0x3fe
  const VPN_UCOW: nat := 0x3ff
  const VPN_USTACKTOP: nat := 0x7f3fe
  const VPN_UTOP: nat := 0x7f400

  // The low 12 bits of a word: PTE_V, PTE_D, PTE_G, PTE_COW, PTE_LIBRARY, and the rest as one field.
  datatype Perm = Perm(v: bool, d: bool, g: bool, cow: bool, lib: bool, rest: nat)

  const NO_PERM := Perm(false, false, false, false, false, 0)

  // A 32-bit word, split the way PTE_ADDR and the 0xfff mask split it.
  datatype Word = Word(hi: nat, lo: Perm)

  const ZERO := Word(0, NO_PERM)

  type Page = w: seq<Word> | |w| == NPTE witness seq(NPTE, i => ZERO)

  function ZeroPage(): (page: Page)
    ensures forall i :: 0 <= i < NPTE ==> page[i] == ZERO
  {
    seq(NPTE, i => ZERO)
  }

  function Pdx(vpn: nat): nat { vpn / NPTE }
  function Ptx(vpn: nat): nat { vpn % NPTE }

  // One page-sized place in one address space.
  datatype Slot = Slot(env: nat, vpn: nat)

  // The flat view: which word translates each mapped slot.
  type Flat = map<Slot, Word>

  // What a successful page_insert and a page_remove do to the flat view.
  function Insert(flat: Flat, s: Slot, ppn: nat, perm: Perm): Flat {
    flat[s := Word(ppn, perm.(v := true))]
  }

  function Remove(flat: Flat, s: Slot): Flat {
    flat - {s}
  }

  // The slots that translate to physical page p.
  ghost function Mapped(flat: Flat, p: nat): set<Slot> {
    set s | s in flat && flat[s].hi == p
  }
}
