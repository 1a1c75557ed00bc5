/**
 * Blocks of the file server (fs/fs.c): the free-block bitmap, the block cache, and the direct and
 * indirect block slots of files. Operations are functions on a State; class FileSystem carries them
 * out in place.
 */
module FileBlocks {
  import opened Bitmap

  const NDIRECT: nat := 10
  const NINDIRECT: nat := 1024
  const BY2BLK: nat := 4096
  const BIT2BLK: nat := 32768
  const FILE2BLK: nat := 16

  // The number of the root's struct File, which is in the super block.
  const ROOT: nat := FILE2BLK

  // struct File, as far as its blocks are concerned. The first NDIRECT words of the indirect block
  // are not used: the slot of block n >= NDIRECT is word n of the table.
  datatype File = File(size: nat, direct: seq<nat>, indirect: nat, isDir: bool)

  // A place that holds a block number; 0 means none.
  datatype Slot = Direct(f: nat, i: nat) | Indirect(f: nat) | Entry(f: nat, i: nat)

  datatype Error = NoDisk | NoMem | NotFound | Inval

  datatype Ret<T> = Ok(val: T) | Err(error: Error)

  // disk: the bitmap as last written to the disk. words: what each block reads as, in the cache when
  // it is there and on the disk otherwise.
  datatype State = State(nblocks: nat, bitmap: seq<Bits>, disk: seq<Bits>, cached: set<nat>,
                         words: seq<seq<nat>>, files: map<nat, File>)

  function Word(words: seq<seq<nat>>, b: nat, i: nat): nat {
    if b < |words| && i < |words[b]| then words[b][i] else 0
  }

  function SlotVal(s: State, k: Slot): nat {
    if k.f !in s.files then 0 else
    var file := s.files[k.f];
    match k
    case Direct(_, i) => if i < |file.direct| then file.direct[i] else 0
    case Indirect(_) => file.indirect
    case Entry(_, i) => if file.indirect != 0 && NDIRECT <= i < NINDIRECT then Word(s.words, file.indirect, i) else 0
  }

  // *ptr = v
  function SetSlot(s: State, k: Slot, v: nat): State
    requires k.f in s.files
  {
    var file := s.files[k.f];
    match k
    case Direct(f, i) => if i < |file.direct| then s.(files := s.files[f := file.(direct := file.direct[i := v])]) else s
    case Indirect(f) => s.(files := s.files[f := file.(indirect := v)])
    case Entry(f, i) =>
      var b := file.indirect;
      if b < |s.words| && i < |s.words[b]| then
        var row: seq<nat> := s.words[b][i := v];
        s.(words := s.words[b := row])
      else s
  }

  // Block 0 holds the boot sector, block 1 the super block, then come the bitmap blocks.
  function Reserved(nblocks: nat): nat { 2 + nblocks / BIT2BLK + 1 }

  ghost predicate Shape(s: State) {
    && |s.bitmap| == |s.disk| == (s.nblocks / BIT2BLK + 1) * 1024
    && |s.words| == s.nblocks
    && (forall b :: 0 <= b < |s.words| ==> |s.words[b]| == NINDIRECT)
    && (forall f :: f in s.files ==> |s.files[f].direct| == NDIRECT)
  }

  // block_is_free
  predicate Free(s: State, b: nat) {
    b < s.nblocks && Get(s.bitmap, b)
  }

  // ------------------------------------------------------------------ the operations

  // free_block
  function Release(s: State, b: nat): State
    requires Shape(s)
  {
    if b == 0 || b >= s.nblocks then s else s.(bitmap := Put(s.bitmap, b, true))
  }

  // write_block of bitmap block seg + 2
  function WriteBack(disk: seq<Bits>, bitmap: seq<Bits>, seg: nat): (r: seq<Bits>)
    requires |disk| == |bitmap|
    ensures |r| == |disk|
    ensures forall n: nat :: n / BIT2BLK == seg ==> Get(r, n) == Get(bitmap, n)
    ensures forall n: nat :: n / BIT2BLK != seg ==> Get(r, n) == Get(disk, n)
  {
    seq(|disk|, i requires 0 <= i < |disk| => if i / 1024 == seg then bitmap[i] else disk[i])
  }

  // The lowest free block from b up; nblocks if there is none.
  function FirstFree(s: State, b: nat): (r: nat)
    ensures b <= s.nblocks ==> b <= r <= s.nblocks
    ensures r < s.nblocks ==> Free(s, r)
    ensures forall c :: b <= c < r ==> !Free(s, c)
    decreases s.nblocks - b
  {
    if b >= s.nblocks then s.nblocks else if Free(s, b) then b else FirstFree(s, b + 1)
  }

  // The found block is marked used, and the bitmap block of its bit is written to the disk.
  function Take(s: State, b: nat): State
    requires Shape(s) && b < s.nblocks
  {
    var bm := Put(s.bitmap, b, false);
    s.(bitmap := bm, disk := WriteBack(s.disk, bm, b / BIT2BLK))
  }

  function Zeros(): seq<nat> { seq(NINDIRECT, i => 0) }

  // map_block: a zero page, but only if the block is not cached already. mem: whether
  // syscall_mem_alloc succeeds.
  function MapCache(s: State, b: nat, mem: bool): (State, bool)
    requires b < |s.words|
  {
    if b in s.cached then (s, true)
    else if !mem then (s, false)
    else (s.(cached := s.cached + {b}, words := s.words[b := Zeros()]), true)
  }

  // alloc_block
  function Alloc(s: State, mem: bool): (State, Ret<nat>)
    requires Shape(s)
  {
    var b := FirstFree(s, 3);
    if b >= s.nblocks then (s, Err(NoDisk)) else
    var (t, ok) := MapCache(Take(s, b), b, mem);
    if ok then (t, Ok(b)) else (Release(t, b), Err(NoMem))
  }

  // read_block brings the block into the cache; what it reads as does not change.
  function ReadCache(s: State, b: nat): State { s.(cached := s.cached + {b}) }

  function SlotOf(f: nat, n: nat): Slot { if n < NDIRECT then Direct(f, n) else Entry(f, n) }

  // file_block_walk
  function Walk(s: State, f: nat, n: nat, alloc: bool, mem: bool): (State, Ret<Slot>)
    requires Shape(s) && f in s.files
  {
    if n < NDIRECT then (s, Ok(Direct(f, n)))
    else if n >= NINDIRECT then (s, Err(Inval))
    else if s.files[f].indirect != 0 then (ReadCache(s, s.files[f].indirect), Ok(Entry(f, n)))
    else if !alloc then (s, Err(NotFound))
    else
      match Alloc(s, mem)
      case (t, Err(e)) => (t, Err(e))
      case (t, Ok(b)) => (ReadCache(SetSlot(t, Indirect(f), b), b), Ok(Entry(f, n)))
  }

  // The rest of file_map_block, once the slot is known.
  function FillSlot(s: State, k: Slot, alloc: bool, mem: bool): (State, Ret<nat>)
    requires Shape(s) && k.f in s.files
  {
    if SlotVal(s, k) != 0 then (s, Ok(SlotVal(s, k)))
    else if !alloc then (s, Err(NotFound))
    else
      match Alloc(s, mem)
      case (t, Err(e)) => (t, Err(e))
      case (t, Ok(b)) => (SetSlot(t, k, b), Ok(b))
  }

  // file_map_block; mem and mem2: the outcomes of the two possible page allocations.
  function Map(s: State, f: nat, n: nat, alloc: bool, mem: bool, mem2: bool): (State, Ret<nat>)
    requires Shape(s) && f in s.files
  {
    WalkShape(s, f, n, alloc, mem);
    match Walk(s, f, n, alloc, mem)
    case (t, Err(e)) => (t, Err(e))
    case (t, Ok(k)) => FillSlot(t, k, alloc, mem2)
  }

  // file_clear_block
  function Clear(s: State, f: nat, n: nat): State
    requires Shape(s) && f in s.files
  {
    match Walk(s, f, n, false, false)
    case (t, Err(_)) => t
    case (t, Ok(k)) => if SlotVal(t, k) != 0 then SetSlot(Release(t, SlotVal(t, k)), k, 0) else t
  }

  function ClearFrom(s: State, f: nat, lo: nat, hi: nat): State
    requires Shape(s) && f in s.files
    decreases hi - lo
  {
    if lo >= hi then s else
    ClearShape(s, f, lo);
    ClearFrom(Clear(s, f, lo), f, lo + 1, hi)
  }

  // The number of blocks that a file of a new size keeps.
  function KeptBlocks(size: nat): nat { if size == 0 then 0 else size / BY2BLK + 1 }

  // The indirect block goes when at most NDIRECT blocks stay.
  function DropTable(s: State, f: nat, kept: nat): State
    requires Shape(s) && f in s.files
  {
    var b := s.files[f].indirect;
    if kept <= NDIRECT && b != 0 then SetSlot(Release(s, b), Indirect(f), 0) else s
  }

  function Resize(s: State, f: nat, size: nat): State
    requires f in s.files
  {
    s.(files := s.files[f := s.files[f].(size := size)])
  }

  // file_truncate
  function Truncate(s: State, f: nat, size: nat): (t: State)
    requires Shape(s) && f in s.files
    ensures f in t.files
  {
    var kept := KeptBlocks(size);
    var hi := s.files[f].size / BY2BLK + 1;
    ClearFromShape(s, f, kept, hi);
    Resize(DropTable(ClearFrom(s, f, kept, hi), f, kept), f, size)
  }

  // file_set_size
  function SetSize(s: State, f: nat, size: nat): State
    requires Shape(s) && f in s.files
  {
    Resize(if s.files[f].size > size then Truncate(s, f, size) else s, f, size)
  }

  // The invariant of each operation on shapes, which makes the operations total.

  lemma AllocShape(s: State, mem: bool)
    requires Shape(s)
    ensures var t := Alloc(s, mem).0; Shape(t) && t.files == s.files && t.nblocks == s.nblocks
  {
  }

  lemma WalkShape(s: State, f: nat, n: nat, alloc: bool, mem: bool)
    requires Shape(s) && f in s.files
    ensures var (t, r) := Walk(s, f, n, alloc, mem);
      Shape(t) && t.files.Keys == s.files.Keys && t.nblocks == s.nblocks && (r.Ok? ==> r.val == SlotOf(f, n))
  {
    AllocShape(s, mem);
    hide Alloc;
  }

  lemma ClearShape(s: State, f: nat, n: nat)
    requires Shape(s) && f in s.files
    ensures var t := Clear(s, f, n); Shape(t) && t.files.Keys == s.files.Keys && t.nblocks == s.nblocks
  {
  }

  lemma {:induction false} ClearFromShape(s: State, f: nat, lo: nat, hi: nat)
    requires Shape(s) && f in s.files
    ensures var t := ClearFrom(s, f, lo, hi); Shape(t) && t.files.Keys == s.files.Keys && t.nblocks == s.nblocks
    decreases hi - lo
  {
    if lo < hi {
      ClearShape(s, f, lo);
      hide Clear;
      ClearFromShape(Clear(s, f, lo), f, lo + 1, hi);
    }
  }
}
