/**
 * Who owns which block, over every run of requests to the file server (fs/fs.c), directories
 * included. A struct File lives in a block of its directory; its number says where: entry
 * f % FILE2BLK of block f / FILE2BLK. The root's lives in the super block.
 */
module FileRuns {
  import opened Bitmap
  import opened FileBlocks
  import opened FileOwnership

  // The block that holds a struct File.
  function Home(f: nat): nat { f / FILE2BLK }

  // No struct File lives in a free block.
  ghost predicate Homed(s: State) {
    forall f :: f in s.files ==> Home(f) < s.nblocks && !Free(s, Home(f))
  }

  ghost predicate RunInv(s: State) { Inv(s) && Homed(s) }

  // ------------------------------------------------------------------ entries that come

  // A struct File that names no block.
  ghost predicate BlankEntry(entry: File) {
    entry.indirect == 0 && forall i :: 0 <= i < |entry.direct| ==> entry.direct[i] == 0
  }

  // The struct Files that can be found from now on.
  function AddFiles(s: State, fs: map<nat, File>): State { s.(files := s.files + fs) }

  ghost predicate NewFiles(s: State, fs: map<nat, File>) {
    forall f :: f in fs ==> f !in s.files && |fs[f].direct| == NDIRECT
  }

  /** New files keep ownership exactly when none of them names a block. */
  lemma AddFilesExact(s: State, fs: map<nat, File>)
    requires Inv(s) && NewFiles(s, fs)
    ensures Owned(AddFiles(s, fs), {}) <==> forall f :: f in fs ==> BlankEntry(fs[f])
    ensures (forall f :: f in fs ==> BlankEntry(fs[f])) ==> Inv(AddFiles(s, fs))
  {
    var t := AddFiles(s, fs);
    assert forall k: Slot :: k.f !in fs ==> SlotVal(t, k) == SlotVal(s, k);
    assert forall k: Slot :: k.f in fs ==> SlotVal(s, k) == 0;
    if forall f :: f in fs ==> BlankEntry(fs[f]) {
      forall k ensures SlotVal(t, k) == SlotVal(s, k) {
        if k.f in fs {
          assert BlankEntry(fs[k.f]);
        }
      }
      EmptyEntry(s, t);
    } else {
      var f :| f in fs && !BlankEntry(fs[f]);
      var k := EntrySlot(f, fs[f]);
      assert SlotVal(t, k) != 0;
      var v := SlotVal(t, k);
      if Held(s, v) {
        var l :| SlotVal(s, l) == v;
        assert SlotVal(t, l) == v && l != k;
      }
    }
  }

  // A slot of an entry that is not blank.
  ghost function EntrySlot(f: nat, entry: File): (k: Slot)
    requires !BlankEntry(entry)
    ensures k.f == f && !k.Entry?
    ensures if k.Indirect? then entry.indirect != 0 else k.i < |entry.direct| && entry.direct[k.i] != 0
  {
    if entry.indirect != 0 then Indirect(f)
    else var i :| 0 <= i < |entry.direct| && entry.direct[i] != 0; Direct(f, i)
  }

  // The struct File with number j in the words of a block: 256 bytes each, the name in the first half,
  // then size, type, the direct slots and the indirect slot.
  function EntryAt(words: seq<seq<nat>>, b: nat, j: nat): File {
    File(Word(words, b, 64 * j + 32), seq<nat>(NDIRECT, i requires i >= 0 => Word(words, b, 64 * j + 34 + i)),
         Word(words, b, 64 * j + 44), Word(words, b, 64 * j + 33) == 1)
  }

  // The first character of its name is not zero.
  predicate Named(words: seq<seq<nat>>, b: nat, j: nat) { Word(words, b, 64 * j) % 256 != 0 }

  function Places(b: nat): (r: seq<nat>)
    ensures |r| == FILE2BLK && forall j :: 0 <= j < FILE2BLK ==> r[j] == FILE2BLK * b + j
  {
    seq(FILE2BLK, j requires j >= 0 => FILE2BLK * b + j)
  }

  lemma PlaceParts(b: nat, f: nat)
    ensures f in Places(b) <==> Home(f) == b
  {
    if f in Places(b) {
      var j :| 0 <= j < FILE2BLK && Places(b)[j] == f;
      assert f == FILE2BLK * b + j;
    }
    if Home(f) == b {
      assert Places(b)[f % FILE2BLK] == f;
    }
  }

  // What dir_lookup finds in a block that has just become a directory block: the first entry, which
  // gets the new name, and every other entry in which a name was left.
  function Showing(words: seq<seq<nat>>, b: nat, isDir: bool): map<nat, File> {
    map f | f in Places(b) && (f % FILE2BLK == 0 || Named(words, b, f % FILE2BLK)) ::
      if f % FILE2BLK == 0 then EntryAt(words, b, 0).(isDir := isDir) else EntryAt(words, b, f % FILE2BLK)
  }

  lemma ShowingShape(words: seq<seq<nat>>, b: nat, isDir: bool)
    ensures forall f :: f in Showing(words, b, isDir) ==> |Showing(words, b, isDir)[f].direct| == NDIRECT && Home(f) == b
  {
    forall f | f in Showing(words, b, isDir) ensures Home(f) == b {
      PlaceParts(b, f);
    }
  }

  // Entry j of block b names no block.
  ghost predicate BlankAt(words: seq<seq<nat>>, b: nat, j: nat) { BlankEntry(EntryAt(words, b, j)) }

  // Everything that shows in block b names no block.
  ghost predicate BlankShowing(words: seq<seq<nat>>, b: nat) {
    forall j: nat :: j < FILE2BLK && (j == 0 || Named(words, b, j)) ==> BlankAt(words, b, j)
  }

  lemma ShowingAt(words: seq<seq<nat>>, b: nat, isDir: bool, j: nat)
    requires j < FILE2BLK && (j == 0 || Named(words, b, j))
    ensures var fs, f := Showing(words, b, isDir), FILE2BLK * b + j; f in fs && (BlankEntry(fs[f]) <==> BlankAt(words, b, j))
  {
    var f := FILE2BLK * b + j;
    assert f % FILE2BLK == j && Places(b)[j] == f;
    hide Word;
  }

  lemma ShowingIs(words: seq<seq<nat>>, b: nat, isDir: bool, f: nat)
    requires f in Showing(words, b, isDir)
    ensures var j := f % FILE2BLK; j < FILE2BLK && (j == 0 || Named(words, b, j)) && f == FILE2BLK * b + j
  {
    PlaceParts(b, f);
    hide Word;
  }

  lemma ShowingBlank(words: seq<seq<nat>>, b: nat, isDir: bool)
    ensures (forall f :: f in Showing(words, b, isDir) ==> BlankEntry(Showing(words, b, isDir)[f])) <==> BlankShowing(words, b)
  {
    var fs := Showing(words, b, isDir);
    hide Showing, BlankEntry, BlankAt, Named;
    forall f | f in fs ensures BlankShowing(words, b) ==> BlankEntry(fs[f]) {
      ShowingIs(words, b, isDir, f);
      ShowingAt(words, b, isDir, f % FILE2BLK);
    }
    forall j: nat | j < FILE2BLK && (j == 0 || Named(words, b, j))
      ensures FILE2BLK * b + j in fs && (BlankEntry(fs[FILE2BLK * b + j]) <==> BlankAt(words, b, j))
    {
      ShowingAt(words, b, isDir, j);
    }
  }

  // A name and a block number left in the second entry are enough, however blank the first entry is.
  lemma StaleSibling(words: seq<seq<nat>>, b: nat)
    requires Word(words, b, 64) % 256 != 0 && Word(words, b, 98) != 0
    ensures !BlankShowing(words, b)
  {
    assert Named(words, b, 1);
    assert EntryAt(words, b, 1).direct[0] == Word(words, b, 98);
  }

  // In a block that alloc_block has just zeroed all entries are blank.
  lemma FreshBlockBlank(s: State, t: State, b: nat, j: nat)
    requires Shape(s) && AllocDone(s, t, b) && b !in s.cached
    ensures BlankAt(t.words, b, j) && !Named(t.words, b, j)
  {
    hide Owned, SlotVal, Get, Free;
    assert t.words[b] == Zeros();
    assert forall i: nat :: Word(t.words, b, i) == 0;
    var entry := EntryAt(t.words, b, j);
    forall i | 0 <= i < NDIRECT ensures entry.direct[i] == 0 {
      assert entry.direct[i] == Word(t.words, b, 64 * j + 34 + i);
    }
  }

  // ------------------------------------------------------------------ entries that go

  // Struct Files in freed blocks are gone.
  ghost function Sweep(t: State): State {
    t.(files := map g | g in t.files && !Free(t, Home(g)) :: t.files[g])
  }

  ghost predicate HoldsNone(t: State, g: nat) { forall k: Slot :: k.f == g ==> SlotVal(t, k) == 0 }

  /** Losing the struct Files in freed blocks keeps ownership exactly when they hold no block. */
  lemma SweepExact(t: State)
    requires Inv(t)
    ensures Owned(Sweep(t), {}) <==> forall g :: g in t.files && Free(t, Home(g)) ==> HoldsNone(t, g)
    ensures (forall g :: g in t.files && Free(t, Home(g)) ==> HoldsNone(t, g)) ==> Inv(Sweep(t))
  {
    var u := Sweep(t);
    assert Shape(u) && SameFree(t, u);
    forall k: Slot ensures SlotVal(u, k) == if k.f in t.files && Free(t, Home(k.f)) then 0 else SlotVal(t, k) {
    }
    if forall g :: g in t.files && Free(t, Home(g)) ==> HoldsNone(t, g) {
      forall k: Slot ensures SlotVal(u, k) == SlotVal(t, k) {
        if k.f in t.files && Free(t, Home(k.f)) {
          assert HoldsNone(t, k.f);
        }
      }
      assert forall k :: SlotVal(t, k) != 0 ==> SizeOf(u, k.f) == SizeOf(t, k.f);
      hide Sweep;
      EmptyEntry(t, u);
    } else {
      var g :| g in t.files && Free(t, Home(g)) && !HoldsNone(t, g);
      var k: Slot :| k.f == g && SlotVal(t, k) != 0;
      var v := SlotVal(t, k);
      assert Held(t, v) && Held(u, v);
      assert forall l :: SlotVal(t, l) == v ==> l == k;
      assert !Referenced(u, v);
    }
  }

  // ------------------------------------------------------------------ requests

  datatype Op =
    | MapOp(f: nat, n: nat, alloc: bool, mem: bool, mem2: bool)
    | ClearOp(f: nat, n: nat)
    | TruncateOp(f: nat, size: nat)
    | SetSizeOp(f: nat, size: nat)
    | WriteOp(b: nat, data: seq<nat>)     // a client changes a data block that it has mapped
    | ReuseOp(f: nat, entry: File)        // file_create in an unused struct File that holds this
    | GrowOp(d: nat, isDir: bool, mem: bool, mem2: bool)  // file_create in a new block of directory d
    | RemoveOp(f: nat)                    // file_remove

  // b is a data block of a directory, or of a file that is none.
  ghost predicate DataBlock(s: State, b: nat, isDir: bool) {
    b != 0 && exists k :: SlotVal(s, k) == b && !k.Indirect? && k.f in s.files && s.files[k.f].isDir == isDir
  }

  // ---- requests that free blocks

  // The slots that a request empties, and the blocks that it frees.
  ghost predicate Empties(s: State, op: Op, k: Slot) {
    match op
    case ClearOp(f, n) => k == SlotOf(f, n)
    case TruncateOp(f, size) => k.f == f && Beyond(k, size)
    case SetSizeOp(f, size) => k.f == f && size < SizeOf(s, f) && Beyond(k, size)
    case RemoveOp(f) => k.f == f
    case _ => false
  }

  ghost predicate Frees(s: State, op: Op, b: nat) {
    b != 0 && exists k :: Empties(s, op, k) && SlotVal(s, k) == b
  }

  predicate Freeing(op: Op) { op.ClearOp? || op.TruncateOp? || op.SetSizeOp? || op.RemoveOp? }

  /**
   * No struct File in a block that is freed holds a block itself: in particular, a directory whose
   * blocks go has no entry with blocks.
   */
  ghost predicate NothingLost(s: State, op: Op) {
    forall k: Slot :: k.f in s.files && Frees(s, op, Home(k.f)) && !Empties(s, op, k) ==> SlotVal(s, k) == 0
  }

  // The block operations of a request, before struct Files in freed blocks are gone.
  ghost function BlockStep(s: State, op: Op): State
    requires Shape(s) && Freeing(op) && op.f in s.files
  {
    match op
    case ClearOp(f, n) => Clear(s, f, n)
    case TruncateOp(f, size) => Truncate(s, f, size)
    case SetSizeOp(f, size) => SetSize(s, f, size)
    case RemoveOp(f) => Truncate(s, f, 0)
  }

  ghost predicate Stepped(s: State, op: Op, t: State) {
    && Inv(t) && t.nblocks == s.nblocks && t.files.Keys == s.files.Keys
    && (forall k :: SlotVal(t, k) == if Empties(s, op, k) then 0 else SlotVal(s, k))
    && (forall b :: Free(t, b) <==> Free(s, b) || Frees(s, op, b))
  }

  lemma TruncateStepped(s: State, f: nat, size: nat, op: Op)
    requires Inv(s) && f in s.files && (forall k: Slot :: Empties(s, op, k) <==> k.f == f && Beyond(k, size))
    ensures Stepped(s, op, Truncate(s, f, size))
  {
    TruncateFacts(s, f, size);
    TruncateCuts(s, f, size);
    hide Inv, SlotVal, Free, Truncate, Beyond, Empties;
    forall b ensures Frees(s, op, b) <==> b != 0 && exists k: Slot :: k.f == f && Beyond(k, size) && SlotVal(s, k) == b {
      if k: Slot :| k.f == f && Beyond(k, size) && SlotVal(s, k) == b {
        assert Empties(s, op, k);
      }
    }
  }

  lemma BlockStepFacts(s: State, op: Op)
    requires Inv(s) && Freeing(op) && op.f in s.files
    ensures Stepped(s, op, BlockStep(s, op))
  {
    match op
    case ClearOp(f, n) => ClearStepped(s, f, n);
    case TruncateOp(f, size) =>
      hide Inv, Stepped, Truncate;
      TruncateStepped(s, f, size, op);
    case SetSizeOp(f, size) => SetSizeStepped(s, f, size);
    case RemoveOp(f) =>
      hide Inv, Stepped, Truncate;
      TruncateStepped(s, f, 0, op);
  }

  lemma ClearStepped(s: State, f: nat, n: nat)
    requires Inv(s) && f in s.files
    ensures Stepped(s, ClearOp(f, n), Clear(s, f, n))
  {
    ClearFacts(s, f, n);
    ClearKeeps(s, f, n);
    hide Inv, SlotVal, Free, Clear;
    forall b ensures Frees(s, ClearOp(f, n), b) <==> b != 0 && b == SlotVal(s, SlotOf(f, n)) {
      assert Empties(s, ClearOp(f, n), SlotOf(f, n));
    }
  }

  lemma SetSizeStepped(s: State, f: nat, size: nat)
    requires Inv(s) && f in s.files
    ensures Stepped(s, SetSizeOp(f, size), SetSize(s, f, size))
  {
    var op := SetSizeOp(f, size);
    SetSizeKeeps(s, f, size);
    var t := if s.files[f].size > size then Truncate(s, f, size) else s;
    if s.files[f].size > size {
      TruncateStepped(s, f, size, op);
    } else {
      assert forall b :: !Frees(s, op, b);
    }
    assert Stepped(s, op, t);
    hide Truncate, Frees, Empties;
    ResizeFacts(t, f, size);
    hide SlotVal, Free, Inv;
  }

  /** A request that frees blocks keeps ownership exactly when nothing is lost. */
  lemma LossExact(s: State, op: Op)
    requires RunInv(s) && Freeing(op) && op.f in s.files
    ensures Owned(Sweep(BlockStep(s, op)), {}) <==> NothingLost(s, op)
    ensures NothingLost(s, op) ==> RunInv(Sweep(BlockStep(s, op)))
  {
    BlockStepFacts(s, op);
    var t := BlockStep(s, op);
    SweepExact(t);
    hide Inv, SlotVal, BlockStep, Frees, Empties, Owned;
    assert forall g :: g in t.files ==> (Free(t, Home(g)) <==> Frees(s, op, Home(g)));
    hide Free;
    if NothingLost(s, op) {
      forall g | g in t.files && Free(t, Home(g)) ensures HoldsNone(t, g) {
        forall k: Slot | k.f == g ensures SlotVal(t, k) == 0 {
          assert k.f in s.files && Frees(s, op, Home(k.f));
        }
      }
      SweepHomed(s, t);
    } else {
      var k: Slot :| k.f in s.files && Frees(s, op, Home(k.f)) && !Empties(s, op, k) && SlotVal(s, k) != 0;
      assert SlotVal(t, k) != 0 && !HoldsNone(t, k.f);
    }
  }

  lemma SweepHomed(s: State, t: State)
    requires Homed(s) && t.nblocks == s.nblocks && t.files.Keys == s.files.Keys
    ensures Homed(Sweep(t))
  {
  }

  // The struct File of the removed file is unused from now on.
  lemma ForgetFile(t: State, f: nat)
    requires RunInv(t) && HoldsNone(t, f)
    ensures RunInv(t.(files := t.files - {f}))
  {
    var u := t.(files := t.files - {f});
    forall k ensures SlotVal(u, k) == SlotVal(t, k) {
      assert k.f == f ==> SlotVal(t, k) == 0;
    }
    assert SameFree(t, u);
    EmptyEntry(t, u);
  }

  // ---- file_create in a new directory block

  // dir_alloc_file raises the size of the directory, and then gets the block. A failure leaves the
  // size as it is.
  function Sized(s: State, d: nat): (t: State)
    requires Shape(s) && d in s.files
    ensures Shape(t) && d in t.files
  {
    ResizeFacts(s, d, s.files[d].size + BY2BLK);
    Resize(s, d, s.files[d].size + BY2BLK)
  }

  ghost function GrowMap(s: State, d: nat, mem: bool, mem2: bool): (State, Ret<nat>)
    requires Shape(s) && d in s.files
  {
    Map(Sized(s, d), d, SizeOf(s, d) / BY2BLK, true, mem, mem2)
  }

  ghost predicate GrowScope(s: State, d: nat) {
    && d in s.files && s.files[d].isDir && SlotVal(s, SlotOf(d, SizeOf(s, d) / BY2BLK)) == 0
    && (NeedsTable(s, d, SizeOf(s, d) / BY2BLK, true) ==> CleanChoice(s))
  }

  ghost function Grow(s: State, d: nat, isDir: bool, mem: bool, mem2: bool): State
    requires Shape(s) && d in s.files
  {
    match GrowMap(s, d, mem, mem2)
    case (t, Err(_)) => t
    case (t, Ok(b)) => AddFiles(t, Showing(t.words, b, isDir))
  }

  // What shows in the new block, if there is one, names no block.
  ghost predicate GrowClean(s: State, d: nat, mem: bool, mem2: bool)
    requires Shape(s) && d in s.files
  {
    match GrowMap(s, d, mem, mem2)
    case (t, Err(_)) => true
    case (t, Ok(b)) => BlankShowing(t.words, b)
  }

  lemma AllocFrees(s: State, mem: bool)
    requires Shape(s)
    ensures var t := Alloc(s, mem).0; forall c :: Free(t, c) ==> Free(s, c)
  {
  }

  lemma WalkFrees(s: State, f: nat, n: nat, alloc: bool, mem: bool)
    requires Shape(s) && f in s.files
    ensures var t := Walk(s, f, n, alloc, mem).0; forall c :: Free(t, c) ==> Free(s, c)
  {
    AllocFrees(s, mem);
    hide Alloc, Get;
  }

  // Mapping frees nothing.
  lemma MapFrees(s: State, f: nat, n: nat, alloc: bool, mem: bool, mem2: bool)
    requires Shape(s) && f in s.files
    ensures var t := Map(s, f, n, alloc, mem, mem2).0;
      && t.nblocks == s.nblocks && t.files.Keys == s.files.Keys && forall c :: Free(t, c) ==> Free(s, c)
  {
    WalkShape(s, f, n, alloc, mem);
    WalkFrees(s, f, n, alloc, mem);
    var w := Walk(s, f, n, alloc, mem).0;
    AllocFrees(w, mem2);
    AllocShape(w, mem2);
    hide Walk, Alloc, Get;
  }

  lemma {:induction false} SameFirst(s: State, t: State, b: nat)
    requires t.nblocks == s.nblocks && forall c :: Free(t, c) <==> Free(s, c)
    ensures FirstFree(t, b) == FirstFree(s, b)
    decreases s.nblocks - b
  {
    if b < s.nblocks && !Free(s, b) {
      SameFirst(s, t, b + 1);
    }
  }

  // The directory with its new size.
  lemma SizedIs(s: State, d: nat)
    requires Shape(s) && d in s.files
    ensures var t := Sized(s, d);
      && t.nblocks == s.nblocks && t.files.Keys == s.files.Keys && t.cached == s.cached && t.words == s.words
      && SameSlots(s, t) && SameFree(s, t) && SizeOf(t, d) == SizeOf(s, d) + BY2BLK
  {
    ResizeFacts(s, d, s.files[d].size + BY2BLK);
    hide SlotVal, Free;
  }

  lemma SizedInv(s: State, d: nat)
    requires RunInv(s) && Shape(s) && d in s.files
    ensures RunInv(Sized(s, d))
  {
    SizedIs(s, d);
    ResizeInv(s, d, s.files[d].size + BY2BLK);
    hide SlotVal, Free, Inv;
  }

  lemma GrowSized(s: State, d: nat)
    requires RunInv(s) && Shape(s) && GrowScope(s, d)
    ensures var s1, n := Sized(s, d), SizeOf(s, d) / BY2BLK;
      RunInv(s1) && MapScope(s1, d, n, true) && SlotVal(s1, SlotOf(d, n)) == 0
  {
    SizedIs(s, d);
    SizedInv(s, d);
    hide Sized, RunInv, Shape;
    var s1 := Sized(s, d);
    assert SlotVal(s1, Indirect(d)) == SlotVal(s, Indirect(d));
    SameFirst(s, s1, 3);
    assert CleanChoice(s) <==> CleanChoice(s1);
    hide CleanChoice, Free;
  }

  // The state and the answer of a mapping: the block, if there is one, holds no struct File.
  ghost predicate NewlyMapped(q: (State, Ret<nat>)) {
    && RunInv(q.0)
    && (q.1.Ok? ==> q.1.val < q.0.nblocks && !Free(q.0, q.1.val) && forall f :: f in q.0.files ==> Home(f) != q.1.val)
  }

  // Mapping an empty slot gives a block that was free, so no struct File lives there.
  lemma MapNew(s: State, d: nat, n: nat, mem: bool, mem2: bool)
    requires RunInv(s) && MapScope(s, d, n, true) && SlotVal(s, SlotOf(d, n)) == 0
    ensures NewlyMapped(Map(s, d, n, true, mem, mem2))
  {
    MapKeeps(s, d, n, true, mem, mem2);
    assert Shape(s) && Owned(s, {}) && DiskSafe(s);
    hide Inv, Shape, Owned, DiskSafe, SlotVal, Free, NeedsTable, CleanChoice, Map;
    MapFacts(s, d, n, true, mem, mem2);
    MapFrees(s, d, n, true, mem, mem2);
    var (t, r) := Map(s, d, n, true, mem, mem2);
    if r.Ok? {
      NewBlock(t, SlotOf(d, n), r.val);
    }
  }

  lemma GrowMapFacts(s: State, d: nat, mem: bool, mem2: bool)
    requires RunInv(s) && Shape(s) && GrowScope(s, d)
    ensures NewlyMapped(GrowMap(s, d, mem, mem2))
  {
    GrowSized(s, d);
    hide NewlyMapped, Sized, SizeOf, SlotVal, Shape, RunInv, GrowScope, MapScope, Map;
    MapNew(Sized(s, d), d, SizeOf(s, d) / BY2BLK, mem, mem2);
  }

  lemma NewBlock(t: State, k: Slot, b: nat)
    requires Inv(t) && SlotVal(t, k) == b && b != 0
    ensures b < t.nblocks && !Free(t, b)
  {
    assert Held(t, b);
  }

  lemma ResizeInv(s: State, f: nat, size: nat)
    requires Inv(s) && f in s.files && s.files[f].size <= size
    ensures Inv(Resize(s, f, size))
  {
    SetSizeKeeps(s, f, size);
    assert SetSize(s, f, size) == Resize(s, f, size);
    hide Inv, Resize;
  }

  /** A new directory block keeps ownership exactly when nothing that shows in it names a block. */
  lemma GrowExact(s: State, d: nat, isDir: bool, mem: bool, mem2: bool)
    requires RunInv(s) && GrowScope(s, d)
    ensures Owned(Grow(s, d, isDir, mem, mem2), {}) <==> GrowClean(s, d, mem, mem2)
    ensures GrowClean(s, d, mem, mem2) ==> RunInv(Grow(s, d, isDir, mem, mem2))
  {
    GrowMapFacts(s, d, mem, mem2);
    var (t, r) := GrowMap(s, d, mem, mem2);
    hide GrowMap, GrowScope, Inv, Showing, Free, BlankShowing, Owned;
    if r.Ok? {
      var fs := Showing(t.words, r.val, isDir);
      ShowingShape(t.words, r.val, isDir);
      ShowingBlank(t.words, r.val, isDir);
      assert NewFiles(t, fs);
      AddFilesExact(t, fs);
    } else {
      assert Owned(t, {}) by { InvOwned(t); }
    }
  }

  lemma InvOwned(s: State)
    requires Inv(s)
    ensures Owned(s, {})
  {
  }

  // ------------------------------------------------------------------ runs

  /**
   * The requests considered. Clients map and write the blocks of regular files only; a new indirect
   * block, a new directory block and a reused entry must not bring stale block numbers to light; no
   * struct File that holds blocks may be in a block that is freed. Where one of the last four fails,
   * ownership fails: WalkExact, GrowExact, AddFilesExact and LossExact.
   */
  ghost predicate Enabled(s: State, op: Op) {
    match op
    case MapOp(f, n, alloc, _, _) =>
      MapScope(s, f, n, alloc) && (alloc && s.files[f].isDir ==> SlotVal(s, SlotOf(f, n)) != 0)
    case WriteOp(b, data) => DataBlock(s, b, false) && |data| == NINDIRECT
    case ReuseOp(f, entry) =>
      f !in s.files && DataBlock(s, Home(f), true) && |entry.direct| == NDIRECT && BlankEntry(entry)
    case GrowOp(d, isDir, mem, mem2) => Shape(s) && GrowScope(s, d) && GrowClean(s, d, mem, mem2)
    case _ => op.f in s.files && NothingLost(s, op)
  }

  ghost function Next(s: State, op: Op): State
    requires Shape(s) && Enabled(s, op)
  {
    match op
    case MapOp(f, n, alloc, mem, mem2) => Map(s, f, n, alloc, mem, mem2).0
    case WriteOp(b, data) => if b < |s.words| then s.(words := s.words[b := data]) else s
    case ReuseOp(f, entry) => AddFiles(s, map[f := entry])
    case GrowOp(d, isDir, mem, mem2) => Grow(s, d, isDir, mem, mem2)
    case RemoveOp(f) => var t := Sweep(BlockStep(s, op)); t.(files := t.files - {f})
    case _ => Sweep(BlockStep(s, op))
  }

  lemma WriteKeeps(s: State, b: nat, data: seq<nat>)
    requires RunInv(s) && Enabled(s, WriteOp(b, data))
    ensures RunInv(Next(s, WriteOp(b, data)))
  {
    var t := Next(s, WriteOp(b, data));
    var k :| SlotVal(s, k) == b && !k.Indirect?;
    assert Held(s, b);
    forall f ensures SlotVal(s, Indirect(f)) != b {
      assert k != Indirect(f);
    }
    WordsFrame(s, t, b);
    hide SlotVal;
    OwnedFrame(s, t, {});
  }

  lemma ReuseKeeps(s: State, f: nat, entry: File)
    requires RunInv(s) && Enabled(s, ReuseOp(f, entry))
    ensures RunInv(Next(s, ReuseOp(f, entry)))
  {
    var k :| SlotVal(s, k) == Home(f) && !k.Indirect?;
    assert Held(s, Home(f));
    AddFilesExact(s, map[f := entry]);
    hide Inv, SlotVal;
  }

  lemma RemoveKeeps(s: State, f: nat)
    requires RunInv(s) && Enabled(s, RemoveOp(f))
    ensures RunInv(Next(s, RemoveOp(f)))
  {
    LossExact(s, RemoveOp(f));
    RemovedHoldsNone(s, f);
    hide BlockStep, RunInv, Frees, NothingLost, HoldsNone;
    ForgetFile(Sweep(BlockStep(s, RemoveOp(f))), f);
  }

  lemma RemovedHoldsNone(s: State, f: nat)
    requires RunInv(s) && f in s.files
    ensures HoldsNone(Sweep(BlockStep(s, RemoveOp(f))), f)
  {
    BlockStepFacts(s, RemoveOp(f));
    var t := BlockStep(s, RemoveOp(f));
    hide BlockStep, Inv, Homed, Frees;
    forall k: Slot | k.f == f ensures SlotVal(Sweep(t), k) == 0 {
      assert Empties(s, RemoveOp(f), k);
      assert SlotVal(t, k) == 0;
    }
  }

  lemma NextKeeps(s: State, op: Op)
    requires RunInv(s) && Enabled(s, op)
    ensures RunInv(Next(s, op))
  {
    match op
    case MapOp(f, n, alloc, mem, mem2) =>
      MapKeeps(s, f, n, alloc, mem, mem2);
      MapFrees(s, f, n, alloc, mem, mem2);
      hide Map, Inv, MapScope, SlotVal, Free;
    case WriteOp(b, data) => WriteKeeps(s, b, data);
    case ReuseOp(f, entry) => ReuseKeeps(s, f, entry);
    case GrowOp(d, isDir, mem, mem2) => GrowExact(s, d, isDir, mem, mem2);
    case RemoveOp(f) => RemoveKeeps(s, f);
    case _ => LossExact(s, op);
  }

  ghost function Run(s: State, ops: seq<Op>): State
    decreases |ops|
  {
    if ops == [] then s
    else Run(if Shape(s) && Enabled(s, ops[0]) then Next(s, ops[0]) else s, ops[1..])
  }

  /** Block ownership, in every run. */
  lemma {:induction false} RunKeeps(s: State, ops: seq<Op>)
    requires RunInv(s)
    ensures RunInv(Run(s, ops))
    decreases |ops|
  {
    if ops != [] {
      assert Shape(s);
      if Enabled(s, ops[0]) {
        NextKeeps(s, ops[0]);
      }
      hide RunInv, Next, Enabled;
      RunKeeps(if Enabled(s, ops[0]) then Next(s, ops[0]) else s, ops[1..]);
    }
  }

  // ------------------------------------------------------------------ how stale words come about

  /**
   * From every state with a free block and a regular file whose first slot is empty, three requests leave a
   * stale word in the very block that the next allocation will choose: map a block, write it, clear it.
   */
  lemma StaleReachable(s: State, f: nat, data: seq<nat>)
    requires RunInv(s) && f in s.files && !s.files[f].isDir && SlotVal(s, Direct(f, 0)) == 0 && FirstFree(s, 3) < s.nblocks
    requires |data| == NINDIRECT && data[NDIRECT] != 0
    ensures var r := Run(s, [MapOp(f, 0, true, true, true), WriteOp(FirstFree(s, 3), data), ClearOp(f, 0)]);
      RunInv(r) && !CleanChoice(r) && FirstFree(r, 3) == FirstFree(s, 3)
  {
    var b := FirstFree(s, 3);
    var ops := [MapOp(f, 0, true, true, true), WriteOp(b, data), ClearOp(f, 0)];
    StaleSteps(s, f, b, data);
    hide RunInv, Enabled, Shape, Next, CleanChoice, FirstFree, SlotVal;
    var s1 := Next(s, ops[0]);
    var s2 := Next(s1, ops[1]);
    RunStep(s, ops[0], [ops[1]] + ([ops[2]] + []));
    RunStep(s1, ops[1], [ops[2]] + []);
    RunStep(s2, ops[2], []);
    assert ops == [ops[0]] + ([ops[1]] + ([ops[2]] + []));
  }

  lemma StaleSteps(s: State, f: nat, b: nat, data: seq<nat>)
    requires RunInv(s) && f in s.files && !s.files[f].isDir && SlotVal(s, Direct(f, 0)) == 0 && b == FirstFree(s, 3) < s.nblocks
    requires |data| == NINDIRECT && data[NDIRECT] != 0
    ensures Shape(s) && Enabled(s, MapOp(f, 0, true, true, true))
    ensures var s1 := Next(s, MapOp(f, 0, true, true, true));
      && Shape(s1) && Enabled(s1, WriteOp(b, data))
      && var s2 := Next(s1, WriteOp(b, data));
         && Shape(s2) && Enabled(s2, ClearOp(f, 0))
         && var s3 := Next(s2, ClearOp(f, 0)); RunInv(s3) && !CleanChoice(s3) && FirstFree(s3, 3) == b
  {
    InvShape(s);
    hide RunInv, Enabled, SlotVal, FirstBlock, Free, ReadsZero, Shape;
    StaleMapped(s, f);
    var s1 := Next(s, MapOp(f, 0, true, true, true));
    NextKeeps(s, MapOp(f, 0, true, true, true));
    InvShape(s1);
    hide Next;
    StaleWritten(s1, f, b, data);
    var s2 := Next(s1, WriteOp(b, data));
    NextKeeps(s1, WriteOp(b, data));
    InvShape(s2);
    StaleCleared(s2, f, b);
    NextKeeps(s2, ClearOp(f, 0));
    var s3 := Next(s2, ClearOp(f, 0));
    assert forall c :: Free(s3, c) <==> Free(s, c);
    SameFirst(s, s3, 3);
  }

  lemma RunStep(s: State, op: Op, rest: seq<Op>)
    requires Shape(s) && Enabled(s, op)
    ensures Run(s, [op] + rest) == Run(Next(s, op), rest)
  {
    hide Next, Enabled, Shape;
    assert ([op] + rest)[1..] == rest;
  }

  lemma InvShape(s: State)
    requires RunInv(s)
    ensures Shape(s)
  {
  }

  // Block b is the first block of regular file f, cached, and holds no struct File.
  ghost predicate FirstBlock(s: State, f: nat, b: nat) {
    && f in s.files && !s.files[f].isDir && SlotVal(s, Direct(f, 0)) == b && b != 0 && b in s.cached
    && forall g :: g in s.files ==> Home(g) != b
  }

  lemma StaleMapped(s: State, f: nat)
    requires RunInv(s) && f in s.files && !s.files[f].isDir && SlotVal(s, Direct(f, 0)) == 0 && FirstFree(s, 3) < s.nblocks
    ensures Enabled(s, MapOp(f, 0, true, true, true))
    ensures var t := Next(s, MapOp(f, 0, true, true, true)); var b := FirstFree(s, 3);
      t.nblocks == s.nblocks && FirstBlock(t, f, b) && forall c :: Free(t, c) <==> Free(s, c) && c != b
  {
    AllocFacts(s, true);
    var (u, r) := Alloc(s, true);
    assert r == Ok(FirstFree(s, 3)) && r.val in u.cached;
    var t := Map(s, f, 0, true, true, true).0;
    assert t == SetSlot(u, Direct(f, 0), r.val);
    hide Alloc, Owned, AllocDone, Map;
    AllocOnly(s, u, r.val);
    assert SameFree(u, t);
  }

  lemma AllocOnly(s: State, u: State, b: nat)
    requires AllocDone(s, u, b)
    ensures u.files == s.files && u.nblocks == s.nblocks && forall c :: Free(u, c) <==> Free(s, c) && c != b
  {
  }

  lemma StaleWritten(s: State, f: nat, b: nat, data: seq<nat>)
    requires RunInv(s) && FirstBlock(s, f, b) && |data| == NINDIRECT && data[NDIRECT] != 0
    ensures Enabled(s, WriteOp(b, data))
    ensures var t := Next(s, WriteOp(b, data));
      t.nblocks == s.nblocks && FirstBlock(t, f, b) && !ReadsZero(t.words, b) && forall c :: Free(t, c) <==> Free(s, c)
  {
    assert SlotVal(s, Direct(f, 0)) == b && Held(s, b);
    var t := Next(s, WriteOp(b, data));
    assert Word(t.words, b, NDIRECT) == data[NDIRECT];
  }

  lemma StaleCleared(s: State, f: nat, b: nat)
    requires RunInv(s) && FirstBlock(s, f, b) && !ReadsZero(s.words, b)
    ensures Enabled(s, ClearOp(f, 0))
    ensures var t := Next(s, ClearOp(f, 0));
      && t.nblocks == s.nblocks && (forall c :: Free(t, c) <==> Free(s, c) || c == b)
      && b in t.cached && !ReadsZero(t.words, b)
  {
    ClearFacts(s, f, 0);
    var t := Clear(s, f, 0);
    assert t.words == s.words && t.cached == s.cached;
    hide ReadsZero, Inv, SlotVal, Free, Clear;
    assert Empties(s, ClearOp(f, 0), Direct(f, 0));
    assert forall c :: Frees(s, ClearOp(f, 0), c) ==> c == b;
  }
}
