/** Who owns which block of the disk, over every run of the block operations of fs/fs.c. */
module FileOwnership {
  import opened Bitmap
  import opened FileBlocks

  // In use: not reserved, and not free in the bitmap.
  predicate Held(s: State, b: nat) { Reserved(s.nblocks) <= b < s.nblocks && !Free(s, b) }

  ghost predicate Referenced(s: State, b: nat) { exists k :: SlotVal(s, k) == b }

  /**
   * Every block is free, reserved, or referenced by exactly one slot; blocks in x are allocated and
   * not stored in a slot yet.
   */
  ghost predicate Owned(s: State, x: set<nat>) {
    && (forall k :: SlotVal(s, k) != 0 ==> Held(s, SlotVal(s, k)) && SlotVal(s, k) !in x)
    && (forall k, l :: SlotVal(s, k) != 0 && SlotVal(s, k) == SlotVal(s, l) ==> k == l)
    && (forall b :: b in x ==> Held(s, b))
    && (forall b :: Held(s, b) && b !in x ==> Referenced(s, b))
    && (forall b: nat :: b < Reserved(s.nblocks) ==> !Free(s, b))
  }

  function SizeOf(s: State, f: nat): nat { if f in s.files then s.files[f].size else 0 }

  // No slot beyond f_size / BY2BLK is in use.
  ghost predicate Bounded(s: State) {
    forall k :: SlotVal(s, k) != 0 && !k.Indirect? ==> k.i <= SizeOf(s, k.f) / BY2BLK
  }

  // A block that the disk's copy of the bitmap calls free is free.
  ghost predicate DiskSafe(s: State) {
    forall b: nat :: Get(s.disk, b) ==> Get(s.bitmap, b)
  }

  ghost predicate Inv(s: State) {
    Shape(s) && Owned(s, {}) && Bounded(s) && DiskSafe(s)
  }

  // ------------------------------------------------------------------ changes of ownership

  ghost predicate SameFree(s: State, t: State) {
    s.nblocks == t.nblocks && forall b :: Free(t, b) <==> Free(s, b)
  }

  ghost predicate SameSlots(s: State, t: State) {
    forall k :: SlotVal(t, k) == SlotVal(s, k)
  }

  // Only slot k changes, to v.
  ghost predicate OneSlot(s: State, t: State, k: Slot, v: nat) {
    SlotVal(t, k) == v && forall l :: l != k ==> SlotVal(t, l) == SlotVal(s, l)
  }

  lemma OwnedFrame(s: State, t: State, x: set<nat>)
    requires Owned(s, x) && SameFree(s, t) && SameSlots(s, t)
    ensures Owned(t, x)
  {
    hide SlotVal, Free;
    forall b | Held(t, b) && b !in x ensures Referenced(t, b) {
      assert Held(s, b);
      var k :| SlotVal(s, k) == b;
      assert SlotVal(t, k) == b;
    }
  }

  lemma TakeOwned(s: State, t: State, x: set<nat>, b: nat)
    requires Owned(s, x) && Free(s, b) && b < s.nblocks && SameSlots(s, t) && t.nblocks == s.nblocks
    requires forall c :: Free(t, c) <==> Free(s, c) && c != b
    ensures Owned(t, x + {b})
  {
    hide SlotVal, Free;
    forall c | Held(t, c) && c !in x + {b} ensures Referenced(t, c) {
      assert Held(s, c);
      var k :| SlotVal(s, k) == c;
      assert SlotVal(t, k) == c;
    }
    assert !Held(s, b);
  }

  lemma StoreOwned(s: State, t: State, x: set<nat>, k: Slot, b: nat)
    requires Owned(s, x + {b}) && b !in x && SlotVal(s, k) == 0 && OneSlot(s, t, k, b) && SameFree(s, t)
    ensures Owned(t, x)
  {
    hide SlotVal, Free;
    forall c | Held(t, c) && c !in x ensures Referenced(t, c) {
      assert Held(s, c);
      if c != b {
        var l :| SlotVal(s, l) == c;
        assert SlotVal(t, l) == c;
      }
      assert SlotVal(t, k) == b;
    }
    forall l | SlotVal(t, l) != 0 ensures Held(t, SlotVal(t, l)) {
      assert Held(s, SlotVal(t, l));
    }
    forall l, m | SlotVal(t, l) != 0 && SlotVal(t, l) == SlotVal(t, m) ensures l == m {
    }
  }

  lemma EraseOwned(s: State, t: State, k: Slot)
    requires Owned(s, {}) && SlotVal(s, k) != 0 && OneSlot(s, t, k, 0) && t.nblocks == s.nblocks
    requires forall c :: Free(t, c) <==> Free(s, c) || c == SlotVal(s, k)
    ensures Owned(t, {})
  {
    hide SlotVal, Free;
    forall c | Held(t, c) ensures Referenced(t, c) {
      assert Held(s, c);
      var l :| SlotVal(s, l) == c;
      assert l != k;
      assert SlotVal(t, l) == c;
    }
    forall l | SlotVal(t, l) != 0 ensures Held(t, SlotVal(t, l)) {
      assert Held(s, SlotVal(s, l));
    }
    forall l, m | SlotVal(t, l) != 0 && SlotVal(t, l) == SlotVal(t, m) ensures l == m {
    }
    assert Held(s, SlotVal(s, k));
  }

  // ------------------------------------------------------------------ allocation

  // What block b reads as once it is mapped by alloc_block.
  function FreshWords(s: State, b: nat): seq<nat>
    requires b < |s.words|
  {
    if b in s.cached then s.words[b] else Zeros()
  }

  ghost predicate AllocDone(s: State, t: State, b: nat) {
    && 3 <= b < s.nblocks && Free(s, b) && (forall c :: 3 <= c < b ==> !Free(s, c))
    && t.nblocks == s.nblocks && t.files == s.files && SameSlots(s, t)
    && (forall c :: Free(t, c) <==> Free(s, c) && c != b)
    && (b < |s.words| ==> t.words == s.words[b := FreshWords(s, b)])
    && (forall c: nat :: c / BIT2BLK == b / BIT2BLK ==> Get(t.disk, c) == Get(t.bitmap, c))
    && Owned(t, {b})
  }

  ghost predicate AllocFailed(s: State, t: State, mem: bool, e: Error) {
    && SameFree(s, t) && SameSlots(s, t) && t.files == s.files && t.words == s.words
    && (if forall b: nat :: 3 <= b < s.nblocks ==> !Free(s, b) then e == NoDisk else e == NoMem && !mem)
  }

  // A block that is not an indirect block can change without changing a slot.
  lemma WordsFrame(s: State, t: State, b: nat)
    requires b < |s.words| == |t.words| && t.files == s.files
    requires forall c :: 0 <= c < |s.words| && c != b ==> t.words[c] == s.words[c]
    requires forall f :: SlotVal(s, Indirect(f)) == 0 || SlotVal(s, Indirect(f)) != b
    ensures SameSlots(s, t)
  {
    forall k ensures SlotVal(t, k) == SlotVal(s, k) {
      assert SlotVal(s, Indirect(k.f)) == 0 || SlotVal(s, Indirect(k.f)) != b;
    }
  }

  lemma TakeFacts(s: State, b: nat)
    requires Shape(s) && b < s.nblocks && DiskSafe(s)
    ensures var t := Take(s, b); forall c :: Free(t, c) <==> Free(s, c) && c != b
    ensures DiskSafe(Take(s, b))
    ensures var t := Take(s, b); forall c: nat :: c / BIT2BLK == b / BIT2BLK ==> Get(t.disk, c) == Get(t.bitmap, c)
  {
    hide Get;
  }

  lemma AllocFacts(s: State, mem: bool)
    requires Shape(s) && Owned(s, {}) && DiskSafe(s)
    ensures var (t, r) := Alloc(s, mem);
      && Shape(t) && DiskSafe(t)
      && (r.Ok? ==> AllocDone(s, t, r.val) && r.val == FirstFree(s, 3))
      && (r.Err? ==> AllocFailed(s, t, mem, r.error) && Owned(t, {}))
  {
    var b := FirstFree(s, 3);
    AllocShape(s, mem);
    if b < s.nblocks {
      TakeFacts(s, b);
      var (t, r) := Alloc(s, mem);
      assert forall f :: SlotVal(s, Indirect(f)) != 0 ==> Held(s, SlotVal(s, Indirect(f)));
      WordsFrame(s, t, b);
      hide SlotVal, Get, Word;
      if r.Ok? {
        TakeOwned(s, t, {}, b);
        assert {} + {b} == {b};
      } else {
        OwnedFrame(s, t, {});
      }
    }
  }

  // ------------------------------------------------------------------ writing a slot

  lemma SetDirect(s: State, f: nat, i: nat, v: nat)
    requires f in s.files && i < |s.files[f].direct|
    ensures OneSlot(s, SetSlot(s, Direct(f, i), v), Direct(f, i), v)
  {
  }

  lemma SetEntry(s: State, f: nat, i: nat, v: nat)
    requires Shape(s) && f in s.files && 0 < s.files[f].indirect < s.nblocks && NDIRECT <= i < NINDIRECT
    requires forall g :: g != f ==> SlotVal(s, Indirect(g)) != s.files[f].indirect
    ensures OneSlot(s, SetSlot(s, Entry(f, i), v), Entry(f, i), v)
  {
    var t := SetSlot(s, Entry(f, i), v);
    forall l | l != Entry(f, i) ensures SlotVal(t, l) == SlotVal(s, l) {
      assert l.f != f ==> SlotVal(s, Indirect(l.f)) != s.files[f].indirect;
    }
  }

  // Words NDIRECT.. of a block are zero, so that as an indirect block it holds no entries.
  ghost predicate ReadsZero(words: seq<seq<nat>>, b: nat) {
    forall i :: NDIRECT <= i < NINDIRECT ==> Word(words, b, i) == 0
  }

  lemma SetIndirect(s: State, f: nat, v: nat)
    requires f in s.files
    requires forall i :: SlotVal(s, Entry(f, i)) == 0
    requires v != 0 ==> ReadsZero(s.words, v)
    ensures OneSlot(s, SetSlot(s, Indirect(f), v), Indirect(f), v)
  {
    var t := SetSlot(s, Indirect(f), v);
    forall l | l != Indirect(f) ensures SlotVal(t, l) == SlotVal(s, l) {
      assert l.Entry? && l.f == f ==> SlotVal(s, Entry(f, l.i)) == 0;
    }
  }

  // Distinct files have distinct indirect blocks.
  lemma IndirectApart(s: State, f: nat)
    requires Owned(s, {}) && f in s.files && s.files[f].indirect != 0
    ensures 0 < s.files[f].indirect < s.nblocks && Held(s, s.files[f].indirect)
    ensures forall g :: g != f ==> SlotVal(s, Indirect(g)) != s.files[f].indirect
  {
    assert SlotVal(s, Indirect(f)) == s.files[f].indirect;
  }

  lemma SetEntryOf(s: State, f: nat, n: nat, v: nat)
    requires Shape(s) && f in s.files && n < NINDIRECT
    requires n >= NDIRECT ==> 0 < s.files[f].indirect < s.nblocks
    requires n >= NDIRECT ==> forall g :: g != f ==> SlotVal(s, Indirect(g)) != s.files[f].indirect
    ensures OneSlot(s, SetSlot(s, SlotOf(f, n), v), SlotOf(f, n), v)
  {
    hide OneSlot, SetSlot, SlotVal;
    if n < NDIRECT {
      SetDirect(s, f, n, v);
    } else {
      SetEntry(s, f, n, v);
    }
  }

  // ------------------------------------------------------------------ file_block_walk

  // The walk has to allocate an indirect block.
  predicate NeedsTable(s: State, f: nat, n: nat, alloc: bool) {
    alloc && NDIRECT <= n < NINDIRECT && f in s.files && s.files[f].indirect == 0
  }

  // The block that alloc_block would choose holds no stale words in the cache.
  ghost predicate CleanChoice(s: State) {
    var b := FirstFree(s, 3);
    b in s.cached ==> ReadsZero(s.words, b)
  }

  lemma FreshReads(s: State, t: State, b: nat)
    requires Shape(s) && AllocDone(s, t, b) && b == FirstFree(s, 3)
    ensures ReadsZero(t.words, b) <==> CleanChoice(s)
  {
    hide Free, Get, SlotVal, Owned;
    var row := t.words[b];
    assert row == FreshWords(s, b);
    assert forall i :: NDIRECT <= i < NINDIRECT ==> Word(t.words, b, i) == row[i];
    if b in s.cached {
      assert forall i :: NDIRECT <= i < NINDIRECT ==> Word(s.words, b, i) == row[i];
    }
  }

  lemma InstallTable(s: State, a: State, f: nat, b: nat)
    requires Shape(s) && f in s.files && s.files[f].indirect == 0
    requires AllocDone(s, a, b) && b == FirstFree(s, 3) && CleanChoice(s)
    ensures var t := SetSlot(a, Indirect(f), b); Owned(t, {}) && OneSlot(s, t, Indirect(f), b)
  {
    var t := SetSlot(a, Indirect(f), b);
    FreshReads(s, a, b);
    assert forall i :: SlotVal(a, Entry(f, i)) == 0;
    SetIndirect(a, f, b);
    assert SlotVal(a, Indirect(f)) == 0;
    assert SameFree(a, t);
    hide SlotVal, Owned, Free, CleanChoice, ReadsZero, FirstFree;
    assert {} + {b} == {b};
    StoreOwned(a, t, {}, Indirect(f), b);
  }

  ghost predicate WalkAnswer(s: State, f: nat, n: nat, alloc: bool, r: Ret<Slot>) {
    match r
    case Ok(k) => k == SlotOf(f, n) && n < NINDIRECT
    case Err(e) => SlotVal(s, SlotOf(f, n)) == 0
                   && (e == Inval <==> n >= NINDIRECT) && (e == NotFound <==> n < NINDIRECT && !alloc)
  }

  // No slot changes but the indirect one, and that only if there was none; no block becomes free.
  ghost predicate WalkChange(s: State, t: State, f: nat) {
    && (forall l :: l != Indirect(f) || SlotVal(s, l) != 0 ==> SlotVal(t, l) == SlotVal(s, l))
    && (forall g :: SizeOf(t, g) == SizeOf(s, g))
    && (forall b :: Free(t, b) ==> Free(s, b))
  }

  lemma WalkTable(s: State, f: nat, n: nat, mem: bool)
    requires Shape(s) && Owned(s, {}) && DiskSafe(s) && NeedsTable(s, f, n, true) && CleanChoice(s)
    ensures var (t, r) := Walk(s, f, n, true, mem);
      && Owned(t, {}) && DiskSafe(t) && WalkChange(s, t, f) && WalkAnswer(s, f, n, true, r)
      && (r.Ok? ==> f in t.files && t.files[f].indirect != 0)
  {
    var (t, r) := Walk(s, f, n, true, mem);
    AllocFacts(s, mem);
    assert SlotVal(s, Indirect(f)) == 0 == SlotVal(s, Entry(f, n));
    var (a, q) := Alloc(s, mem);
    if q.Ok? {
      var u := SetSlot(a, Indirect(f), q.val);
      hide Owned, Alloc, CleanChoice, FirstFree;
      InstallTable(s, a, f, q.val);
      assert SameSlots(u, t) && SameFree(u, t) && SameFree(a, t);
      hide SlotVal, Free, Word, Get;
      OwnedFrame(u, t, {});
    }
  }

  lemma WalkKeeps(s: State, f: nat, n: nat, alloc: bool, mem: bool)
    requires Shape(s) && Owned(s, {}) && DiskSafe(s) && f in s.files
    requires NeedsTable(s, f, n, alloc) ==> CleanChoice(s)
    ensures var (t, r) := Walk(s, f, n, alloc, mem);
      && Owned(t, {}) && DiskSafe(t) && WalkChange(s, t, f) && WalkAnswer(s, f, n, alloc, r)
      && (r.Ok? && n >= NDIRECT ==> f in t.files && t.files[f].indirect != 0)
  {
    var t := Walk(s, f, n, alloc, mem).0;
    if NeedsTable(s, f, n, alloc) {
      WalkTable(s, f, n, mem);
    } else {
      assert SameSlots(s, t) && SameFree(s, t);
      hide Owned;
      OwnedFrame(s, t, {});
    }
  }

  /**
   * alloc_block gives a zero page only for a block that is not cached, and free_block leaves the
   * cache alone. A new indirect block keeps ownership exactly when the chosen block reads as zero.
   */
  lemma WalkExact(s: State, f: nat, n: nat, mem: bool)
    requires Shape(s) && Owned(s, {}) && DiskSafe(s) && NeedsTable(s, f, n, true)
    requires Walk(s, f, n, true, mem).1.Ok?
    ensures Owned(Walk(s, f, n, true, mem).0, {}) <==> CleanChoice(s)
  {
    var t := Walk(s, f, n, true, mem).0;
    if CleanChoice(s) {
      WalkKeeps(s, f, n, true, mem);
    } else {
      AllocFacts(s, mem);
      var (a, q) := Alloc(s, mem);
      FreshReads(s, a, q.val);
      var i :| NDIRECT <= i < NINDIRECT && Word(a.words, q.val, i) != 0;
      StaleEntry(s, a, t, f, q.val, i);
    }
  }

  lemma StaleEntry(s: State, a: State, t: State, f: nat, b: nat, i: nat)
    requires Owned(s, {}) && AllocDone(s, a, b) && f in s.files && s.files[f].indirect == 0
    requires t == ReadCache(SetSlot(a, Indirect(f), b), b)
    requires NDIRECT <= i < NINDIRECT && Word(a.words, b, i) != 0
    ensures !Owned(t, {})
  {
    var v := SlotVal(t, Entry(f, i));
    assert v != 0 && SlotVal(t, Indirect(f)) == b;
    if Held(s, v) {
      // the stale word names a block that another slot refers to
      var l :| SlotVal(s, l) == v;
      assert SlotVal(a, l) == v;
      assert SlotVal(t, l) == v && l != Entry(f, i);
    }
  }

  // A disk of five blocks, the last two free, with a stale word left in the cached block 3.
  function StaleDisk(): State {
    State(5, seq(1024, i => Fill(false)[3 := true][4 := true]), seq(1024, i => Fill(false)), {0, 1, 2, 3},
          [Zeros(), Zeros(), Zeros(), Zeros()[10 := 4], Zeros()], map[1 := File(40960, seq(NDIRECT, i => 0), 0, false)])
  }

  lemma StaleDiskBreaks()
    ensures Inv(StaleDisk())
    ensures !Owned(Walk(StaleDisk(), 1, 10, true, true).0, {})
  {
    var s := StaleDisk();
    assert forall b :: 0 <= b < |s.words| ==> |s.words[b]| == NINDIRECT;
    assert Shape(s);
    assert forall k :: SlotVal(s, k) == 0;
    assert forall b: nat :: b < 32 ==> Get(s.bitmap, b) == (b == 3 || b == 4);
    assert forall b: nat :: Free(s, b) <==> b == 3 || b == 4;
    assert Free(s, 3);
    assert FirstFree(s, 3) == 3;
    assert s.words[3] == Zeros()[10 := 4];
    assert Word(s.words, 3, 10) == 4;
    assert !CleanChoice(s);
    WalkExact(s, 1, 10, true);
  }

  // ------------------------------------------------------------------ file_map_block

  ghost predicate SameSizes(s: State, t: State) { forall f :: SizeOf(t, f) == SizeOf(s, f) }

  // The answer, and what became of the slot.
  ghost predicate MapAnswer(s: State, t: State, k: Slot, n: nat, alloc: bool, r: Ret<nat>) {
    var was := SlotVal(s, k);
    match r
    case Ok(b) => n < NINDIRECT && b != 0 && SlotVal(t, k) == b && (if was != 0 then b == was else alloc && Free(s, b))
    case Err(e) => was == 0 && SlotVal(t, k) == 0
                   && (e == Inval <==> n >= NINDIRECT) && (e == NotFound <==> n < NINDIRECT && !alloc)
  }

  // Writing a data slot changes neither the bitmap nor a size.
  lemma SetSlotRest(s: State, f: nat, n: nat, v: nat)
    requires Shape(s) && f in s.files
    ensures var t := SetSlot(s, SlotOf(f, n), v);
      Shape(t) && SameFree(s, t) && t.bitmap == s.bitmap && t.disk == s.disk && SameSizes(s, t) && t.files.Keys == s.files.Keys
  {
  }

  lemma StoreFresh(s: State, f: nat, n: nat, mem: bool)
    requires Shape(s) && Owned(s, {}) && DiskSafe(s) && f in s.files && n < NINDIRECT
    requires n >= NDIRECT ==> s.files[f].indirect != 0
    requires SlotVal(s, SlotOf(f, n)) == 0 && Alloc(s, mem).1.Ok?
    ensures var (u, r) := Alloc(s, mem);
      && f in u.files && Free(s, r.val) && r.val != 0
      && var t := SetSlot(u, SlotOf(f, n), r.val);
         Shape(t) && Owned(t, {}) && DiskSafe(t) && OneSlot(s, t, SlotOf(f, n), r.val) && SameSizes(s, t)
  {
    AllocFacts(s, mem);
    var (u, r) := Alloc(s, mem);
    AllocShape(s, mem);
    if n >= NDIRECT {
      IndirectApart(s, f);
      assert forall g :: SlotVal(u, Indirect(g)) == SlotVal(s, Indirect(g));
    }
    hide Alloc;
    var t := SetSlot(u, SlotOf(f, n), r.val);
    SetEntryOf(u, f, n, r.val);
    assert SlotVal(u, SlotOf(f, n)) == 0;
    hide SlotVal, SetSlot, Free, Get, Word;
    SetSlotRest(u, f, n, r.val);
    assert {} + {r.val} == {r.val};
    StoreOwned(u, t, {}, SlotOf(f, n), r.val);
  }

  lemma FillFacts(s: State, f: nat, n: nat, alloc: bool, mem: bool)
    requires Shape(s) && Owned(s, {}) && DiskSafe(s) && f in s.files && n < NINDIRECT
    requires n >= NDIRECT ==> s.files[f].indirect != 0
    ensures var (t, r) := FillSlot(s, SlotOf(f, n), alloc, mem);
      && Shape(t) && Owned(t, {}) && DiskSafe(t) && SameSizes(s, t)
      && (forall l :: l != SlotOf(f, n) ==> SlotVal(t, l) == SlotVal(s, l))
      && MapAnswer(s, t, SlotOf(f, n), n, alloc, r)
  {
    if SlotVal(s, SlotOf(f, n)) == 0 && alloc {
      hide Owned, SlotVal, Free, Alloc;
      AllocFacts(s, mem);
      if Alloc(s, mem).1.Ok? {
        StoreFresh(s, f, n, mem);
      }
    }
  }

  /**
   * file_map_block keeps ownership. It answers with the block of the slot, or puts a free block
   * there; no other slot changes, except that a first indirect block may come in.
   */
  lemma MapFacts(s: State, f: nat, n: nat, alloc: bool, mem: bool, mem2: bool)
    requires Shape(s) && Owned(s, {}) && DiskSafe(s) && f in s.files
    requires NeedsTable(s, f, n, alloc) ==> CleanChoice(s)
    ensures var (t, r) := Map(s, f, n, alloc, mem, mem2);
      && Shape(t) && Owned(t, {}) && DiskSafe(t) && SameSizes(s, t)
      && (forall l :: l != SlotOf(f, n) && (l != Indirect(f) || SlotVal(s, l) != 0) ==> SlotVal(t, l) == SlotVal(s, l))
      && MapAnswer(s, t, SlotOf(f, n), n, alloc, r)
  {
    WalkShape(s, f, n, alloc, mem);
    WalkKeeps(s, f, n, alloc, mem);
    var (w, q) := Walk(s, f, n, alloc, mem);
    hide Owned, FillSlot, Walk, SlotVal, Free, Shape;
    if q.Ok? {
      FillFacts(w, f, n, alloc, mem2);
    }
  }

  // ------------------------------------------------------------------ file_clear_block

  lemma EraseFacts(s: State, f: nat, n: nat)
    requires Shape(s) && Owned(s, {}) && DiskSafe(s) && f in s.files && n < NINDIRECT
    requires n >= NDIRECT ==> s.files[f].indirect != 0
    requires SlotVal(s, SlotOf(f, n)) != 0
    ensures var v := SlotVal(s, SlotOf(f, n)); var t := SetSlot(Release(s, v), SlotOf(f, n), 0);
      && Shape(t) && Owned(t, {}) && DiskSafe(t) && SameSizes(s, t) && OneSlot(s, t, SlotOf(f, n), 0)
      && (forall c :: Free(t, c) <==> Free(s, c) || c == v)
  {
    var k := SlotOf(f, n);
    var v := SlotVal(s, k);
    var u := Release(s, v);
    assert Held(s, v);
    assert SameSlots(s, u);
    if n >= NDIRECT {
      IndirectApart(s, f);
      assert forall g :: SlotVal(u, Indirect(g)) == SlotVal(s, Indirect(g));
    }
    var t := SetSlot(u, k, 0);
    hide SlotVal, SetSlot, Word;
    SetEntryOf(u, f, n, 0);
    SetSlotRest(u, f, n, 0);
    assert OneSlot(s, t, k, 0);
    hide Get;
    EraseOwned(s, t, k);
  }

  lemma ClearFacts(s: State, f: nat, n: nat)
    requires Shape(s) && Owned(s, {}) && DiskSafe(s) && f in s.files
    ensures var t := Clear(s, f, n); var v := SlotVal(s, SlotOf(f, n));
      && Shape(t) && Owned(t, {}) && DiskSafe(t) && SameSizes(s, t) && OneSlot(s, t, SlotOf(f, n), 0)
      && (forall c :: Free(t, c) <==> Free(s, c) || (c == v && v != 0))
      && t.nblocks == s.nblocks && t.files.Keys == s.files.Keys
  {
    var (w, q) := Walk(s, f, n, false, false);
    WalkShape(s, f, n, false, false);
    WalkKeeps(s, f, n, false, false);
    assert SameSlots(s, w) && SameFree(s, w) && SameSizes(s, w);
    if q.Ok? {
      if SlotVal(w, q.val) != 0 {
        hide Owned, SlotVal, SetSlot, Walk, Get;
        EraseFacts(w, f, n);
        assert Clear(s, f, n) == SetSlot(Release(w, SlotVal(w, q.val)), q.val, 0);
      }
    }
  }

  // ------------------------------------------------------------------ file_truncate

  // Slot k is one of f's data slots with an index in lo..hi.
  predicate Within(k: Slot, f: nat, lo: nat, hi: nat) {
    k.f == f && !k.Indirect? && lo <= k.i < hi
  }

  ghost predicate HeldWithin(s: State, f: nat, lo: nat, hi: nat, b: nat) {
    b != 0 && exists k :: Within(k, f, lo, hi) && SlotVal(s, k) == b
  }

  ghost predicate ClearedFrom(s: State, t: State, f: nat, lo: nat, hi: nat) {
    && (forall k :: SlotVal(t, k) == if Within(k, f, lo, hi) then 0 else SlotVal(s, k))
    && (forall b :: Free(t, b) <==> Free(s, b) || HeldWithin(s, f, lo, hi, b))
    && SameSizes(s, t)
  }

  lemma {:induction false} ClearFromFacts(s: State, f: nat, lo: nat, hi: nat)
    requires Shape(s) && Owned(s, {}) && DiskSafe(s) && f in s.files
    ensures var t := ClearFrom(s, f, lo, hi); Shape(t) && Owned(t, {}) && DiskSafe(t) && ClearedFrom(s, t, f, lo, hi)
    decreases hi - lo
  {
    if lo < hi {
      var m := Clear(s, f, lo);
      ClearFacts(s, f, lo);
      ClearFromFacts(m, f, lo + 1, hi);
      var t := ClearFrom(s, f, lo, hi);
      assert t == ClearFrom(m, f, lo + 1, hi);
      hide ClearFrom, Clear, Owned, Shape, DiskSafe;
      ClearedStep(s, m, t, f, lo, hi);
    }
  }

  lemma OtherIndex(s: State, k: Slot, f: nat, n: nat)
    requires Shape(s) && k.f == f && !k.Indirect? && k.i == n && k != SlotOf(f, n)
    ensures SlotVal(s, k) == 0
  {
  }

  lemma ClearedStep(s: State, m: State, t: State, f: nat, lo: nat, hi: nat)
    requires lo < hi && ClearedFrom(m, t, f, lo + 1, hi) && Shape(s) && SameSizes(s, m)
    requires OneSlot(s, m, SlotOf(f, lo), 0)
    requires forall b :: Free(m, b) <==> Free(s, b) || (b == SlotVal(s, SlotOf(f, lo)) && b != 0)
    ensures ClearedFrom(s, t, f, lo, hi)
  {
    hide Free;
    forall k ensures SlotVal(t, k) == if Within(k, f, lo, hi) then 0 else SlotVal(s, k) {
      if Within(k, f, lo, lo + 1) && k != SlotOf(f, lo) {
        OtherIndex(s, k, f, lo);
      }
    }
    hide SlotVal;
    forall b ensures Free(t, b) <==> Free(s, b) || HeldWithin(s, f, lo, hi, b) {
      if HeldWithin(s, f, lo, hi, b) {
        var k :| Within(k, f, lo, hi) && SlotVal(s, k) == b;
        if k != SlotOf(f, lo) {
          if k.i == lo {
            OtherIndex(s, k, f, lo);
          } else {
            assert Within(k, f, lo + 1, hi) && SlotVal(m, k) == b;
          }
        }
      }
      if HeldWithin(m, f, lo + 1, hi, b) {
        var k :| Within(k, f, lo + 1, hi) && SlotVal(m, k) == b;
        assert Within(k, f, lo, hi) && SlotVal(s, k) == b;
      }
      if b != 0 && b == SlotVal(s, SlotOf(f, lo)) {
        assert Within(SlotOf(f, lo), f, lo, hi);
      }
    }
  }

  // The slots that truncation to kept blocks empties.
  predicate Goes(k: Slot, f: nat, kept: nat) {
    k.f == f && if k.Indirect? then kept <= NDIRECT else k.i >= kept
  }

  ghost predicate GivenBack(s: State, f: nat, kept: nat, b: nat) {
    b != 0 && exists k :: Goes(k, f, kept) && SlotVal(s, k) == b
  }

  ghost predicate Truncated(s: State, t: State, f: nat, size: nat) {
    var kept := KeptBlocks(size);
    && (forall k :: SlotVal(t, k) == if Goes(k, f, kept) then 0 else SlotVal(s, k))
    && (forall b :: Free(t, b) <==> Free(s, b) || GivenBack(s, f, kept, b))
    && (forall g :: SizeOf(t, g) == if g == f then size else SizeOf(s, g))
    && t.nblocks == s.nblocks && t.files.Keys == s.files.Keys
  }

  ghost predicate TableDropped(s: State, t: State, f: nat, kept: nat) {
    var v := SlotVal(s, Indirect(f));
    && (forall l :: SlotVal(t, l) == if l == Indirect(f) && kept <= NDIRECT then 0 else SlotVal(s, l))
    && (forall b :: Free(t, b) <==> Free(s, b) || (kept <= NDIRECT && b != 0 && b == v))
  }

  lemma DropTableFacts(s: State, f: nat, kept: nat)
    requires Shape(s) && Owned(s, {}) && DiskSafe(s) && f in s.files
    requires kept <= NDIRECT ==> forall i :: SlotVal(s, Entry(f, i)) == 0
    ensures var t := DropTable(s, f, kept);
      && Shape(t) && Owned(t, {}) && DiskSafe(t) && SameSizes(s, t) && t.nblocks == s.nblocks && t.files.Keys == s.files.Keys
      && TableDropped(s, t, f, kept)
  {
    var t := DropTable(s, f, kept);
    var v := s.files[f].indirect;
    assert SlotVal(s, Indirect(f)) == v;
    if kept <= NDIRECT && v != 0 {
      var u := Release(s, v);
      assert Held(s, v);
      assert SameSlots(s, u);
      assert forall i :: SlotVal(u, Entry(f, i)) == SlotVal(s, Entry(f, i));
      SetIndirect(u, f, 0);
      hide SlotVal, Word;
      assert OneSlot(s, t, Indirect(f), 0);
      hide Get;
      EraseOwned(s, t, Indirect(f));
    }
  }

  // The blocks cleared in the loop, and the indirect block if at most NDIRECT blocks stay.
  lemma TruncateSlots(s: State, c: State, u: State, f: nat, size: nat)
    requires Shape(s) && Bounded(s) && f in s.files
    requires ClearedFrom(s, c, f, KeptBlocks(size), SizeOf(s, f) / BY2BLK + 1)
    requires TableDropped(c, u, f, KeptBlocks(size))
    ensures var kept := KeptBlocks(size);
      && (forall k :: SlotVal(u, k) == if Goes(k, f, kept) then 0 else SlotVal(s, k))
      && (forall b :: Free(u, b) <==> Free(s, b) || GivenBack(s, f, kept, b))
  {
    hide SlotVal, Free;
    var kept, hi := KeptBlocks(size), SizeOf(s, f) / BY2BLK + 1;
    assert forall k :: Goes(k, f, kept) && !k.Indirect? && SlotVal(s, k) != 0 ==> Within(k, f, kept, hi);
    assert forall k :: Within(k, f, kept, hi) ==> Goes(k, f, kept);
    forall b ensures Free(u, b) <==> Free(s, b) || GivenBack(s, f, kept, b) {
      if GivenBack(s, f, kept, b) {
        var k :| Goes(k, f, kept) && SlotVal(s, k) == b;
        assert k == Indirect(f) || Within(k, f, kept, hi);
      }
      if HeldWithin(s, f, kept, hi, b) {
        var k :| Within(k, f, kept, hi) && SlotVal(s, k) == b;
        assert Goes(k, f, kept);
      }
      assert kept <= NDIRECT ==> Goes(Indirect(f), f, kept);
    }
  }

  // Giving a file its new size leaves the slots alone.
  lemma ResizeFacts(s: State, f: nat, size: nat)
    requires Shape(s) && f in s.files
    ensures var t := Resize(s, f, size);
      && Shape(t) && SameSlots(s, t) && SameFree(s, t) && t.disk == s.disk && t.bitmap == s.bitmap
      && (forall g :: SizeOf(t, g) == if g == f then size else SizeOf(s, g))
      && t.files.Keys == s.files.Keys
  {
  }

  // With the clearing done, f has no entry left in its indirect block.
  lemma EntriesGone(s: State, c: State, f: nat, kept: nat)
    requires Bounded(s) && ClearedFrom(s, c, f, kept, SizeOf(s, f) / BY2BLK + 1) && kept <= NDIRECT
    ensures forall i :: SlotVal(c, Entry(f, i)) == 0
  {
  }

  lemma TruncatedBounded(s: State, t: State, f: nat, size: nat)
    requires Bounded(s) && Truncated(s, t, f, size)
    ensures Bounded(t)
  {
    hide SlotVal, Free, SizeOf;
    forall k | SlotVal(t, k) != 0 && !k.Indirect? ensures k.i <= SizeOf(t, k.f) / BY2BLK {
      assert !Goes(k, f, KeptBlocks(size)) && SlotVal(s, k) != 0;
    }
  }

  lemma TruncateEnd(s: State, c: State, u: State, f: nat, size: nat)
    requires Shape(s) && Bounded(s) && f in s.files
    requires ClearedFrom(s, c, f, KeptBlocks(size), SizeOf(s, f) / BY2BLK + 1)
    requires TableDropped(c, u, f, KeptBlocks(size)) && SameSizes(c, u)
    requires Shape(u) && Owned(u, {}) && DiskSafe(u) && u.nblocks == s.nblocks && u.files.Keys == s.files.Keys
    ensures var t := Resize(u, f, size); Inv(t) && Truncated(s, t, f, size)
  {
    hide SlotVal, Free, Resize, Get, Shape, SizeOf;
    ResizeFacts(u, f, size);
    var t := Resize(u, f, size);
    OwnedFrame(u, t, {});
    hide Owned;
    TruncateSlots(s, c, u, f, size);
    hide TableDropped;
    assert Truncated(s, t, f, size);
    TruncatedBounded(s, t, f, size);
  }

  lemma TruncateParts(s: State, c: State, f: nat, size: nat, hi: nat)
    requires Shape(s) && Owned(s, {}) && DiskSafe(s) && Bounded(s) && f in s.files && hi == SizeOf(s, f) / BY2BLK + 1
    requires c == ClearFrom(s, f, KeptBlocks(size), hi)
    ensures Shape(c) && f in c.files
    ensures var t := Resize(DropTable(c, f, KeptBlocks(size)), f, size); Inv(t) && Truncated(s, t, f, size)
  {
    var kept := KeptBlocks(size);
    hide SlotVal, Free, ClearFrom, DropTable, Get, Shape, Owned, DiskSafe, TableDropped, Truncated, ClearedFrom, Inv;
    ClearFromShape(s, f, kept, hi);
    ClearFromFacts(s, f, kept, hi);
    if kept <= NDIRECT {
      EntriesGone(s, c, f, kept);
    }
    DropTableFacts(c, f, kept);
    TruncateEnd(s, c, DropTable(c, f, kept), f, size);
  }

  /**
   * file_truncate frees exactly the blocks of the slots from the new block count up, and the
   * indirect block when at most NDIRECT blocks stay; all other slots of all files stay as they are.
   */
  lemma TruncateFacts(s: State, f: nat, size: nat)
    requires Inv(s) && f in s.files
    ensures var t := Truncate(s, f, size); Inv(t) && Truncated(s, t, f, size)
  {
    hide SlotVal, Free, ClearFrom, DropTable, Get, Shape, Owned, DiskSafe, Bounded, Truncated, Resize;
    var hi := SizeOf(s, f) / BY2BLK + 1;
    ClearFromShape(s, f, KeptBlocks(size), hi);
    TruncateParts(s, ClearFrom(s, f, KeptBlocks(size), hi), f, size, hi);
  }

  /** file_map_block without allocation reads the block number off the struct File or its indirect block. */
  lemma MapReads(s: State, f: nat, n: nat, mem: bool, mem2: bool)
    requires Inv(s) && f in s.files
    ensures |s.files[f].direct| == 10 && (s.files[f].indirect != 0 ==> s.files[f].indirect < |s.words| && |s.words[s.files[f].indirect]| == 1024)
    ensures var (t, r) := Map(s, f, n, false, mem, mem2);
      && t == s.(cached := t.cached)
      && r == if n >= 1024 then Err(Inval)
              else
                var file := s.files[f];
                var b := if n < 10 then file.direct[n] else if file.indirect == 0 then 0 else s.words[file.indirect][n];
                if b == 0 then Err(NotFound) else Ok(b)
  {
    assert SlotVal(s, Indirect(f)) == s.files[f].indirect;
    assert s.files[f].indirect != 0 ==> Held(s, s.files[f].indirect);
    hide Owned, DiskSafe, Bounded;
  }

  // ------------------------------------------------------------------ truncation in bytes

  // Slot k of a file of this size lies wholly behind the last byte. The slot that starts just there
  // counts as inside, unless the file is empty; so does the indirect block if it has that slot.
  predicate Beyond(k: Slot, size: nat) {
    if k.Indirect? then size < NDIRECT * BY2BLK else size == 0 || k.i * BY2BLK > size
  }

  /**
   * File f has been cut to its first size bytes: every block with one of them is kept and is not
   * free, as is the block that starts at byte size > 0; the slots behind are empty and their blocks
   * free; and no other file has changed.
   */
  ghost predicate CutTo(s: State, t: State, f: nat, size: nat) {
    && (forall k: Slot :: SlotVal(t, k) == if k.f == f && Beyond(k, size) then 0 else SlotVal(s, k))
    && (forall k: Slot :: k.f == f && !Beyond(k, size) && SlotVal(s, k) != 0 ==> !Free(t, SlotVal(s, k)))
    && (forall b :: Free(t, b) <==> Free(s, b) || (b != 0 && exists k: Slot :: k.f == f && Beyond(k, size) && SlotVal(s, k) == b))
    && (forall g :: SizeOf(t, g) == if g == f then size else SizeOf(s, g))
  }

  lemma BeyondGoes(k: Slot, f: nat, size: nat)
    ensures Goes(k, f, KeptBlocks(size)) <==> k.f == f && Beyond(k, size)
  {
    var q := size / BY2BLK;
    assert size == q * BY2BLK + size % BY2BLK;
    if !k.Indirect? {
      if k.i <= q {
        assert k.i * BY2BLK <= q * BY2BLK;
      } else {
        assert k.i * BY2BLK >= (q + 1) * BY2BLK;
      }
    }
  }

  lemma TruncateCuts(s: State, f: nat, size: nat)
    requires Inv(s) && f in s.files
    ensures Inv(Truncate(s, f, size)) && CutTo(s, Truncate(s, f, size), f, size)
  {
    TruncateFacts(s, f, size);
    var t := Truncate(s, f, size);
    hide Truncate, SlotVal, Free, SizeOf, Shape, DiskSafe, Bounded, KeptBlocks, Goes, Beyond;
    forall k ensures Goes(k, f, KeptBlocks(size)) <==> k.f == f && Beyond(k, size) { BeyondGoes(k, f, size); }
    forall k: Slot | k.f == f && !Beyond(k, size) && SlotVal(s, k) != 0 ensures !Free(t, SlotVal(s, k)) {
      assert SlotVal(t, k) == SlotVal(s, k);
      assert Held(t, SlotVal(t, k));
    }
    forall b ensures GivenBack(s, f, KeptBlocks(size), b) <==> b != 0 && exists k: Slot :: k.f == f && Beyond(k, size) && SlotVal(s, k) == b {
    }
  }

  /** file_set_size cuts the file if it shrinks; otherwise no slot changes and no block comes or goes. */
  lemma SetSizeCuts(s: State, f: nat, size: nat)
    requires Inv(s) && f in s.files
    ensures var t := SetSize(s, f, size);
      && (size < SizeOf(s, f) ==> CutTo(s, t, f, size))
      && (size >= SizeOf(s, f) ==> (forall k :: SlotVal(t, k) == SlotVal(s, k)) && (forall b :: Free(t, b) <==> Free(s, b)))
      && SizeOf(t, f) == size
  {
    var t := if s.files[f].size > size then Truncate(s, f, size) else s;
    if s.files[f].size > size {
      TruncateCuts(s, f, size);
    }
    var u := SetSize(s, f, size);
    assert u == Resize(t, f, size);
    ResizeFacts(t, f, size);
    hide Truncate, SlotVal, Shape, Free, Resize, Owned, DiskSafe, Bounded, SetSize;
  }

  // ------------------------------------------------------------------ conservation of blocks

  function FreeSet(s: State): set<nat> { set b: nat | b < s.nblocks && Free(s, b) }

  ghost predicate OwnedBy(s: State, f: nat, b: nat) { exists k: Slot :: k.f == f && SlotVal(s, k) == b }

  ghost function BlocksOf(s: State, f: nat): set<nat> { set b: nat | 0 < b < s.nblocks && OwnedBy(s, f, b) }

  lemma AllGoes(s: State, t: State, f: nat)
    requires Owned(s, {}) && Truncated(s, t, f, 0)
    ensures FreeSet(t) == FreeSet(s) + BlocksOf(s, f) && FreeSet(s) !! BlocksOf(s, f)
    ensures forall k: Slot :: SlotVal(t, k) == if k.f == f then 0 else SlotVal(s, k)
  {
    hide SlotVal, Free;
    assert forall k: Slot :: Goes(k, f, 0) <==> k.f == f;
    forall b: nat ensures b != 0 && OwnedBy(s, f, b) <==> GivenBack(s, f, 0, b) {
      if b != 0 && OwnedBy(s, f, b) {
        var k: Slot :| k.f == f && SlotVal(s, k) == b;
        assert Goes(k, f, 0);
      }
    }
    forall b: nat | b != 0 && OwnedBy(s, f, b) ensures b < s.nblocks && !Free(s, b) {
      assert Held(s, b);
    }
  }

  /** Removing a file truncates it to nothing: all its blocks come back, and nobody else's. */
  lemma TruncateGivesBack(s: State, f: nat)
    requires Inv(s) && f in s.files
    ensures var t := Truncate(s, f, 0);
      && FreeSet(t) == FreeSet(s) + BlocksOf(s, f)
      && |FreeSet(t)| == |FreeSet(s)| + |BlocksOf(s, f)|
      && (forall k: Slot :: SlotVal(t, k) == if k.f == f then 0 else SlotVal(s, k))
  {
    hide SlotVal, Truncate, Free, Truncated, FreeSet, BlocksOf, Owned;
    TruncateFacts(s, f, 0);
    AllGoes(s, Truncate(s, f, 0), f);
  }

  ghost function UsedSet(s: State): set<nat> { set b: nat | 0 < b < s.nblocks && Referenced(s, b) }

  function Span(lo: nat, hi: nat): (r: set<nat>)
    ensures forall b :: b in r <==> lo <= b < hi
    ensures lo <= hi ==> |r| == hi - lo
    decreases hi
  {
    if lo >= hi then {} else Span(lo, hi - 1) + {hi - 1}
  }

  /** Free and referenced blocks together are the blocks that are not reserved. */
  lemma BlocksConserved(s: State)
    requires Inv(s) && Reserved(s.nblocks) <= s.nblocks
    ensures FreeSet(s) !! UsedSet(s)
    ensures |FreeSet(s)| + |UsedSet(s)| == s.nblocks - Reserved(s.nblocks)
  {
    hide SlotVal, Shape, Get;
    var all := Span(Reserved(s.nblocks), s.nblocks);
    forall b: nat ensures b in all <==> b in FreeSet(s) || b in UsedSet(s) {
      if b in all && !Free(s, b) {
        assert Held(s, b);
      }
    }
    assert all == FreeSet(s) + UsedSet(s);
  }

  // ------------------------------------------------------------------ the invariant

  lemma SetSizeKeeps(s: State, f: nat, size: nat)
    requires Inv(s) && f in s.files
    ensures Inv(SetSize(s, f, size)) && SizeOf(SetSize(s, f, size), f) == size
  {
    var t := if s.files[f].size > size then Truncate(s, f, size) else s;
    if s.files[f].size > size {
      TruncateFacts(s, f, size);
    }
    var u := SetSize(s, f, size);
    hide Truncate, Truncated;
    ResizeFacts(t, f, size);
    hide SlotVal, Shape, Free, Resize;
    OwnedFrame(t, u, {});
    assert SizeOf(t, f) <= size;
    forall k | SlotVal(u, k) != 0 && !k.Indirect? ensures k.i <= SizeOf(u, k.f) / BY2BLK {
      assert SlotVal(t, k) != 0;
    }
  }

  // An entry without blocks comes or goes.
  lemma EmptyEntry(s: State, t: State)
    requires Inv(s) && Shape(t) && SameSlots(s, t) && SameFree(s, t) && t.bitmap == s.bitmap && t.disk == s.disk
    requires forall k :: SlotVal(s, k) != 0 ==> SizeOf(t, k.f) == SizeOf(s, k.f)
    ensures Inv(t)
  {
    hide SlotVal, Shape, Free;
    OwnedFrame(s, t, {});
  }

  // Requests are for blocks up to the file's size, and a new indirect block must read as zero.
  ghost predicate MapScope(s: State, f: nat, n: nat, alloc: bool) {
    f in s.files && (alloc ==> n <= SizeOf(s, f) / BY2BLK) && (NeedsTable(s, f, n, alloc) ==> CleanChoice(s))
  }

  lemma MapKeeps(s: State, f: nat, n: nat, alloc: bool, mem: bool, mem2: bool)
    requires Inv(s) && MapScope(s, f, n, alloc)
    ensures Inv(Map(s, f, n, alloc, mem, mem2).0)
  {
    MapFacts(s, f, n, alloc, mem, mem2);
    hide Map, Owned, Shape, SlotVal, Free;
    var (t, r) := Map(s, f, n, alloc, mem, mem2);
    forall k | SlotVal(t, k) != 0 && !k.Indirect? ensures k.i <= SizeOf(t, k.f) / BY2BLK {
      if k != SlotOf(f, n) {
        assert SlotVal(s, k) != 0;
      }
    }
  }

  lemma ClearKeeps(s: State, f: nat, n: nat)
    requires Inv(s) && f in s.files
    ensures Inv(Clear(s, f, n))
  {
    ClearFacts(s, f, n);
    hide Clear, Owned, Shape, SlotVal, Free;
  }
}
