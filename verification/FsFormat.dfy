/**
 * The offline formatter (tools/fsformat.c) and its agreement with the file server: the image it
 * builds satisfies the server's block invariant, and the server maps each index to the block that
 * the formatter linked there.
 */
module FsFormat {
  import opened Bitmap
  import opened FileBlocks
  import opened FileOwnership
  import opened FileRuns

  const NBLOCK: nat := 1024

  // nextbno, the words of every block and the struct Files.
  datatype Fmt = Fmt(next: nat, words: seq<seq<nat>>, files: map<nat, File>)

  // A bitmap in which exactly the blocks from next up to NBLOCK are free.
  function MarkedFrom(next: nat): (r: seq<Bits>)
    ensures |r| == 1024
    ensures forall b: nat :: Get(r, b) <==> next <= b < NBLOCK
  {
    seq(1024, i requires i >= 0 => seq(32, j requires j >= 0 => next <= i * 32 + j < NBLOCK))
  }

  // What the server will find on the disk once the bitmap is flushed.
  function Image(m: Fmt): State {
    State(NBLOCK, MarkedFrom(m.next), MarkedFrom(m.next), {}, m.words, m.files)
  }

  ghost predicate Blank(m: Fmt) {
    forall b :: m.next <= b < |m.words| ==> m.words[b] == Zeros()
  }

  ghost predicate FmtInv(m: Fmt) {
    Inv(Image(m)) && 3 <= m.next <= NBLOCK && Blank(m)
  }

  // ------------------------------------------------------------------ linking a block

  // next_block, after its data has been read into disk[nextbno]
  function NextBlock(m: Fmt, data: seq<nat>): Fmt
    requires m.next < |m.words|
  {
    m.(next := m.next + 1, words := m.words[m.next := data])
  }

  // The indirect block of f, allocated from the blank part of the disk if there is none.
  function WithTable(m: Fmt, f: nat): Fmt
    requires f in m.files
  {
    if m.files[f].indirect != 0 then m
    else m.(next := m.next + 1, files := m.files[f := m.files[f].(indirect := m.next)])
  }

  // save_block_link
  function SaveLink(m: Fmt, f: nat, n: nat, b: nat): Fmt
    requires f in m.files && n < NINDIRECT
  {
    if n < NDIRECT then
      if n < |m.files[f].direct| then
        var direct: seq<nat> := m.files[f].direct[n := b];
        m.(files := m.files[f := m.files[f].(direct := direct)])
      else m
    else
      var w := WithTable(m, f);
      var i := w.files[f].indirect;
      if i < |w.words| && n < |w.words[i]| then
        var row: seq<nat> := w.words[i][n := b];
        w.(words := w.words[i := row])
      else w
  }

  // save_block_link(f, n, next_block(...)): the argument is evaluated before the indirect block is taken.
  function Link(m: Fmt, f: nat, n: nat, data: seq<nat>): Fmt
    requires f in m.files && n < NINDIRECT && m.next < |m.words|
  {
    SaveLink(NextBlock(m, data), f, n, m.next)
  }

  lemma NextKeeps(m: Fmt, data: seq<nat>)
    requires FmtInv(m) && m.next < NBLOCK && |data| == NINDIRECT
    ensures var t := NextBlock(m, data);
      Shape(Image(t)) && Owned(Image(t), {m.next}) && SameSlots(Image(m), Image(t)) && Blank(t)
  {
    var s, t := Image(m), Image(NextBlock(m, data));
    assert forall f :: SlotVal(s, Indirect(f)) != 0 ==> Held(s, SlotVal(s, Indirect(f)));
    WordsFrame(s, t, m.next);
    assert forall c: nat :: Free(t, c) <==> Free(s, c) && c != m.next;
    hide SlotVal, Get;
    TakeOwned(s, t, {}, m.next);
    assert {} + {m.next} == {m.next};
  }

  // An indirect block from the blank part holds no entries.
  lemma TableKeeps(m: Fmt, f: nat, b: nat)
    requires Shape(Image(m)) && Owned(Image(m), {b}) && Blank(m) && 3 <= m.next && f in m.files
    requires m.files[f].indirect == 0 ==> m.next < NBLOCK
    ensures var t := WithTable(m, f);
      && Shape(Image(t)) && Owned(Image(t), {b}) && Blank(t)
      && OneSlot(Image(m), Image(t), Indirect(f), t.files[f].indirect)
      && t.files[f].indirect != 0
      && (m.files[f].indirect != 0 ==> t == m)
  {
    if m.files[f].indirect == 0 {
      var s := Image(m);
      var c := m.next;
      var a := Image(m.(next := c + 1));
      var t := Image(WithTable(m, f));
      assert t == SetSlot(a, Indirect(f), c);
      assert forall d: nat :: Free(a, d) <==> Free(s, d) && d != c;
      assert SameSlots(s, a) && SlotVal(a, Indirect(f)) == 0;
      assert forall i :: SlotVal(a, Entry(f, i)) == 0;
      assert b != c;
      SetIndirect(a, f, c);
      hide SlotVal, Get, Word, SetSlot;
      TakeOwned(s, a, {b}, c);
      StoreOwned(a, t, {b}, Indirect(f), c);
    }
  }

  // Storing the block number in the slot completes the link.
  lemma PutKeeps(w: Fmt, t: Fmt, f: nat, n: nat, b: nat)
    requires Shape(Image(w)) && Owned(Image(w), {b}) && f in w.files && n < NINDIRECT
    requires n >= NDIRECT ==> w.files[f].indirect != 0
    requires SlotVal(Image(w), SlotOf(f, n)) == 0 && Image(t) == SetSlot(Image(w), SlotOf(f, n), b)
    ensures Shape(Image(t)) && Owned(Image(t), {}) && OneSlot(Image(w), Image(t), SlotOf(f, n), b)
  {
    var s := Image(w);
    if n >= NDIRECT {
      assert SlotVal(s, Indirect(f)) == w.files[f].indirect;
      assert Held(s, w.files[f].indirect);
      assert forall g :: g != f ==> Indirect(g) != Indirect(f);
    }
    hide SlotVal, SetSlot, Word, Get;
    SetEntryOf(s, f, n, b);
    SetSlotRest(s, f, n, b);
    assert {} + {b} == {b};
    StoreOwned(s, Image(t), {}, SlotOf(f, n), b);
  }

  ghost predicate Linked(m: Fmt, t: Fmt, f: nat, n: nat, data: seq<nat>) {
    var s, u := Image(m), Image(t);
    && SlotVal(u, SlotOf(f, n)) == m.next
    && (forall l :: l != SlotOf(f, n) && (l != Indirect(f) || SlotVal(s, l) != 0) ==> SlotVal(u, l) == SlotVal(s, l))
    && SameSizes(s, u) && t.files.Keys == m.files.Keys
    && t.next == m.next + (if NeedsTable(s, f, n, true) then 2 else 1)
    && |t.words| == |m.words| == NBLOCK && m.next < NBLOCK && t.words[m.next] == data
    && (forall b :: 0 <= b < m.next && b != SlotVal(s, Indirect(f)) ==> t.words[b] == m.words[b])
  }

  /** One block linked at an unused index: the server's invariant holds of the image, with exactly that link new. */
  lemma LinkKeeps(m: Fmt, f: nat, n: nat, data: seq<nat>)
    requires FmtInv(m) && f in m.files && n < NINDIRECT && |data| == NINDIRECT
    requires SlotVal(Image(m), SlotOf(f, n)) == 0 && n <= SizeOf(Image(m), f) / BY2BLK
    requires m.next + (if NeedsTable(Image(m), f, n, true) then 2 else 1) <= NBLOCK
    ensures FmtInv(Link(m, f, n, data)) && Linked(m, Link(m, f, n, data), f, n, data)
  {
    var a := NextBlock(m, data);
    var t := Link(m, f, n, data);
    NextKeeps(m, data);
    var w := a;
    if n >= NDIRECT {
      w := WithTable(a, f);
      TableKeeps(a, f, m.next);
      assert SlotVal(Image(w), Indirect(f)) == w.files[f].indirect;
      assert Held(Image(w), w.files[f].indirect);
    }
    assert SlotVal(Image(a), SlotOf(f, n)) == 0;
    assert SlotVal(Image(w), SlotOf(f, n)) == 0;
    assert Image(t) == SetSlot(Image(w), SlotOf(f, n), m.next);
    PutKeeps(w, t, f, n, m.next);
    LinkWords(m, a, w, t, f, n, data);
    hide SlotVal, Link, WithTable, Owned, Get, Free, SetSlot;
    LinkBounded(m, t, f, n, data);
  }

  lemma LinkBounded(m: Fmt, t: Fmt, f: nat, n: nat, data: seq<nat>)
    requires Bounded(Image(m)) && Linked(m, t, f, n, data) && n <= SizeOf(Image(m), f) / BY2BLK
    ensures Bounded(Image(t))
  {
    hide SlotVal, Image;
    forall k | SlotVal(Image(t), k) != 0 && !k.Indirect? ensures k.i <= SizeOf(Image(t), k.f) / BY2BLK {
      if k != SlotOf(f, n) {
        assert SlotVal(Image(m), k) != 0;
      }
    }
  }

  lemma LinkWords(m: Fmt, a: Fmt, w: Fmt, t: Fmt, f: nat, n: nat, data: seq<nat>)
    requires Shape(Image(m)) && m.next < NBLOCK && f in m.files && n < NINDIRECT && |data| == NINDIRECT
    requires a == NextBlock(m, data) && w == (if n >= NDIRECT then WithTable(a, f) else a) && t == SaveLink(a, f, n, m.next)
    requires Blank(a) && Blank(m)
    requires n >= NDIRECT ==> w.files[f].indirect < w.next && w.files[f].indirect != m.next
    ensures Blank(t) && SameSizes(Image(m), Image(t)) && t.files.Keys == m.files.Keys
    ensures t.next == m.next + (if NeedsTable(Image(m), f, n, true) then 2 else 1)
    ensures |t.words| == |m.words| && t.words[m.next] == data
    ensures forall b :: 0 <= b < m.next && b != SlotVal(Image(m), Indirect(f)) ==> t.words[b] == m.words[b]
  {
  }

  // ------------------------------------------------------------------ what the server reads back

  // The blocks bnos are linked in order at indices 0, 1, 2, ... of f, and nothing beyond.
  ghost predicate InOrder(s: State, f: nat, bnos: seq<nat>) {
    && |bnos| <= NINDIRECT
    && (forall i :: 0 <= i < |bnos| ==> SlotVal(s, SlotOf(f, i)) == bnos[i] && bnos[i] != 0)
    && (forall i :: |bnos| <= i < NINDIRECT ==> SlotVal(s, SlotOf(f, i)) == 0)
  }

  ghost predicate Holds(m: Fmt, bnos: seq<nat>, chunks: seq<seq<nat>>) {
    && |bnos| <= |chunks|
    && forall i :: 0 <= i < |bnos| ==> bnos[i] < |m.words| && m.words[bnos[i]] == chunks[i]
  }

  lemma LinkInOrder(m: Fmt, f: nat, bnos: seq<nat>, chunks: seq<seq<nat>>)
    requires FmtInv(m) && f in m.files && InOrder(Image(m), f, bnos) && Holds(m, bnos, chunks)
    requires |bnos| < NINDIRECT && |bnos| < |chunks| && |chunks[|bnos|]| == NINDIRECT
    requires m.next < |m.words| && Linked(m, Link(m, f, |bnos|, chunks[|bnos|]), f, |bnos|, chunks[|bnos|])
    ensures var t := Link(m, f, |bnos|, chunks[|bnos|]);
      && InOrder(Image(t), f, bnos + [m.next]) && Holds(t, bnos + [m.next], chunks)
  {
    var n := |bnos|;
    var t := Link(m, f, n, chunks[n]);
    var s := Image(m);
    hide Link, SlotVal, Image;
    var more := bnos + [m.next];
    forall i | 0 <= i < n ensures bnos[i] < m.next && bnos[i] != SlotVal(s, Indirect(f)) {
      assert SlotVal(s, SlotOf(f, i)) == bnos[i];
      BelowNext(m, SlotOf(f, i));
      assert SlotOf(f, i) != Indirect(f);
    }
    assert forall i :: SlotOf(f, i) == SlotOf(f, n) ==> i == n;
    assert forall i :: 0 <= i < n ==> more[i] == bnos[i];
    forall i | 0 <= i <= n ensures more[i] < |t.words| && t.words[more[i]] == chunks[i] {
      assert i < n ==> bnos[i] < m.next;
    }
  }

  lemma BelowNext(m: Fmt, k: Slot)
    requires FmtInv(m) && SlotVal(Image(m), k) != 0
    ensures 3 <= SlotVal(Image(m), k) < m.next
  {
    assert Held(Image(m), SlotVal(Image(m), k));
  }

  lemma InOrderDistinct(s: State, f: nat, bnos: seq<nat>)
    requires Owned(s, {}) && InOrder(s, f, bnos)
    ensures forall i, j :: 0 <= i < j < |bnos| ==> bnos[i] != bnos[j]
  {
    hide SlotVal;
    forall i, j | 0 <= i < j < |bnos| ensures bnos[i] != bnos[j] {
      assert SlotVal(s, SlotOf(f, i)) == bnos[i] && SlotVal(s, SlotOf(f, j)) == bnos[j];
      assert SlotOf(f, i) != SlotOf(f, j);
    }
  }

  ghost predicate CanLink(m: Fmt, f: nat, n: nat, data: seq<nat>) {
    && f in m.files && n < NINDIRECT && |data| == NINDIRECT && |m.words| == NBLOCK
    && m.next + (if NeedsTable(Image(m), f, n, true) then 2 else 1) <= NBLOCK
    && (n >= NDIRECT ==> m.files[f].indirect < NBLOCK)
  }

  // f is empty and its size covers the chunks, which fit on the disk and in one indirect block.
  ghost predicate CanWrite(m: Fmt, f: nat, chunks: seq<seq<nat>>) {
    && f in m.files && InOrder(Image(m), f, []) && m.files[f].indirect == 0
    && |chunks| <= m.files[f].size / BY2BLK + 1 && |chunks| <= NINDIRECT
    && (forall i :: 0 <= i < |chunks| ==> |chunks[i]| == NINDIRECT)
    && m.next + |chunks| + (if |chunks| > NDIRECT then 1 else 0) <= NBLOCK
  }

  // The chunks linked so far are f's first blocks and hold their data; other files are as before.
  ghost predicate Written(was: Fmt, m: Fmt, f: nat, bnos: seq<nat>, chunks: seq<seq<nat>>) {
    && f in m.files && SizeOf(Image(m), f) == SizeOf(Image(was), f)
    && InOrder(Image(m), f, bnos) && Holds(m, bnos, chunks)
    && (forall k: Slot :: k.f != f ==> SlotVal(Image(m), k) == SlotVal(Image(was), k))
    && m.next == was.next + |bnos| + (if |bnos| > NDIRECT then 1 else 0)
    && (if |bnos| > NDIRECT then m.files[f].indirect >= was.next else m.files[f].indirect == 0)
    && |m.words| == |was.words| == NBLOCK && 0 < was.next && forall b :: 0 <= b < was.next && b < NBLOCK ==> m.words[b] == was.words[b]
  }

  lemma WriteStep(was: Fmt, m: Fmt, f: nat, bnos: seq<nat>, chunks: seq<seq<nat>>)
    requires FmtInv(m) && CanWrite(was, f, chunks) && Written(was, m, f, bnos, chunks) && |bnos| < |chunks|
    ensures CanLink(m, f, |bnos|, chunks[|bnos|]) && Shape(Image(m))
    ensures var t := Link(m, f, |bnos|, chunks[|bnos|]); FmtInv(t) && Written(was, t, f, bnos + [m.next], chunks)
  {
    var n := |bnos|;
    assert SlotVal(Image(m), SlotOf(f, n)) == 0;
    if m.files[f].indirect != 0 {
      BelowNext(m, Indirect(f));
    }
    LinkKeeps(m, f, n, chunks[n]);
    LinkInOrder(m, f, bnos, chunks);
    LinkTable(m, f, n, chunks[n]);
    hide SlotVal, Link, InOrder, Holds, FmtInv;
  }

  lemma LinkTable(m: Fmt, f: nat, n: nat, data: seq<nat>)
    requires f in m.files && n < NINDIRECT && 0 < m.next < |m.words|
    ensures var t := Link(m, f, n, data);
      f in t.files && t.files[f].indirect ==
        if m.files[f].indirect == 0 && n >= NDIRECT then m.next + 1 else m.files[f].indirect
  {
  }

  /**
   * The formatter and the file server agree: on the finished image s, file_map_block finds exactly
   * the linked blocks.
   */
  lemma ServerAgrees(m: Fmt, s: State, f: nat, bnos: seq<nat>, n: nat, mem: bool, mem2: bool)
    requires Inv(s) && SameSlots(Image(m), s) && f in s.files && InOrder(Image(m), f, bnos)
    ensures Map(s, f, n, false, mem, mem2).1 ==
      if n < |bnos| then Ok(bnos[n]) else if n < NINDIRECT then Err(NotFound) else Err(Inval)
  {
    if n < NINDIRECT {
      assert SlotVal(Image(m), SlotOf(f, n)) == if n < |bnos| then bnos[n] else 0;
      assert SlotVal(s, SlotOf(f, n)) == SlotVal(Image(m), SlotOf(f, n));
    }
    hide SlotVal, Image;
    MapFacts(s, f, n, false, mem, mem2);
  }

  // ------------------------------------------------------------------ directories and the bitmap

  // A directory has a whole number of blocks, and no slot from its size on is in use.
  ghost predicate Dense(s: State, f: nat) {
    && SizeOf(s, f) % BY2BLK == 0
    && forall i :: SizeOf(s, f) / BY2BLK <= i < NINDIRECT ==> SlotVal(s, SlotOf(f, i)) == 0
  }

  function Grown(m: Fmt, f: nat): Fmt
    requires f in m.files
  {
    m.(files := m.files[f := m.files[f].(size := m.files[f].size + BY2BLK)])
  }

  lemma GrownFacts(m: Fmt, f: nat)
    requires FmtInv(m) && f in m.files
    ensures FmtInv(Grown(m, f)) && SameSlots(Image(m), Image(Grown(m, f)))
    ensures SizeOf(Image(Grown(m, f)), f) == SizeOf(Image(m), f) + BY2BLK
  {
    var s, t := Image(m), Image(Grown(m, f));
    ResizeFacts(s, f, m.files[f].size + BY2BLK);
    assert t == Resize(s, f, m.files[f].size + BY2BLK);
    hide SlotVal, Resize, Free, Get;
    OwnedFrame(s, t, {});
    forall k | SlotVal(t, k) != 0 && !k.Indirect? ensures k.i <= SizeOf(t, k.f) / BY2BLK {
      assert SlotVal(s, k) != 0;
      assert SizeOf(s, k.f) / BY2BLK <= SizeOf(t, k.f) / BY2BLK;
    }
  }

  // A new block of zeros is linked behind the last block of directory f; nothing else changes.
  ghost predicate DirGrown(m: Fmt, t: Fmt, f: nat) {
    && Dense(Image(t), f) && SizeOf(Image(t), f) == SizeOf(Image(m), f) + BY2BLK
    && SlotVal(Image(t), SlotOf(f, SizeOf(Image(m), f) / BY2BLK)) == m.next
    && m.next < |t.words| && t.words[m.next] == Zeros()
    && (forall k: Slot :: k.f != f || (!k.Indirect? && k.i < SizeOf(Image(m), f) / BY2BLK) ==>
          SlotVal(Image(t), k) == SlotVal(Image(m), k))
  }

  lemma DirLink(m: Fmt, f: nat, n: nat)
    requires FmtInv(m) && Dense(Image(m), f) && n == SizeOf(Image(m), f) / BY2BLK && CanLink(m, f, n, Zeros())
    ensures Link(m, f, n, m.words[m.next]) == Link(m, f, n, Zeros())
    ensures var l := Link(m, f, n, Zeros()); f in l.files && FmtInv(Grown(l, f)) && DirGrown(m, Grown(l, f), f)
  {
    var l := Link(m, f, n, Zeros());
    LinkKeeps(m, f, n, Zeros());
    hide SlotVal, Link, FmtInv;
    GrownFacts(l, f);
    hide Image;
    GrownDense(m, l, f, n);
  }

  lemma GrownDense(m: Fmt, l: Fmt, f: nat, n: nat)
    requires Dense(Image(m), f) && n == SizeOf(Image(m), f) / BY2BLK && n < NINDIRECT && f in l.files
    requires Linked(m, l, f, n, Zeros())
    requires SameSlots(Image(l), Image(Grown(l, f)))
    requires SizeOf(Image(Grown(l, f)), f) == SizeOf(Image(l), f) + BY2BLK
    ensures DirGrown(m, Grown(l, f), f)
  {
    hide SlotVal, Image, SizeOf;
    var t := Grown(l, f);
    assert forall k :: SlotVal(Image(t), k) == SlotVal(Image(l), k);
    assert SizeOf(Image(l), f) == SizeOf(Image(m), f);
    forall i | SizeOf(Image(t), f) / BY2BLK <= i < NINDIRECT ensures SlotVal(Image(t), SlotOf(f, i)) == 0 {
      assert i > n && SlotOf(f, i) != SlotOf(f, n);
      assert SlotVal(Image(l), SlotOf(f, i)) == SlotVal(Image(m), SlotOf(f, i));
    }
  }

  // init_disk: one bitmap block of ones, with zeros from byte NBLOCK / 8 on.
  function InitialBitmap(): (r: seq<Bits>)
    ensures |r| == 1024
    ensures forall b: nat :: Get(r, b) <==> b < NBLOCK
  {
    seq(1024, i requires i >= 0 => seq(32, j => i < NBLOCK / 32))
  }

  lemma FinalInv(m: Fmt, s: State)
    requires FmtInv(m) && s == State(NBLOCK, s.bitmap, s.bitmap, {}, m.words, m.files) && |s.bitmap| == 1024
    requires forall b: nat :: Get(s.bitmap, b) <==> m.next <= b < NBLOCK
    ensures Inv(s) && SameSlots(Image(m), s)
  {
    assert SameSlots(Image(m), s) && SameFree(Image(m), s);
    hide SlotVal;
    OwnedFrame(Image(m), s, {});
  }

  // ------------------------------------------------------------------ the formatter

  class Formatter {
    var nextbno: nat
    var words: seq<seq<nat>>
    var files: map<nat, File>
    var bitmap: seq<Bits>

    function M(): Fmt
      reads this
    {
      Fmt(nextbno, words, files)
    }

    // The image written out at the end; its bitmap is block 2.
    function Final(): State
      reads this
    {
      State(NBLOCK, bitmap, bitmap, {}, words, files)
    }

    // All blocks of the disk are still marked free, and no others.
    ghost predicate Valid()
      reads this
    {
      FmtInv(M()) && |bitmap| == 1024 && forall b: nat :: Get(bitmap, b) <==> b < NBLOCK
    }

    // init_disk; file 0 is the root directory.
    constructor ()
      ensures Valid() && nextbno == 3
      ensures files == map[ROOT := File(0, seq(NDIRECT, i => 0), 0, true)]
    {
      nextbno := 2 + (NBLOCK + BIT2BLK - 1) / BIT2BLK;
      words := seq(NBLOCK, i => Zeros());
      files := map[ROOT := File(0, seq(NDIRECT, i => 0), 0, true)];
      bitmap := InitialBitmap();
      new;
      EmptyDisk(M());
    }

    // An unused struct File, as create_file returns it, gets the size of the host file.
    method AddFile(f: nat, size: nat)
      requires Valid() && f !in files
      modifies this`files
      ensures Valid() && f in files && files[f].size == size && files[f].indirect == 0
      ensures InOrder(Image(M()), f, []) && SameSlots(old(Image(M())), Image(M()))
    {
      ghost var s := Image(M());
      files := files[f := File(size, seq(NDIRECT, i => 0), 0, false)];
      assert forall k :: SlotVal(Image(M()), k) == SlotVal(s, k);
      EmptyEntry(s, Image(M()));
    }

    // write_file, from its linking loop on: chunks are the blocks that the reads deliver.
    method WriteFile(f: nat, chunks: seq<seq<nat>>) returns (bnos: seq<nat>)
      requires Valid() && CanWrite(M(), f, chunks)
      modifies this`nextbno, this`words, this`files
      ensures Valid() && |bnos| == |chunks| && Written(old(M()), M(), f, bnos, chunks)
      ensures forall i, j :: 0 <= i < j < |bnos| ==> bnos[i] != bnos[j]
    {
      var iblk := 0;
      bnos := [];
      ghost var was := M();
      while iblk < |chunks|
        invariant 0 <= iblk == |bnos| <= |chunks|
        invariant FmtInv(M()) && Written(was, M(), f, bnos, chunks)
      {
        hide FmtInv, Written, CanWrite, Link;
        WriteStep(was, M(), f, bnos, chunks);
        var bno := LinkBlock(f, iblk, chunks[iblk]);
        bnos := bnos + [bno];
        iblk := iblk + 1;
      }
      InOrderDistinct(Image(M()), f, bnos);
    }

    // read(fd, disk[nextbno].data, n), then save_block_link(f, nblk, next_block(BLOCK_DATA))
    method LinkBlock(f: nat, nblk: nat, data: seq<nat>) returns (bno: nat)
      requires CanLink(M(), f, nblk, data) && Shape(Image(M()))
      modifies this`nextbno, this`words, this`files
      ensures M() == Link(old(M()), f, nblk, data) && bno == old(nextbno)
    {
      words := words[nextbno := data];
      bno := NextBlock();
      SaveBlockLink(f, nblk, bno);
    }

    // make_link_block, for a directory whose blocks are all linked
    method MakeLinkBlock(dirf: nat, nblk: nat) returns (bno: nat)
      requires Valid() && Dense(Image(M()), dirf) && nblk == SizeOf(Image(M()), dirf) / BY2BLK
      requires CanLink(M(), dirf, nblk, Zeros())
      modifies this`nextbno, this`words, this`files
      ensures Valid() && DirGrown(old(M()), M(), dirf) && bno == old(nextbno)
    {
      ghost var m := M();
      DirLink(m, dirf, nblk);
      assert words[nextbno := words[nextbno]] == words;
      hide FmtInv, DirGrown, Dense;
      bno := NextBlock();
      SaveBlockLink(dirf, nblk, bno);
      files := files[dirf := files[dirf].(size := files[dirf].size + BY2BLK)];
      assert M() == Grown(Link(m, dirf, nblk, Zeros()), dirf);
    }

    // flush_bitmap: the finished image satisfies the invariant of the file server.
    method FlushBitmap()
      requires Valid()
      modifies this`bitmap
      ensures |bitmap| == 1024 && forall b: nat :: Get(bitmap, b) <==> nextbno <= b < NBLOCK
      ensures Inv(Final()) && SameSlots(Image(M()), Final())
      ensures (forall f :: f in files ==> Home(f) < nextbno) ==> RunInv(Final())
    {
      var i := 0;
      while i < nextbno
        invariant 0 <= i <= nextbno && |bitmap| == 1024
        invariant forall b: nat :: Get(bitmap, b) <==> i <= b < NBLOCK
      {
        bitmap := Put(bitmap, i, false);
        i := i + 1;
      }
      FinalInv(M(), Final());
    }

    method NextBlock() returns (bno: nat)
      modifies this`nextbno
      ensures bno == old(nextbno) && nextbno == bno + 1
    {
      bno := nextbno;
      nextbno := nextbno + 1;
    }

    method SaveBlockLink(f: nat, nblk: nat, bno: nat)
      requires f in files && nblk < NINDIRECT && Shape(Image(M()))
      requires nblk >= NDIRECT ==> (if files[f].indirect == 0 then nextbno else files[f].indirect) < NBLOCK
      modifies this`nextbno, this`words, this`files
      ensures M() == SaveLink(old(M()), f, nblk, bno)
    {
      if nblk < NDIRECT {
        var direct: seq<nat> := files[f].direct[nblk := bno];
        files := files[f := files[f].(direct := direct)];
      } else {
        if files[f].indirect == 0 {
          var t := NextBlock();
          files := files[f := files[f].(indirect := t)];
        }
        var i := files[f].indirect;
        var row: seq<nat> := words[i][nblk := bno];
        words := words[i := row];
      }
    }
  }

  lemma EmptyDisk(m: Fmt)
    requires m.next == 3 && |m.words| == NBLOCK && (forall b :: 0 <= b < NBLOCK ==> m.words[b] == Zeros())
    requires m.files == map[ROOT := File(0, seq(NDIRECT, i => 0), 0, true)]
    ensures FmtInv(m)
  {
    var s := Image(m);
    assert forall k :: SlotVal(s, k) == 0;
    assert forall b: nat :: Free(s, b) <==> 3 <= b < NBLOCK;
  }
}
