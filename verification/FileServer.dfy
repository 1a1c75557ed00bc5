/** The file server's block operations, carried out in place (fs/fs.c). */
module FileServer {
  import opened Bitmap
  import opened FileBlocks
  import opened FileOwnership

  // read_block panics for a block outside the disk and for a free block.
  predicate Readable(s: State, b: nat) { b < s.nblocks && !Free(s, b) }

  ghost predicate TableReadable(s: State, f: nat) {
    f in s.files && (s.files[f].indirect != 0 ==> Readable(s, s.files[f].indirect))
  }

  class FileSystem {
    var nblocks: nat
    var bitmap: seq<Bits>
    var disk: seq<Bits>
    var cached: set<nat>
    var words: seq<seq<nat>>
    var files: map<nat, File>

    function St(): State
      reads this
    {
      State(nblocks, bitmap, disk, cached, words, files)
    }

    method BlockIsFree(blockno: nat) returns (r: bool)
      requires Shape(St())
      ensures r == Free(St(), blockno)
    {
      if blockno >= nblocks {
        return false;
      }
      r := bitmap[blockno / 32][blockno % 32];
    }

    method FreeBlock(blockno: nat)
      requires Shape(St())
      modifies this`bitmap
      ensures St() == Release(old(St()), blockno)
    {
      if blockno == 0 || blockno >= nblocks {
        return;
      }
      bitmap := Put(bitmap, blockno, true);
    }

    // The lowest free block from 3 up; its bitmap block is written back to the disk.
    method AllocBlockNum() returns (r: Ret<nat>)
      requires Shape(St())
      modifies this`bitmap, this`disk
      ensures r.Ok? <==> exists b :: 3 <= b < nblocks && Free(old(St()), b)
      ensures r.Ok? ==> r.val == FirstFree(old(St()), 3) < nblocks && St() == Take(old(St()), r.val)
      ensures r.Err? ==> r.error == NoDisk && FirstFree(old(St()), 3) >= nblocks && St() == old(St())
    {
      var blockno := 3;
      while blockno < nblocks
        invariant 3 <= blockno && St() == old(St())
        invariant FirstFree(St(), 3) == FirstFree(St(), blockno)
        decreases nblocks - blockno
      {
        if bitmap[blockno / 32][blockno % 32] {
          bitmap := Put(bitmap, blockno, false);
          disk := WriteBack(disk, bitmap, blockno / BIT2BLK);
          return Ok(blockno);
        }
        blockno := blockno + 1;
      }
      return Err(NoDisk);
    }

    method MapBlock(blockno: nat, mem: bool) returns (ok: bool)
      requires blockno < |words|
      modifies this`cached, this`words
      ensures (St(), ok) == MapCache(old(St()), blockno, mem)
    {
      if blockno in cached {
        return true;
      }
      if mem {
        cached := cached + {blockno};
        words := words[blockno := Zeros()];
      }
      return mem;
    }

    method AllocBlock(mem: bool) returns (r: Ret<nat>)
      requires Shape(St())
      modifies this
      ensures (St(), r) == Alloc(old(St()), mem)
    {
      r := AllocBlockNum();
      if r.Err? {
        return;
      }
      var bno := r.val;
      var ok := MapBlock(bno, mem);
      if !ok {
        FreeBlock(bno);
        return Err(NoMem);
      }
    }

    method ReadBlock(blockno: nat)
      requires Readable(St(), blockno)
      modifies this`cached
      ensures St() == ReadCache(old(St()), blockno)
    {
      cached := cached + {blockno};
    }

    method FileBlockWalk(f: nat, filebno: nat, alloc: bool, mem: bool) returns (r: Ret<Slot>)
      requires Shape(St()) && TableReadable(St(), f)
      modifies this
      ensures (St(), r) == Walk(old(St()), f, filebno, alloc, mem)
    {
      if filebno < NDIRECT {
        return Ok(Direct(f, filebno));
      } else if filebno < NINDIRECT {
        if files[f].indirect == 0 {
          if !alloc {
            return Err(NotFound);
          }
          AllocShape(St(), mem);
          var a := AllocBlock(mem);
          if a.Err? {
            return Err(a.error);
          }
          assert Readable(St(), a.val);
          files := files[f := files[f].(indirect := a.val)];
        }
        ReadBlock(files[f].indirect);
        return Ok(Entry(f, filebno));
      } else {
        return Err(Inval);
      }
    }

    method Store(k: Slot, v: nat)
      requires Shape(St()) && k.f in files
      modifies this`files, this`words
      ensures St() == SetSlot(old(St()), k, v)
    {
      var t := SetSlot(St(), k, v);
      files, words := t.files, t.words;
    }

    method FileMapBlock(f: nat, filebno: nat, alloc: bool, mem: bool, mem2: bool) returns (r: Ret<nat>)
      requires Shape(St()) && TableReadable(St(), f)
      modifies this
      ensures (St(), r) == Map(old(St()), f, filebno, alloc, mem, mem2)
      ensures Inv(old(St())) && MapScope(old(St()), f, filebno, alloc) ==>
        Inv(St()) && MapAnswer(old(St()), St(), SlotOf(f, filebno), filebno, alloc, r)
    {
      ghost var s := St();
      if Inv(s) && MapScope(s, f, filebno, alloc) {
        MapKeeps(s, f, filebno, alloc, mem, mem2);
        MapFacts(s, f, filebno, alloc, mem, mem2);
      }
      hide Inv, MapScope, MapAnswer, Walk, Alloc, SetSlot, SlotVal;
      WalkShape(s, f, filebno, alloc, mem);
      var ptr := FileBlockWalk(f, filebno, alloc, mem);
      if ptr.Err? {
        return Err(ptr.error);
      }
      if SlotVal(St(), ptr.val) == 0 {
        if !alloc {
          return Err(NotFound);
        }
        AllocShape(St(), mem2);
        var a := AllocBlock(mem2);
        if a.Err? {
          return Err(a.error);
        }
        Store(ptr.val, a.val);
        return Ok(a.val);
      }
      return Ok(SlotVal(St(), ptr.val));
    }

    method FileClearBlock(f: nat, filebno: nat)
      requires Shape(St()) && TableReadable(St(), f)
      modifies this
      ensures St() == Clear(old(St()), f, filebno)
    {
      WalkShape(St(), f, filebno, false, false);
      hide Walk, SetSlot, SlotVal;
      var ptr := FileBlockWalk(f, filebno, false, false);
      if ptr.Err? {
        return;
      }
      var v := SlotVal(St(), ptr.val);
      if v != 0 {
        FreeBlock(v);
        Store(ptr.val, 0);
      }
    }

    // The clearing loop of file_truncate, the same in both its branches.
    method ClearBlocks(f: nat, from: nat, to: nat)
      requires Shape(St()) && Owned(St(), {}) && DiskSafe(St()) && f in files
      modifies this
      ensures St() == ClearFrom(old(St()), f, from, to)
    {
      ghost var s := St();
      var bno := from;
      while bno < to
        invariant f in files && Shape(St()) && Owned(St(), {}) && DiskSafe(St())
        invariant ClearFrom(St(), f, bno, to) == ClearFrom(s, f, from, to)
      {
        hide Owned, DiskSafe, Clear, SlotVal, Free, OneSlot;
        TablesHeld(St(), f);
        ClearFacts(St(), f, bno);
        FileClearBlock(f, bno);
        bno := bno + 1;
      }
    }

    method FileTruncate(f: nat, newsize: nat)
      requires Inv(St()) && f in files
      modifies this
      ensures St() == Truncate(old(St()), f, newsize)
      ensures Inv(St()) && Truncated(old(St()), St(), f, newsize) && CutTo(old(St()), St(), f, newsize)
    {
      ghost var s := St();
      var oldBlocks := files[f].size / BY2BLK + 1;
      var newBlocks := if newsize == 0 then 0 else newsize / BY2BLK + 1;
      ClearFromShape(s, f, newBlocks, oldBlocks);
      hide Owned, Bounded, DiskSafe, Truncated, ClearFrom, DropTable, Shape, SlotVal, Free, Referenced, Goes, GivenBack;
      ClearBlocks(f, newBlocks, oldBlocks);
      FreeTable(f, newBlocks);
      files := files[f := files[f].(size := newsize)];
      assert St() == Truncate(s, f, newsize);
      hide Truncate, Inv, CutTo;
      TruncateFacts(s, f, newsize);
      TruncateCuts(s, f, newsize);
    }

    // The last part of file_truncate: the indirect block goes too when at most NDIRECT blocks stay.
    method FreeTable(f: nat, newBlocks: nat)
      requires Shape(St()) && f in files
      modifies this
      ensures St() == DropTable(old(St()), f, newBlocks) && f in files
    {
      if newBlocks <= NDIRECT && files[f].indirect != 0 {
        FreeBlock(files[f].indirect);
        Store(Indirect(f), 0);
      }
    }

    method FileSetSize(f: nat, newsize: nat)
      requires Inv(St()) && f in files
      modifies this
      ensures St() == SetSize(old(St()), f, newsize) && Inv(St()) && SizeOf(St(), f) == newsize
      ensures newsize < SizeOf(old(St()), f) ==> CutTo(old(St()), St(), f, newsize)
      ensures newsize >= SizeOf(old(St()), f) ==> forall k :: SlotVal(St(), k) == SlotVal(old(St()), k)
    {
      SetSizeKeeps(St(), f, newsize);
      SetSizeCuts(St(), f, newsize);
      hide Owned, Bounded, DiskSafe, Truncated, SlotVal, CutTo;
      if files[f].size > newsize {
        FileTruncate(f, newsize);
      }
      files := files[f := files[f].(size := newsize)];
    }
  }

  // read_block never panics on the indirect block of a file.
  lemma TablesHeld(s: State, f: nat)
    requires Owned(s, {}) && f in s.files
    ensures TableReadable(s, f)
  {
    assert SlotVal(s, Indirect(f)) == s.files[f].indirect;
  }
}
