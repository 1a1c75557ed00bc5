/**
 * Loading one segment of an ELF file: elf_load_seg (lib/elfloader.c) with its mapping callback
 * load_icode_mapper (kern/env.c). Addresses do not wrap.
 */
module ElfLoad {
  import opened Common

  const BY2PG: nat := 4096

  type Page = p: seq<Byte> | |p| == BY2PG witness seq(BY2PG, i => 0)

  datatype Mapping = Mapping(bytes: Page, writable: bool)

  // p_vaddr, p_memsz and PF_W of the program header; the p_filesz bytes of the file are bin.
  datatype Segment = Segment(va: nat, bin: seq<Byte>, memsz: nat, writable: bool)

  // One call of the mapper: copy len bytes of the file from position src to offset in a new page.
  datatype Call = Call(va: nat, offset: nat, src: nat, len: nat)

  function Min(a: nat, b: nat): nat { if a <= b then a else b }

  function Max(a: nat, b: nat): nat { if a >= b then a else b }

  function Offset(g: Segment): nat { g.va % BY2PG }

  // ------------------------------------------------------------------ the calls, in order

  // Where the loops start.
  function Start(g: Segment): nat {
    if Offset(g) != 0 then Min(|g.bin|, BY2PG - Offset(g)) else 0
  }

  function FirstCall(g: Segment): seq<Call> {
    if Offset(g) != 0 then [Call(g.va, Offset(g), 0, Min(|g.bin|, BY2PG - Offset(g)))] else []
  }

  // Step 1: the pages with contents of the file, from position i.
  function FileCalls(g: Segment, i: nat): seq<Call>
    decreases |g.bin| - i
  {
    if i >= |g.bin| then []
    else [Call(g.va + i, 0, i, Min(|g.bin| - i, BY2PG))] + FileCalls(g, i + BY2PG)
  }

  // The position after step 1.
  function FileEnd(g: Segment, i: nat): nat
    decreases |g.bin| - i
  {
    if i >= |g.bin| then i else FileEnd(g, i + BY2PG)
  }

  // Step 2: pages without contents.
  function ZeroCalls(g: Segment, i: nat): seq<Call>
    decreases g.memsz - i
  {
    if i >= g.memsz then [] else [Call(g.va + i, 0, 0, 0)] + ZeroCalls(g, i + BY2PG)
  }

  function Calls(g: Segment): seq<Call> {
    FirstCall(g) + FileCalls(g, Start(g)) + ZeroCalls(g, FileEnd(g, Start(g)))
  }

  // ------------------------------------------------------------------ what the calls do

  predicate Sound(g: Segment, c: Call) { c.offset + c.len <= BY2PG && c.src + c.len <= |g.bin| }

  // page_alloc gives a zeroed page; the bytes of the file are copied over it.
  function NewPage(g: Segment, c: Call): Page
    requires Sound(g, c)
  {
    seq(BY2PG, j => if c.offset <= j < c.offset + c.len then g.bin[c.src + j - c.offset] else 0)
  }

  ghost predicate AllSound(g: Segment, calls: seq<Call>) { forall k :: 0 <= k < |calls| ==> Sound(g, calls[k]) }

  type Space = map<nat, Mapping>

  // page_insert maps the page that contains the address.
  function Apply(m: Space, g: Segment, calls: seq<Call>): Space
    requires AllSound(g, calls)
    decreases |calls|
  {
    if calls == [] then m
    else
      var c := calls[0];
      Apply(m[c.va / BY2PG := Mapping(NewPage(g, c), g.writable)], g, calls[1..])
  }

  lemma {:induction false} FileCallsSound(g: Segment, i: nat)
    ensures AllSound(g, FileCalls(g, i))
    decreases |g.bin| - i
  {
    if i < |g.bin| {
      FileCallsSound(g, i + BY2PG);
    }
  }

  lemma {:induction false} ZeroCallsSound(g: Segment, i: nat)
    ensures AllSound(g, ZeroCalls(g, i))
    decreases g.memsz - i
  {
    if i < g.memsz {
      ZeroCallsSound(g, i + BY2PG);
    }
  }

  /** The mapper's precondition: no copy leaves its page or reads beyond the file. */
  lemma CallsSound(g: Segment)
    ensures AllSound(g, Calls(g))
  {
    FileCallsSound(g, Start(g));
    ZeroCallsSound(g, FileEnd(g, Start(g)));
  }

  // ------------------------------------------------------------------ the image that the header asks for

  // Page v of the image: bytes of the file where they belong, zero elsewhere.
  function ImagePage(g: Segment, v: nat): Page {
    seq(BY2PG, j requires 0 <= j < BY2PG =>
      if g.va <= v * BY2PG + j < g.va + |g.bin| then g.bin[v * BY2PG + j - g.va] else 0)
  }

  // The pages from the first byte to the last.
  function PageCount(g: Segment): nat { (Offset(g) + Max(|g.bin|, g.memsz) + BY2PG - 1) / BY2PG }

  // Call k maps page first + k: every page once.
  ghost predicate OnceEach(g: Segment, calls: seq<Call>) {
    |calls| == PageCount(g) && forall k :: 0 <= k < |calls| ==> calls[k].va / BY2PG == g.va / BY2PG + k
  }

  // The segment starts on a page, or the file reaches the end of the first page, or there is
  // nothing after the file's bytes.
  predicate Fits(g: Segment) {
    Offset(g) == 0 || |g.bin| >= BY2PG - Offset(g) || g.memsz <= |g.bin|
  }

  // Both steps as one, from an aligned position.
  function RestCalls(g: Segment, i: nat): seq<Call>
    decreases Max(|g.bin|, g.memsz) - i
  {
    if i >= Max(|g.bin|, g.memsz) then []
    else [if i < |g.bin| then Call(g.va + i, 0, i, Min(|g.bin| - i, BY2PG)) else Call(g.va + i, 0, 0, 0)]
         + RestCalls(g, i + BY2PG)
  }

  lemma {:induction false} ZeroIsRest(g: Segment, i: nat)
    requires i >= |g.bin|
    ensures ZeroCalls(g, i) == RestCalls(g, i)
    decreases g.memsz - i
  {
    if i < g.memsz {
      ZeroIsRest(g, i + BY2PG);
    }
  }

  lemma {:induction false} StepsAreRest(g: Segment, i: nat)
    ensures FileCalls(g, i) + ZeroCalls(g, FileEnd(g, i)) == RestCalls(g, i)
    decreases |g.bin| - i
  {
    if i < |g.bin| {
      var c := Call(g.va + i, 0, i, Min(|g.bin| - i, BY2PG));
      StepsAreRest(g, i + BY2PG);
      assert FileCalls(g, i) + ZeroCalls(g, FileEnd(g, i))
          == [c] + (FileCalls(g, i + BY2PG) + ZeroCalls(g, FileEnd(g, i + BY2PG)));
    } else {
      ZeroIsRest(g, i);
    }
  }

  lemma {:induction false} RestPages(g: Segment, i: nat)
    requires (g.va + i) % BY2PG == 0
    ensures var calls := RestCalls(g, i); var top := Max(|g.bin|, g.memsz);
      && |calls| == (if i >= top then 0 else (top - i + BY2PG - 1) / BY2PG)
      && (forall k :: 0 <= k < |calls| ==> calls[k].va == g.va + i + k * BY2PG)
      && (forall k :: 0 <= k < |calls| ==>
            Sound(g, calls[k]) && calls[k].offset == 0 &&
            if i + k * BY2PG < |g.bin| then calls[k].src == i + k * BY2PG && calls[k].len == Min(|g.bin| - calls[k].src, BY2PG)
            else calls[k].len == 0)
    decreases Max(|g.bin|, g.memsz) - i
  {
    var calls := RestCalls(g, i);
    if i < Max(|g.bin|, g.memsz) {
      RestPages(g, i + BY2PG);
      var rest := RestCalls(g, i + BY2PG);
      forall k | 0 < k < |calls| ensures calls[k] == rest[k - 1] && i + BY2PG + (k - 1) * BY2PG == i + k * BY2PG {
      }
    }
  }

  // Every call of a segment that fits fills its page as the image wants it.
  ghost predicate FillsImage(g: Segment, c: Call) {
    Sound(g, c) && NewPage(g, c) == ImagePage(g, c.va / BY2PG)
  }

  lemma FirstFills(g: Segment)
    requires Offset(g) != 0
    ensures FillsImage(g, FirstCall(g)[0])
  {
    var c := FirstCall(g)[0];
    assert g.va == g.va / BY2PG * BY2PG + Offset(g);
    assert NewPage(g, c) == ImagePage(g, c.va / BY2PG);
  }

  lemma AlignedFills(g: Segment, c: Call, i: nat)
    requires (g.va + i) % BY2PG == 0 && c.va == g.va + i && c.offset == 0 && Sound(g, c)
    requires if i < |g.bin| then c.src == i && c.len == Min(|g.bin| - i, BY2PG) else c.len == 0
    ensures FillsImage(g, c)
  {
    assert c.va == c.va / BY2PG * BY2PG;
    assert NewPage(g, c) == ImagePage(g, c.va / BY2PG);
  }

  lemma AlignedPage(base: nat, k: nat)
    requires base % BY2PG == 0
    ensures (base + k * BY2PG) / BY2PG == base / BY2PG + k && (base + k * BY2PG) % BY2PG == 0
  {
    assert base + k * BY2PG == BY2PG * (base / BY2PG + k);
  }

  lemma RestFills(g: Segment, i: nat)
    requires (g.va + i) % BY2PG == 0
    ensures var calls := RestCalls(g, i);
      forall k :: 0 <= k < |calls| ==> FillsImage(g, calls[k]) && calls[k].va / BY2PG == (g.va + i) / BY2PG + k
  {
    var calls := RestCalls(g, i);
    RestPages(g, i);
    forall k | 0 <= k < |calls| ensures FillsImage(g, calls[k]) && calls[k].va / BY2PG == (g.va + i) / BY2PG + k {
      AlignedPage(g.va + i, k);
      AlignedFills(g, calls[k], i + k * BY2PG);
    }
  }

  /** A segment that fits: every page is mapped exactly once, in order, with its final contents. */
  lemma FitsOnce(g: Segment)
    requires Fits(g)
    ensures OnceEach(g, Calls(g)) && forall k :: 0 <= k < |Calls(g)| ==> FillsImage(g, Calls(g)[k])
  {
    var i, off, top := Start(g), Offset(g), Max(|g.bin|, g.memsz);
    StepsAreRest(g, i);
    assert Calls(g) == FirstCall(g) + RestCalls(g, i);
    if off == 0 {
      RestFills(g, 0);
      RestPages(g, 0);
    } else {
      FirstFills(g);
      if |g.bin| >= BY2PG - off {
        assert g.va + i == BY2PG * (g.va / BY2PG + 1);
        RestFills(g, i);
        RestPages(g, i);
        assert off + top == top - i + BY2PG;
      } else {
        assert RestCalls(g, i) == [];
      }
    }
  }

  lemma {:induction false} ApplyAppend(m: Space, g: Segment, a: seq<Call>, b: seq<Call>)
    requires AllSound(g, a)
    requires AllSound(g, b)
    ensures Apply(m, g, a + b) == Apply(Apply(m, g, a), g, b)
    decreases |a|
  {
    if a == [] {
      assert a + b == b;
    } else {
      assert (a + b)[1..] == a[1..] + b;
      ApplyAppend(m[a[0].va / BY2PG := Mapping(NewPage(g, a[0]), g.writable)], g, a[1..], b);
    }
  }

  // Pages that no call names stay as they are.
  lemma {:induction false} ApplyFrame(m: Space, g: Segment, calls: seq<Call>, v: nat)
    requires AllSound(g, calls)
    requires forall k :: 0 <= k < |calls| ==> calls[k].va / BY2PG != v
    ensures var r := Apply(m, g, calls); (v in r <==> v in m) && (v in m ==> r[v] == m[v])
    decreases |calls|
  {
    if calls != [] {
      ApplyFrame(m[calls[0].va / BY2PG := Mapping(NewPage(g, calls[0]), g.writable)], g, calls[1..], v);
    }
  }

  lemma ApplyOnce(m: Space, g: Segment, calls: seq<Call>, k: nat)
    requires AllSound(g, calls)
    requires k < |calls| && forall j :: k < j < |calls| ==> calls[j].va / BY2PG != calls[k].va / BY2PG
    ensures var r := Apply(m, g, calls); var v := calls[k].va / BY2PG;
      v in r && r[v] == Mapping(NewPage(g, calls[k]), g.writable)
  {
    assert calls == calls[..k] + calls[k..];
    ApplyAppend(m, g, calls[..k], calls[k..]);
    var a := Apply(m, g, calls[..k]);
    assert calls[k..][0] == calls[k] && calls[k..][1..] == calls[k + 1..];
    ApplyFrame(a[calls[k].va / BY2PG := Mapping(NewPage(g, calls[k]), g.writable)], g, calls[k + 1..], calls[k].va / BY2PG);
  }

  ghost predicate Loaded(g: Segment, m: Space, r: Space) {
    var first := g.va / BY2PG;
    forall v: nat :: if first <= v < first + PageCount(g) then v in r && r[v] == Mapping(ImagePage(g, v), g.writable)
                     else (v in r <==> v in m) && (v in m ==> r[v] == m[v])
  }

  /** The image: exactly the segment's pages are mapped, and they hold the file's bytes and zeros. */
  lemma LoadsImage(g: Segment, m: Space)
    requires Fits(g)
    ensures AllSound(g, Calls(g))
    ensures Loaded(g, m, Apply(m, g, Calls(g)))
  {
    FitsOnce(g);
    var calls, first := Calls(g), g.va / BY2PG;
    var r := Apply(m, g, calls);
    hide Calls, Apply;
    forall v: nat
      ensures if first <= v < first + PageCount(g) then v in r && r[v] == Mapping(ImagePage(g, v), g.writable)
              else (v in r <==> v in m) && (v in m ==> r[v] == m[v])
    {
      if first <= v < first + PageCount(g) {
        ApplyOnce(m, g, calls, v - first);
      } else {
        ApplyFrame(m, g, calls, v);
      }
    }
  }

  /** Byte k of the segment in memory, as the program header prescribes it. */
  lemma SegmentBytes(g: Segment, m: Space, r: Space, k: nat)
    requires Loaded(g, m, r) && k < Max(|g.bin|, g.memsz)
    ensures var a := g.va + k;
      && a / BY2PG in r && r[a / BY2PG].writable == g.writable
      && r[a / BY2PG].bytes[a % BY2PG] == if k < |g.bin| then g.bin[k] else 0
  {
    var a := g.va + k;
    var v, first := a / BY2PG, g.va / BY2PG;
    assert a == v * BY2PG + a % BY2PG && g.va == first * BY2PG + Offset(g);
    assert first <= v < first + PageCount(g);
    assert r[v].bytes == ImagePage(g, v);
  }

  // ------------------------------------------------------------------ the segments that do not fit

  lemma {:induction false} ZeroPages(g: Segment, i: nat)
    ensures forall k :: 0 <= k < |ZeroCalls(g, i)| ==> ZeroCalls(g, i)[k] == Call(g.va + i + k * BY2PG, 0, 0, 0)
    decreases g.memsz - i
  {
    if i < g.memsz {
      ZeroPages(g, i + BY2PG);
      var calls, rest := ZeroCalls(g, i), ZeroCalls(g, i + BY2PG);
      forall k | 0 < k < |calls| ensures calls[k] == Call(g.va + i + k * BY2PG, 0, 0, 0) {
        assert calls[k] == rest[k - 1];
        assert i + BY2PG + (k - 1) * BY2PG == i + k * BY2PG;
      }
    }
  }

  lemma MisfitCalls(g: Segment)
    requires !Fits(g)
    ensures Calls(g) == FirstCall(g) + ZeroCalls(g, |g.bin|)
    ensures |Calls(g)| >= 2 && Calls(g)[0].va / BY2PG == Calls(g)[1].va / BY2PG == g.va / BY2PG
    ensures forall k :: 2 <= k < |Calls(g)| ==> Calls(g)[k].va / BY2PG != g.va / BY2PG
    ensures Calls(g)[1].len == 0
  {
    ZeroPages(g, |g.bin|);
    var calls := Calls(g);
    assert calls == FirstCall(g) + ZeroCalls(g, |g.bin|);
    assert g.va == g.va / BY2PG * BY2PG + Offset(g);
    forall k | 2 <= k < |calls| ensures calls[k].va / BY2PG != g.va / BY2PG {
      assert calls[k].va >= g.va + BY2PG;
    }
  }

  /** Every page of the segment is mapped exactly once if and only if the segment fits. */
  lemma OnceExact(g: Segment)
    ensures OnceEach(g, Calls(g)) <==> Fits(g)
  {
    if Fits(g) {
      FitsOnce(g);
    } else {
      MisfitCalls(g);
    }
  }

  /** For a segment that does not fit, the first page is mapped again, and the file's bytes are lost. */
  lemma MisfitLosesFile(g: Segment, m: Space)
    requires !Fits(g)
    ensures AllSound(g, Calls(g))
    ensures var r := Apply(m, g, Calls(g)); var v := g.va / BY2PG;
      v in r && forall j :: 0 <= j < BY2PG ==> r[v].bytes[j] == 0
  {
    CallsSound(g);
    MisfitCalls(g);
    ApplyOnce(m, g, Calls(g), 1);
  }

  function Zeros(): Page { seq(BY2PG, j => 0) }

  // The pages that the calls for a segment that does not fit map, from its first one.
  function ZeroCount(g: Segment): nat
    requires !Fits(g)
  {
    (g.memsz - |g.bin| + BY2PG - 1) / BY2PG
  }

  lemma {:induction false} ZeroLength(g: Segment, i: nat)
    ensures |ZeroCalls(g, i)| == if i >= g.memsz then 0 else (g.memsz - i + BY2PG - 1) / BY2PG
    decreases g.memsz - i
  {
    if i < g.memsz {
      ZeroLength(g, i + BY2PG);
    }
  }

  lemma MisfitCall(g: Segment, k: nat)
    requires !Fits(g) && k < ZeroCount(g)
    ensures |Calls(g)| == 1 + ZeroCount(g) && Sound(g, Calls(g)[k + 1])
    ensures Calls(g)[k + 1].va / BY2PG == g.va / BY2PG + k && NewPage(g, Calls(g)[k + 1]) == Zeros()
  {
    MisfitCalls(g);
    ZeroPages(g, |g.bin|);
    ZeroLength(g, |g.bin|);
    var c := Calls(g)[k + 1];
    assert c == ZeroCalls(g, |g.bin|)[k] == Call(g.va + |g.bin| + k * BY2PG, 0, 0, 0);
    assert g.va == g.va / BY2PG * BY2PG + Offset(g);
    assert c.va == (g.va / BY2PG + k) * BY2PG + (Offset(g) + |g.bin|);
  }

  // Zero pages wherever a call maps one, and nothing else changes.
  lemma MisfitPage(g: Segment, m: Space, v: nat)
    requires !Fits(g)
    ensures AllSound(g, Calls(g))
    ensures var r, first := Apply(m, g, Calls(g)), g.va / BY2PG;
      if first <= v < first + ZeroCount(g) then v in r && r[v] == Mapping(Zeros(), g.writable)
      else (v in r <==> v in m) && (v in m ==> r[v] == m[v])
  {
    CallsSound(g);
    var calls, first := Calls(g), g.va / BY2PG;
    MisfitCall(g, 0);
    assert calls[0] == FirstCall(g)[0];
    hide Calls;
    forall j | 1 <= j < |calls| ensures calls[j].va / BY2PG == first + j - 1 { MisfitCall(g, j - 1); }
    if first <= v < first + ZeroCount(g) {
      MisfitCall(g, v - first);
      ApplyOnce(m, g, calls, v - first + 1);
    } else {
      ApplyFrame(m, g, calls, v);
    }
  }

  predicate AllZero(bin: seq<Byte>) { forall i :: 0 <= i < |bin| ==> bin[i] == 0 }

  // The file's bytes all belong on the first page.
  lemma MisfitImage(g: Segment, v: nat)
    requires !Fits(g) && v >= g.va / BY2PG
    ensures ImagePage(g, v) == Zeros() <==> v > g.va / BY2PG || AllZero(g.bin)
    ensures ZeroCount(g) <= PageCount(g) <= ZeroCount(g) + 1
  {
    var first := g.va / BY2PG;
    assert g.va == first * BY2PG + Offset(g);
    if v > first {
      assert v * BY2PG >= first * BY2PG + BY2PG;
      assert ImagePage(g, v) == Zeros();
    } else {
      if ImagePage(g, v) == Zeros() {
        forall i | 0 <= i < |g.bin| ensures g.bin[i] == 0 {
          assert ImagePage(g, v)[Offset(g) + i] == g.bin[i];
        }
      } else {
        var j :| 0 <= j < BY2PG && ImagePage(g, v)[j] != 0;
        assert g.bin[v * BY2PG + j - g.va] != 0;
      }
    }
  }

  // The page behind those that are mapped is part of the segment, and is not a zero page already.
  predicate LastMissing(g: Segment, m: Space)
    requires !Fits(g)
  {
    var v := g.va / BY2PG + ZeroCount(g);
    PageCount(g) > ZeroCount(g) && !(v in m && m[v] == Mapping(Zeros(), g.writable))
  }

  /**
   * The image is right exactly if the segment fits, or there was nothing but zeros to lose and the
   * steps taken from the end of the file's bytes still reach the last page.
   */
  lemma LoadedExact(g: Segment, m: Space)
    ensures AllSound(g, Calls(g))
    ensures Loaded(g, m, Apply(m, g, Calls(g))) <==> Fits(g) || (AllZero(g.bin) && !LastMissing(g, m))
  {
    CallsSound(g);
    if Fits(g) {
      LoadsImage(g, m);
    } else {
      var r, first, n := Apply(m, g, Calls(g)), g.va / BY2PG, ZeroCount(g);
      hide Calls, Apply, ImagePage;
      MisfitPage(g, m, first);
      MisfitPage(g, m, first + n);
      MisfitImage(g, first);
      MisfitImage(g, first + n);
      if AllZero(g.bin) && !LastMissing(g, m) {
        forall v: nat
          ensures if first <= v < first + PageCount(g) then v in r && r[v] == Mapping(ImagePage(g, v), g.writable)
                  else (v in r <==> v in m) && (v in m ==> r[v] == m[v])
        {
          MisfitPage(g, m, v);
          if v >= first {
            MisfitImage(g, v);
          }
        }
      } else if !AllZero(g.bin) {
        assert r[first] != Mapping(ImagePage(g, first), g.writable);
      } else {
        assert !(first + n in r && r[first + n] == Mapping(ImagePage(g, first + n), g.writable));
      }
    }
  }

  /** One byte of file and two of memory at address 1: the byte is not in the image. */
  lemma MisfitExample(m: Space)
    ensures var g := Segment(1, [7], 2, true); AllSound(g, Calls(g)) && !Loaded(g, m, Apply(m, g, Calls(g)))
  {
    var g := Segment(1, [7], 2, true);
    assert g.bin[0] == 7;
    LoadedExact(g, m);
  }

  /** No file bytes and 4096 of memory at address 1: the second page is not mapped. */
  lemma MisfitUnmapped(m: Space)
    requires 1 !in m
    ensures var g := Segment(1, [], 4096, true); AllSound(g, Calls(g)) && !Loaded(g, m, Apply(m, g, Calls(g)))
  {
    var g := Segment(1, [], 4096, true);
    assert ZeroCount(g) == 1 && PageCount(g) == 2;
    LoadedExact(g, m);
  }

  // ------------------------------------------------------------------ physical pages

  // The mapped pages, each mapped once; the page tables that exist, by directory index; and the
  // number of pages on the free list.
  datatype Mem = Mem(pages: Space, tables: set<nat>, free: nat)

  function Pdx(v: nat): nat { v / 1024 }

  /**
   * load_icode_mapper: page_alloc takes a page, and page_insert gives the page it replaces back or
   * takes another one for a missing page table. Without one, the first page is lost.
   */
  function MapOne(m: Mem, g: Segment, c: Call): (Mem, bool)
    requires Sound(g, c)
  {
    var v := c.va / BY2PG;
    var pages := m.pages[v := Mapping(NewPage(g, c), g.writable)];
    if m.free == 0 then (m, false)
    else if v in m.pages then (m.(pages := pages), true)
    else if Pdx(v) in m.tables then (m.(pages := pages, free := m.free - 1), true)
    else if m.free == 1 then (m.(free := 0), false)
    else (m.(pages := pages, tables := m.tables + {Pdx(v)}, free := m.free - 2), true)
  }

  function RunCalls(m: Mem, g: Segment, calls: seq<Call>): (Mem, bool)
    requires AllSound(g, calls)
    decreases |calls|
  {
    if calls == [] then (m, true) else
    var (n, ok) := MapOne(m, g, calls[0]);
    if ok then RunCalls(n, g, calls[1..]) else (n, false)
  }

  // When all calls succeed, they do what Apply says.
  lemma {:induction false} RunPages(m: Mem, g: Segment, calls: seq<Call>)
    requires AllSound(g, calls) && RunCalls(m, g, calls).1
    ensures RunCalls(m, g, calls).0.pages == Apply(m.pages, g, calls)
    decreases |calls|
  {
    if calls != [] {
      RunPages(MapOne(m, g, calls[0]).0, g, calls[1..]);
    }
  }

  // The pages that calls to unmapped pages take: one each, and one for every new page table.
  function Need(tables: set<nat>, calls: seq<Call>): nat
    decreases |calls|
  {
    if calls == [] then 0 else
    var i := Pdx(calls[0].va / BY2PG);
    (if i in tables then 1 else 2) + Need(tables + {i}, calls[1..])
  }

  /** On pages that are not mapped yet, loading succeeds exactly if there are that many free pages. */
  lemma {:induction false} NeedExact(m: Mem, g: Segment, calls: seq<Call>)
    requires AllSound(g, calls)
    requires forall k :: 0 <= k < |calls| ==> calls[k].va / BY2PG !in m.pages
    requires forall j, k :: 0 <= j < k < |calls| ==> calls[j].va / BY2PG != calls[k].va / BY2PG
    ensures RunCalls(m, g, calls).1 <==> Need(m.tables, calls) <= m.free
    ensures RunCalls(m, g, calls).1 ==> RunCalls(m, g, calls).0.free == m.free - Need(m.tables, calls)
    decreases |calls|
  {
    if calls != [] {
      var (n, ok) := MapOne(m, g, calls[0]);
      if ok {
        assert forall k :: 0 <= k < |calls[1..]| ==> calls[1..][k] == calls[k + 1];
        assert n.tables == m.tables + {Pdx(calls[0].va / BY2PG)};
        NeedExact(n, g, calls[1..]);
      }
    }
  }

  /** For a segment that fits, on fresh pages. */
  lemma FitsNeed(m: Mem, g: Segment)
    requires Fits(g) && forall v: nat :: g.va / BY2PG <= v < g.va / BY2PG + PageCount(g) ==> v !in m.pages
    ensures AllSound(g, Calls(g)) && (RunCalls(m, g, Calls(g)).1 <==> Need(m.tables, Calls(g)) <= m.free)
  {
    FitsOnce(g);
    hide Calls, RunCalls, Need;
    NeedExact(m, g, Calls(g));
  }

  // ------------------------------------------------------------------ the loader

  class AddressSpace {
    var pages: Space
    var tables: set<nat>
    var free: nat

    function M(): Mem
      reads this
    {
      Mem(pages, tables, free)
    }

    // load_icode_mapper
    method MapPage(g: Segment, c: Call) returns (ok: bool)
      requires Sound(g, c)
      modifies this
      ensures (M(), ok) == MapOne(old(M()), g, c)
    {
      if free == 0 {
        return false;
      }
      free := free - 1;
      var v := c.va / BY2PG;
      if v in pages {
        free := free + 1;
      } else if Pdx(v) !in tables {
        if free == 0 {
          return false;
        }
        free := free - 1;
        tables := tables + {Pdx(v)};
      }
      pages := pages[v := Mapping(NewPage(g, c), g.writable)];
      return true;
    }

    // The first page, when the segment does not start on a page; rest are the calls that follow.
    method LoadFirst(g: Segment, ghost rest: seq<Call>) returns (ok: bool, i: nat)
      requires AllSound(g, FirstCall(g) + rest)
      modifies this
      ensures AllSound(g, rest) && i == Start(g)
      ensures RunCalls(old(M()), g, FirstCall(g) + rest) == if ok then RunCalls(M(), g, rest) else (M(), false)
    {
      var offset := g.va % BY2PG;
      ghost var all := FirstCall(g) + rest;
      assert forall k :: 0 <= k < |rest| ==> rest[k] == all[k + |FirstCall(g)|];
      if offset == 0 {
        assert all == rest;
        return true, 0;
      }
      i := Min(|g.bin|, BY2PG - offset);
      assert all[1..] == rest;
      ok := MapPage(g, Call(g.va, offset, 0, i));
    }

    // Step 1 of elf_load_seg, from position start.
    method LoadFile(g: Segment, start: nat, ghost all: seq<Call>) returns (ok: bool, i: nat)
      requires all == FileCalls(g, start) + ZeroCalls(g, FileEnd(g, start)) && AllSound(g, all)
      modifies this
      ensures AllSound(g, ZeroCalls(g, FileEnd(g, start))) && (ok ==> i == FileEnd(g, start))
      ensures RunCalls(old(M()), g, all) == if ok then RunCalls(M(), g, ZeroCalls(g, FileEnd(g, start))) else (M(), false)
    {
      i := start;
      ZeroCallsSound(g, FileEnd(g, start));
      ghost var todo := all;
      while i < |g.bin|
        invariant todo == FileCalls(g, i) + ZeroCalls(g, FileEnd(g, i)) && AllSound(g, todo)
        invariant FileEnd(g, i) == FileEnd(g, start)
        invariant RunCalls(M(), g, todo) == RunCalls(old(M()), g, all)
      {
        FileNext(g, i);
        Tail(g, todo);
        hide FileCalls, ZeroCalls, AllSound, Sound;
        ok := MapPage(g, Call(g.va + i, 0, i, Min(|g.bin| - i, BY2PG)));
        if !ok {
          return;
        }
        todo := todo[1..];
        i := i + BY2PG;
      }
      assert todo == ZeroCalls(g, i);
      ok := true;
    }

    // Step 2, from position start.
    method LoadZeros(g: Segment, start: nat) returns (ok: bool)
      requires AllSound(g, ZeroCalls(g, start))
      modifies this
      ensures (M(), ok) == RunCalls(old(M()), g, ZeroCalls(g, start))
    {
      var i := start;
      while i < g.memsz
        invariant AllSound(g, ZeroCalls(g, i))
        invariant RunCalls(M(), g, ZeroCalls(g, i)) == RunCalls(old(M()), g, ZeroCalls(g, start))
      {
        ghost var todo := ZeroCalls(g, i);
        Tail(g, todo);
        assert todo[1..] == ZeroCalls(g, i + BY2PG);
        ok := MapPage(g, Call(g.va + i, 0, 0, 0));
        if !ok {
          return;
        }
        i := i + BY2PG;
      }
      ok := true;
    }

    // elf_load_seg: the calls of the segment, up to the first that finds no page.
    method ElfLoadSeg(g: Segment) returns (ok: bool)
      modifies this
      ensures AllSound(g, Calls(g)) && (M(), ok) == RunCalls(old(M()), g, Calls(g))
      ensures ok ==> pages == Apply(old(pages), g, Calls(g))
      ensures ok && Fits(g) ==> Loaded(g, old(pages), pages)
    {
      CallsSound(g);
      ghost var m := M();
      ghost var rest := FileCalls(g, Start(g)) + ZeroCalls(g, FileEnd(g, Start(g)));
      assert Calls(g) == FirstCall(g) + rest;
      hide FileCalls, ZeroCalls, FileEnd, FirstCall, Calls, Fits, Loaded, RunCalls, Sound;
      var i;
      ok, i := LoadFirst(g, rest);
      if ok {
        ok, i := LoadFile(g, i, rest);
        if ok {
          ok := LoadZeros(g, i);
        }
      }
      if ok {
        RunPages(m, g, Calls(g));
        if Fits(g) {
          LoadsImage(g, m.pages);
        }
      }
    }
  }

  lemma Tail(g: Segment, calls: seq<Call>)
    requires AllSound(g, calls) && calls != []
    ensures AllSound(g, calls[1..]) && Sound(g, calls[0])
  {
  }

  lemma FileNext(g: Segment, i: nat)
    requires i < |g.bin|
    ensures var calls := FileCalls(g, i) + ZeroCalls(g, FileEnd(g, i));
      && |calls| > 0 && calls[0] == Call(g.va + i, 0, i, Min(|g.bin| - i, BY2PG))
      && calls[1..] == FileCalls(g, i + BY2PG) + ZeroCalls(g, FileEnd(g, i + BY2PG))
  {
  }
}
