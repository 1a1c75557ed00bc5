/**
 * Argument marshalling onto the stack page of a new env: init_stack of user/lib/spawn.c. The page is
 * filled at UTEMP in the parent and seen by the child below USTACKTOP. Words are little endian.
 */
module InitStack {
  import opened Common

  const BY2PG: nat := 4096
  const USTACKTOP: nat := 0x7f3f_e000
  const UTEMP: nat := 0x003f_e000

  // The characters of a C string, without the terminating zero.
  type CString = s: seq<Byte> | 0 !in s

  // ------------------------------------------------------------------ memory

  // A 32-bit word in memory.
  function Word(w: int): (s: seq<Byte>)
    ensures |s| == 4
  {
    [w % 256, w / 256 % 256, w / 0x1_0000 % 256, w / 0x100_0000 % 256]
  }

  // The four bytes at offset a.
  function Four(page: seq<Byte>, a: int): seq<Byte> {
    if 0 <= a && a + 4 <= |page| then page[a..a + 4] else []
  }

  // The word at offset a of a page.
  function LoadWord(page: seq<Byte>, a: nat): nat
    requires a + 4 <= |page|
  {
    var b0: int, b1: int, b2: int, b3: int := page[a], page[a + 1], page[a + 2], page[a + 3];
    b0 + 256 * b1 + 0x1_0000 * b2 + 0x100_0000 * b3
  }

  lemma WordRoundTrip(page: seq<Byte>, a: nat, w: nat)
    requires w < 0x1_0000_0000 && Four(page, a) == Word(w)
    ensures a + 4 <= |page| && LoadWord(page, a) == w
  {
    var b := page[a..a + 4];
    assert page[a] == b[0] && page[a + 1] == b[1] && page[a + 2] == b[2] && page[a + 3] == b[3];
    assert w / 256 / 256 == w / 0x1_0000 && w / 0x1_0000 / 256 == w / 0x100_0000;
  }

  // The string at offset a: the bytes up to the first zero, or to the end of the page.
  function LoadString(page: seq<Byte>, a: nat): (s: seq<Byte>)
    requires a <= |page|
    decreases |page| - a
  {
    if a == |page| || page[a] == 0 then [] else [page[a]] + LoadString(page, a + 1)
  }

  lemma {:induction false} StringRoundTrip(page: seq<Byte>, a: nat, s: CString)
    requires a + |s| + 1 <= |page| && page[a..a + |s|] == s && page[a + |s|] == 0
    ensures LoadString(page, a) == s
    decreases |s|
  {
    if s != [] {
      assert s[0] in s;
      assert page[a] == page[a..a + |s|][0];
      var rest: CString := s[1..];
      assert page[a + 1..a + 1 + |rest|] == page[a..a + |s|][1..];
      StringRoundTrip(page, a + 1, rest);
    }
  }

  // ------------------------------------------------------------------ the layout

  // The strings with their zeros, one behind the other.
  function Flat(argv: seq<CString>): seq<Byte> {
    if argv == [] then [] else Flat(argv[..|argv| - 1]) + argv[|argv| - 1] + [0]
  }

  function Round4(n: nat): nat { (n + 3) / 4 * 4 }

  // Everything fits into the page: the strings, the array with its last word, argv and argc.
  predicate Fits(argv: seq<CString>) { Round4(|Flat(argv)|) + 4 * (|argv| + 3) <= BY2PG }

  // Offsets in the page.
  function StringsAt(argv: seq<CString>): int { BY2PG - |Flat(argv)| }

  function ArgsAt(argv: seq<CString>): int { BY2PG - Round4(|Flat(argv)|) - 4 * (|argv| + 1) }

  // The address in the child of offset a.
  function ChildAddr(a: int): int { USTACKTOP - BY2PG + a }

  function StringAt(argv: seq<CString>, i: nat): int
    requires i <= |argv|
  {
    StringsAt(argv) + |Flat(argv[..i])|
  }

  // The word stored at args[i]: the address of string i, and for i == argc that of the byte before
  // the end of the strings.
  function ArgWord(argv: seq<CString>, i: nat): int
    requires i <= |argv|
  {
    if i < |argv| then ChildAddr(StringAt(argv, i)) else USTACKTOP - 1
  }

  lemma {:induction false} FlatPrefix(argv: seq<CString>, i: nat)
    requires i <= |argv|
    ensures |Flat(argv[..i])| <= |Flat(argv)| && Flat(argv)[..|Flat(argv[..i])|] == Flat(argv[..i])
    ensures i < |argv| ==>
      && Flat(argv[..i + 1]) == Flat(argv[..i]) + argv[i] + [0]
      && |Flat(argv[..i])| + |argv[i]| + 1 <= |Flat(argv)|
      && Flat(argv)[|Flat(argv[..i])|..|Flat(argv[..i])| + |argv[i]|] == argv[i]
      && Flat(argv)[|Flat(argv[..i])| + |argv[i]|] == 0
    decreases |argv|
  {
    if i < |argv| {
      assert argv[..i + 1][..i] == argv[..i];
      var init := argv[..|argv| - 1];
      assert init[..i] == argv[..i];
      if i < |argv| - 1 {
        FlatPrefix(init, i);
      }
    } else {
      assert argv[..i] == argv;
    }
  }

  // ------------------------------------------------------------------ what the child reads

  // The first n words of the array at args are in place.
  ghost predicate WordsUpTo(page: seq<Byte>, args: int, argv: seq<CString>, n: nat)
    requires n <= |argv| + 1
  {
    forall i :: 0 <= i < n ==> Four(page, args + 4 * i) == Word(ArgWord(argv, i))
  }

  // The page as init_stack leaves it.
  ghost predicate Marshalled(page: seq<Byte>, argv: seq<CString>) {
    && Fits(argv) && |page| == BY2PG
    && page[StringsAt(argv)..] == Flat(argv)
    && WordsUpTo(page, ArgsAt(argv), argv, |argv| + 1)
    && Four(page, ArgsAt(argv) - 4) == Word(ChildAddr(ArgsAt(argv)))
    && Four(page, ArgsAt(argv) - 8) == Word(|argv|)
  }

  predicate InStack(addr: int, n: nat) { USTACKTOP - BY2PG <= addr && addr + n <= USTACKTOP }

  function ChildWord(page: seq<Byte>, addr: int): nat
    requires |page| == BY2PG && InStack(addr, 4)
  {
    LoadWord(page, addr - (USTACKTOP - BY2PG))
  }

  function ChildString(page: seq<Byte>, addr: int): seq<Byte>
    requires |page| == BY2PG && InStack(addr, 1)
  {
    LoadString(page, addr - (USTACKTOP - BY2PG))
  }

  lemma ReadArg(page: seq<Byte>, argv: seq<CString>, i: nat)
    requires |page| == BY2PG && |Flat(argv)| <= BY2PG && page[StringsAt(argv)..] == Flat(argv) && i < |argv|
    ensures 0 <= StringAt(argv, i) < BY2PG && LoadString(page, StringAt(argv, i)) == argv[i]
  {
    FlatPrefix(argv, i);
    var from, at := StringsAt(argv), StringAt(argv, i);
    var s, k := argv[i], |Flat(argv[..i])|;
    assert page[at..at + |s|] == page[from..][k..k + |s|];
    assert page[at + |s|] == page[from..][k + |s|];
    StringRoundTrip(page, at, s);
  }

  // The arguments as the child finds them: argc strings, through the pointers at args.
  ghost predicate ArgsRead(page: seq<Byte>, args: int, argv: seq<CString>)
    requires |page| == BY2PG && InStack(args, 4 * |argv|)
  {
    forall i :: 0 <= i < |argv| ==> PointsTo(page, args + 4 * i, argv[i])
  }

  // The word at addr is the address of string s.
  ghost predicate PointsTo(page: seq<Byte>, addr: int, s: seq<Byte>)
    requires |page| == BY2PG && InStack(addr, 4)
  {
    var ptr := ChildWord(page, addr); InStack(ptr, 1) && ChildString(page, ptr) == s
  }

  lemma ReadPointer(page: seq<Byte>, argv: seq<CString>, a: nat, i: nat)
    requires |page| == BY2PG && |Flat(argv)| <= BY2PG && page[StringsAt(argv)..] == Flat(argv)
    requires i < |argv| && Four(page, a) == Word(ArgWord(argv, i)) && a + 4 <= BY2PG
    ensures PointsTo(page, ChildAddr(a), argv[i])
  {
    hide LoadWord, Word, Flat, Four;
    ReadArg(page, argv, i);
    WordRoundTrip(page, a, ArgWord(argv, i));
  }

  lemma ReadArgs(page: seq<Byte>, argv: seq<CString>, a: nat)
    requires |page| == BY2PG && |Flat(argv)| <= BY2PG && page[StringsAt(argv)..] == Flat(argv)
    requires a + 4 * (|argv| + 1) <= BY2PG && WordsUpTo(page, a, argv, |argv| + 1)
    ensures ArgsRead(page, ChildAddr(a), argv)
  {
    hide Word, Flat, Four, PointsTo, ArgWord, StringsAt;
    forall i | 0 <= i < |argv| ensures PointsTo(page, ChildAddr(a) + 4 * i, argv[i]) {
      ReadPointer(page, argv, a + 4 * i, i);
    }
  }

  /**
   * Reading argc and argv[0..argc) through the child's addresses, from the stack pointer on, gives
   * the original strings; everything read lies in the stack page.
   */
  lemma ArgsRoundTrip(page: seq<Byte>, argv: seq<CString>, sp: int)
    requires Marshalled(page, argv) && sp == ChildAddr(ArgsAt(argv) - 8)
    ensures sp % 4 == 0 && InStack(sp, 8) && ChildWord(page, sp) == |argv|
    ensures var args := ChildWord(page, sp + 4); InStack(args, 4 * (|argv| + 1)) && ArgsRead(page, args, argv)
  {
    var a := ArgsAt(argv);
    ArgsAligned(argv);
    hide Word, LoadWord, ArgsAt, Fits, Flat, ArgsRead;
    WordRoundTrip(page, a - 8, |argv|);
    WordRoundTrip(page, a - 4, ChildAddr(a));
    ReadArgs(page, argv, a);
  }

  lemma ArgsAligned(argv: seq<CString>)
    requires Fits(argv)
    ensures var a := ArgsAt(argv); a % 4 == 0 && 8 <= a && a + 4 * (|argv| + 1) <= StringsAt(argv)
    ensures ChildAddr(ArgsAt(argv) - 8) % 4 == 0 && |Flat(argv)| <= BY2PG
  {
    var r := (|Flat(argv)| + 3) / 4;
    assert ArgsAt(argv) == 4 * (1024 - r - |argv| - 1);
    assert ChildAddr(ArgsAt(argv) - 8) == 4 * (0x1fcf_f400 + 1024 - r - |argv| - 3);
  }

  /** The array is not terminated by a null pointer: its last word points to the byte below USTACKTOP. */
  lemma LastWord(page: seq<Byte>, argv: seq<CString>)
    requires Marshalled(page, argv)
    ensures 0 <= ArgsAt(argv) && InStack(ChildAddr(ArgsAt(argv)) + 4 * |argv|, 4)
    ensures ChildWord(page, ChildAddr(ArgsAt(argv)) + 4 * |argv|) == USTACKTOP - 1 != 0
  {
    WordRoundTrip(page, ArgsAt(argv) + 4 * |argv|, ArgWord(argv, |argv|));
  }

  // ------------------------------------------------------------------ writing the page

  ghost predicate Splice(p: seq<Byte>, q: seq<Byte>, a: nat, s: seq<Byte>) {
    a + |s| <= |p| == |q| && q[..a] == p[..a] && q[a..a + |s|] == s && q[a + |s|..] == p[a + |s|..]
  }

  lemma SpliceApart(p: seq<Byte>, q: seq<Byte>, a: nat, s: seq<Byte>, lo: nat, hi: nat)
    requires Splice(p, q, a, s) && lo <= hi <= |p| && (hi <= a || a + |s| <= lo)
    ensures q[lo..hi] == p[lo..hi]
    ensures hi == lo + 4 ==> Four(q, lo) == Four(p, lo)
  {
    var e := a + |s|;
    forall k | lo <= k < hi ensures q[k] == p[k] {
      if k < a {
        assert q[k] == q[..a][k] && p[k] == p[..a][k];
      } else {
        assert q[k] == q[e..][k - e] && p[k] == p[e..][k - e];
      }
    }
  }

  method StoreWord(page: array<Byte>, a: nat, w: int)
    requires a + 4 <= page.Length
    modifies page
    ensures Splice(old(page[..]), page[..], a, Word(w))
  {
    page[a], page[a + 1], page[a + 2], page[a + 3] := w % 256, w / 256 % 256, w / 0x1_0000 % 256, w / 0x100_0000 % 256;
    ghost var q := page[..];
    assert q[a..a + 4] == Word(w);
    assert q[..a] == old(page[..])[..a] && q[a + 4..] == old(page[..])[a + 4..];
  }

  method StoreString(page: array<Byte>, a: nat, s: CString) returns (end: nat)
    requires a + |s| + 1 <= page.Length
    modifies page
    ensures end == a + |s| + 1 && Splice(old(page[..]), page[..], a, s + [0])
  {
    var j := 0;
    while j < |s|
      invariant 0 <= j <= |s|
      invariant page[..a] == old(page[..a]) && page[a..a + j] == s[..j] && page[a + j..] == old(page[a + j..])
    {
      page[a + j] := s[j];
      j := j + 1;
    }
    page[a + j] := 0;
    assert s[..|s|] == s;
    ghost var q := page[..];
    assert q[a..a + |s| + 1] == s + [0];
    assert q[..a] == old(page[..])[..a] && q[a + |s| + 1..] == old(page[..])[a + |s| + 1..];
    end := a + j + 1;
  }

  datatype Result = Ok(sp: nat) | NoMem

  method CopyStrings(page: array<Byte>, argv: seq<CString>)
    requires page.Length == BY2PG && Fits(argv)
    modifies page
    ensures page[..][StringsAt(argv)..] == Flat(argv)
  {
    var ctemp := StringsAt(argv);
    var i := 0;
    while i < |argv|
      invariant 0 <= i <= |argv| && ctemp == StringAt(argv, i) <= BY2PG
      invariant page[..][StringsAt(argv)..ctemp] == Flat(argv[..i])
    {
      FlatPrefix(argv, i);
      ghost var p := page[..];
      var end := StoreString(page, ctemp, argv[i]);
      SpliceApart(p, page[..], ctemp, argv[i] + [0], StringsAt(argv), ctemp);
      ghost var q := page[..];
      assert q[StringsAt(argv)..end] == q[StringsAt(argv)..ctemp] + q[ctemp..end];
      ctemp := end;
      i := i + 1;
    }
    assert argv[..|argv|] == argv;
    assert page[..][StringsAt(argv)..BY2PG] == page[..][StringsAt(argv)..];
  }

  method StoreArgs(page: array<Byte>, argv: seq<CString>)
    requires page.Length == BY2PG && Fits(argv) && page[..][StringsAt(argv)..] == Flat(argv)
    modifies page
    ensures page[..][StringsAt(argv)..] == Flat(argv) && WordsUpTo(page[..], ArgsAt(argv), argv, |argv| + 1)
  {
    var args := ArgsAt(argv);
    assert 8 <= args && args + 4 * (|argv| + 1) <= StringsAt(argv);
    var ctemp := ChildAddr(StringsAt(argv));
    var i := 0;
    while i < |argv|
      invariant 0 <= i <= |argv| && ctemp == ChildAddr(StringAt(argv, i))
      invariant page[..][StringsAt(argv)..] == Flat(argv) && WordsUpTo(page[..], args, argv, i)
    {
      FlatPrefix(argv, i);
      StoreArg(page, argv, args, i, ctemp);
      ctemp := ctemp + |argv[i]| + 1;
      i := i + 1;
    }
    assert argv[..|argv|] == argv;
    ctemp := ctemp - 1;
    StoreArg(page, argv, args, |argv|, ctemp);
  }

  // args[i] = w
  method StoreArg(page: array<Byte>, argv: seq<CString>, args: nat, i: nat, w: int)
    requires page.Length == BY2PG && |Flat(argv)| <= BY2PG && i <= |argv| && w == ArgWord(argv, i)
    requires args + 4 * (|argv| + 1) <= StringsAt(argv)
    requires page[..][StringsAt(argv)..] == Flat(argv) && WordsUpTo(page[..], args, argv, i)
    modifies page
    ensures page[..][StringsAt(argv)..] == Flat(argv) && WordsUpTo(page[..], args, argv, i + 1)
  {
    ghost var p := page[..];
    StoreWord(page, args + 4 * i, w);
    ghost var q := page[..];
    KeepStrings(p, q, argv, args + 4 * i, Word(w));
    forall k | 0 <= k < i ensures Four(q, args + 4 * k) == Word(ArgWord(argv, k)) {
      SpliceApart(p, q, args + 4 * i, Word(w), args + 4 * k, args + 4 * k + 4);
    }
    assert Four(q, args + 4 * i) == Word(w);
  }

  lemma KeepStrings(p: seq<Byte>, q: seq<Byte>, argv: seq<CString>, a: nat, s: seq<Byte>)
    requires |Flat(argv)| <= BY2PG == |p| && Splice(p, q, a, s) && a + |s| <= StringsAt(argv)
    requires p[StringsAt(argv)..] == Flat(argv)
    ensures q[StringsAt(argv)..] == Flat(argv)
  {
    SpliceApart(p, q, a, s, StringsAt(argv), BY2PG);
    assert p[StringsAt(argv)..] == p[StringsAt(argv)..BY2PG] && q[StringsAt(argv)..] == q[StringsAt(argv)..BY2PG];
  }

  // A word below the array: argv or argc of main.
  method Push(page: array<Byte>, argv: seq<CString>, args: nat, a: nat, w: int)
    requires page.Length == BY2PG && |Flat(argv)| <= BY2PG && a + 4 <= args
    requires args + 4 * (|argv| + 1) <= StringsAt(argv)
    requires page[..][StringsAt(argv)..] == Flat(argv) && WordsUpTo(page[..], args, argv, |argv| + 1)
    modifies page
    ensures page[..][StringsAt(argv)..] == Flat(argv) && WordsUpTo(page[..], args, argv, |argv| + 1)
    ensures Splice(old(page[..]), page[..], a, Word(w)) && Four(page[..], a) == Word(w)
  {
    ghost var p := page[..];
    StoreWord(page, a, w);
    ghost var q := page[..];
    KeepStrings(p, q, argv, a, Word(w));
    forall k | 0 <= k <= |argv| ensures Four(q, args + 4 * k) == Word(ArgWord(argv, k)) {
      SpliceApart(p, q, a, Word(w), args + 4 * k, args + 4 * k + 4);
    }
  }

  // init_stack, for the page that syscall_mem_alloc maps at UTEMP.
  method MarshalArgs(page: array<Byte>, argv: seq<CString>) returns (r: Result)
    requires page.Length == BY2PG
    modifies page
    ensures r.NoMem? <==> !Fits(argv)
    ensures r.Ok? ==> Marshalled(page[..], argv) && r.sp == ChildAddr(ArgsAt(argv) - 8)
    ensures r.NoMem? ==> page[..] == old(page[..])
  {
    var argc, tot := 0, 0;
    while argc < |argv|
      invariant 0 <= argc <= |argv| && tot == |Flat(argv[..argc])| && page[..] == old(page[..])
    {
      FlatPrefix(argv, argc);
      tot := tot + |argv[argc]| + 1;
      argc := argc + 1;
    }
    assert argv[..argc] == argv;
    assert tot == |Flat(argv)|;
    if Round4(tot) + 4 * (argc + 3) > BY2PG {
      return NoMem;
    }
    CopyStrings(page, argv);
    StoreArgs(page, argv);
    var args := ArgsAt(argv);
    assert 8 <= args && args + 4 * (|argv| + 1) <= StringsAt(argv);
    Push(page, argv, args, args - 4, USTACKTOP - UTEMP - BY2PG + (UTEMP + args));
    ghost var p := page[..];
    Push(page, argv, args, args - 8, argc);
    SpliceApart(p, page[..], args - 8, Word(argc), args - 4, args);
    return Ok(USTACKTOP - UTEMP - BY2PG + (UTEMP + args - 8));
  }
}
