/**
 * Path names and directories of the file server (fs/fs.c): walk_path, dir_lookup, dir_alloc_file,
 * file_open, file_create and file_remove. A struct File is identified by its place; a directory is
 * the sequence of the places in its blocks.
 */
module Paths {
  import opened Common

  const MAXNAMELEN: nat := 128
  const FILE2BLK: nat := 16

  // An unused entry has the empty name. slots: the entries of a directory, all its blocks in order.
  datatype Node = Node(name: string, isDir: bool, slots: seq<nat>)

  // Places from next on have not been used yet.
  datatype Tree = Tree(root: nat, node: map<nat, Node>, next: nat)

  // What walk_path answers: the file and its directory (none for the root); not found although the
  // directory was found; not found; a component too long.
  datatype Walked =
    | Found(dir: Option<nat>, file: nat)
    | Missing(inDir: nat, last: string)
    | NotFound
    | BadPath

  // ------------------------------------------------------------------ components of a path

  // The length of the leading part without a slash.
  function Run(s: string): (k: nat)
    ensures k <= |s| && (forall i :: 0 <= i < k ==> s[i] != '/') && (k < |s| ==> s[k] == '/')
  {
    if s == "" || s[0] == '/' then 0 else 1 + Run(s[1..])
  }

  function Components(s: string): seq<string>
    decreases |s|
  {
    if s == "" then []
    else if s[0] == '/' then Components(s[1..])
    else [s[..Run(s)]] + Components(s[Run(s)..])
  }

  ghost predicate ProperName(name: string) { name != "" && '/' !in name }

  ghost predicate Proper(cs: seq<string>) { forall i :: 0 <= i < |cs| ==> ProperName(cs[i]) }

  lemma {:induction false} ComponentsProper(s: string)
    ensures Proper(Components(s))
    decreases |s|
  {
    if s != "" {
      if s[0] == '/' {
        ComponentsProper(s[1..]);
      } else {
        assert ProperName(s[..Run(s)]);
        ComponentsProper(s[Run(s)..]);
      }
    }
  }

  lemma {:induction false} RunIs(s: string, k: nat)
    requires k <= |s| && (forall i :: 0 <= i < k ==> s[i] != '/') && (k < |s| ==> s[k] == '/')
    ensures Run(s) == k
  {
  }

  // The first component of a string that starts with k characters without a slash.
  lemma FirstComponent(s: string, k: nat)
    requires 0 < k <= |s| && (forall i :: 0 <= i < k ==> s[i] != '/') && (k < |s| ==> s[k] == '/')
    ensures Components(s) == [s[..k]] + Components(s[k..])
  {
    RunIs(s, k);
  }

  /** A slash separates, and how many there are does not matter. */
  lemma {:induction false} ComponentsSplit(a: string, b: string)
    ensures Components(a + "/" + b) == Components(a) + Components(b)
    decreases |a|
  {
    var s := a + "/" + b;
    if a == "" {
      assert s[1..] == b;
    } else if a[0] == '/' {
      assert s[1..] == a[1..] + "/" + b;
      ComponentsSplit(a[1..], b);
    } else {
      var k := Run(a);
      assert forall i :: 0 <= i < |a| ==> s[i] == a[i];
      assert s[..k] == a[..k] && s[k..] == a[k..] + "/" + b;
      FirstComponent(a, k);
      FirstComponent(s, k);
      hide Components, Run;
      ComponentsSplit(a[k..], b);
    }
  }

  lemma ComponentsName(name: string)
    requires ProperName(name)
    ensures Components(name) == [name]
  {
    RunIs(name, |name|);
    assert name[..|name|] == name && name[|name|..] == "";
  }

  function Join(cs: seq<string>): string {
    if cs == [] then "" else cs[0] + "/" + Join(cs[1..])
  }

  /** Every list of names is the component list of some path. */
  lemma {:induction false} JoinComponents(cs: seq<string>)
    requires Proper(cs)
    ensures Components(Join(cs)) == cs
  {
    if cs != [] {
      ComponentsSplit(cs[0], Join(cs[1..]));
      ComponentsName(cs[0]);
      JoinComponents(cs[1..]);
    }
  }

  // ------------------------------------------------------------------ looking up

  function NodeAt(t: Tree, id: nat): Node {
    if id in t.node then t.node[id] else Node("", false, [])
  }

  // dir_lookup: the first entry of that name.
  function FindFrom(t: Tree, slots: seq<nat>, name: string): (r: Option<nat>)
    ensures r.Some? ==> r.value in slots && NodeAt(t, r.value).name == name
    ensures r.None? ==> forall i :: 0 <= i < |slots| ==> NodeAt(t, slots[i]).name != name
  {
    if slots == [] then None
    else if NodeAt(t, slots[0]).name == name then Some(slots[0])
    else FindFrom(t, slots[1..], name)
  }

  function Lookup(t: Tree, d: nat, name: string): Option<nat> { FindFrom(t, NodeAt(t, d).slots, name) }

  // One component further.
  function Step(t: Tree, w: Walked, name: string): Walked {
    match w
    case Found(_, file) =>
      if |name| >= MAXNAMELEN then BadPath
      else if !NodeAt(t, file).isDir then NotFound
      else (match Lookup(t, file, name)
            case Some(id) => Found(Some(file), id)
            case None => Missing(file, name))
    case Missing(_, _) => NotFound
    case NotFound => NotFound
    case BadPath => BadPath
  }

  function Resolve(t: Tree, cs: seq<string>): Walked {
    if cs == [] then Found(None, t.root)
    else Step(t, Resolve(t, cs[..|cs| - 1]), cs[|cs| - 1])
  }

  // ------------------------------------------------------------------ trees

  ghost predicate Slot(t: Tree, d: nat, i: nat) { i < |NodeAt(t, d).slots| }

  ghost function Entry(t: Tree, d: nat, i: nat): nat
    requires Slot(t, d, i)
  {
    NodeAt(t, d).slots[i]
  }

  /**
   * Every entry is in one place of one directory, the root is in none, and an unused entry has no
   * blocks.
   */
  ghost predicate TreeInv(t: Tree) {
    && t.root in t.node
    && (forall id :: id in t.node ==> id < t.next)
    && (forall d: nat, i: nat :: Slot(t, d, i) ==> Entry(t, d, i) in t.node && Entry(t, d, i) != t.root)
    && (forall d: nat, i: nat, e: nat, j: nat :: Slot(t, d, i) && Slot(t, e, j) && Entry(t, d, i) == Entry(t, e, j) ==>
          d == e && i == j)
    && (forall id :: id in t.node && t.node[id].name == "" && id != t.root ==> t.node[id].slots == [])
  }

  ghost predicate UniqueNames(t: Tree) {
    forall d: nat, i: nat, j: nat :: Slot(t, d, i) && Slot(t, d, j) && NodeAt(t, Entry(t, d, i)).name != "" ==>
      NodeAt(t, Entry(t, d, i)).name == NodeAt(t, Entry(t, d, j)).name ==> i == j
  }

  // A found file other than the root is an entry of its directory, under the last component.
  lemma FoundEntry(t: Tree, cs: seq<string>)
    requires Proper(cs) && cs != [] && Resolve(t, cs).Found?
    ensures var w := Resolve(t, cs); var p := Resolve(t, cs[..|cs| - 1]);
      && p.Found? && w.dir == Some(p.file) && NodeAt(t, p.file).isDir
      && Lookup(t, p.file, cs[|cs| - 1]) == Some(w.file)
      && w.file in NodeAt(t, p.file).slots && NodeAt(t, w.file).name == cs[|cs| - 1] != ""
  {
  }

  lemma PrefixProper(cs: seq<string>, i: nat)
    requires Proper(cs) && i <= |cs|
    ensures Proper(cs[..i])
  {
  }

  /** Different directories, different files: a file has one depth. */
  lemma {:induction false} OneDepth(t: Tree, cs: seq<string>, ds: seq<string>)
    requires TreeInv(t) && Proper(cs) && Proper(ds)
    requires Resolve(t, cs).Found? && Resolve(t, ds).Found? && Resolve(t, cs).file == Resolve(t, ds).file
    ensures |cs| == |ds| && Resolve(t, cs) == Resolve(t, ds)
    decreases |cs|
  {
    hide UniqueNames;
    if cs != [] {
      FoundEntry(t, cs);
      InSlots(t, Resolve(t, cs[..|cs| - 1]).file, Resolve(t, cs).file);
    }
    if ds != [] {
      FoundEntry(t, ds);
      InSlots(t, Resolve(t, ds[..|ds| - 1]).file, Resolve(t, ds).file);
    }
    if cs != [] && ds != [] {
      PrefixProper(cs, |cs| - 1);
      PrefixProper(ds, |ds| - 1);
      OneDepth(t, cs[..|cs| - 1], ds[..|ds| - 1]);
    }
  }

  lemma InSlots(t: Tree, d: nat, id: nat)
    requires TreeInv(t) && id in NodeAt(t, d).slots
    ensures id in t.node && id != t.root
    ensures forall e :: id in NodeAt(t, e).slots ==> e == d
  {
    var i :| 0 <= i < |NodeAt(t, d).slots| && NodeAt(t, d).slots[i] == id;
    assert Slot(t, d, i);
    forall e | id in NodeAt(t, e).slots ensures e == d {
      var j :| 0 <= j < |NodeAt(t, e).slots| && NodeAt(t, e).slots[j] == id;
      assert Slot(t, e, j);
    }
  }

  // ------------------------------------------------------------------ file_create

  function NewIds(next: nat): (r: seq<nat>)
    ensures |r| == FILE2BLK && forall i :: 0 <= i < FILE2BLK ==> r[i] == next + i
    ensures forall id :: next <= id < next + FILE2BLK ==> r[id - next] == id && id in r
    ensures forall id :: id in r ==> next <= id < next + FILE2BLK
  {
    var r := seq(FILE2BLK, i requires i >= 0 => next + i);
    IntervalMembers(r, next);
    r
  }

  lemma IntervalMembers(r: seq<nat>, next: nat)
    requires forall i :: 0 <= i < |r| ==> r[i] == next + i
    ensures forall id :: next <= id < next + |r| ==> r[id - next] == id && id in r
    ensures forall id :: id in r ==> next <= id < next + |r|
  {
    forall id | next <= id < next + |r| ensures r[id - next] == id && id in r {
      assert r[id - next] == id;
    }
    forall id | id in r ensures next <= id < next + |r| {
      var i :| 0 <= i < |r| && r[i] == id;
    }
  }

  // What the struct Files of one block hold. A new directory block is zero only if it was not in the
  // cache; otherwise it holds what its last owner left there.
  type Block = b: seq<Node> | |b| == FILE2BLK witness seq(FILE2BLK, i => Node("", false, []))

  ghost predicate BlankBlock(block: Block) {
    forall i :: 0 <= i < FILE2BLK ==> block[i].name == "" && block[i].slots == []
  }

  // dir_alloc_file when no entry is unused: the directory gets one more block.
  function Grow(t: Tree, d: nat, block: Block): Tree
    requires d in t.node
  {
    var ids := NewIds(t.next);
    var more := map id | id in ids :: block[id - t.next];
    Tree(t.root, t.node[d := t.node[d].(slots := t.node[d].slots + ids)] + more, t.next + FILE2BLK)
  }

  // dir_alloc_file: the first unused entry, or the first one of a new block.
  function AllocEntry(t: Tree, d: nat, block: Block): (Tree, nat)
    requires d in t.node
  {
    match Lookup(t, d, "")
    case Some(e) => (t, e)
    case None => (Grow(t, d, block), t.next)
  }

  // The entry gets its name, and its type as the server sets it.
  function Fill(t: Tree, e: nat, name: string, isDir: bool): Tree
    requires e in t.node
  {
    t.(node := t.node[e := t.node[e].(name := name, isDir := isDir)])
  }

  lemma {:induction false} FindAppend(t: Tree, a: seq<nat>, b: seq<nat>, name: string)
    ensures FindFrom(t, a + b, name) == if FindFrom(t, a, name).Some? then FindFrom(t, a, name) else FindFrom(t, b, name)
  {
    if a == [] {
      assert a + b == b;
    } else {
      assert (a + b)[1..] == a[1..] + b;
      FindAppend(t, a[1..], b, name);
    }
  }

  lemma {:induction false} FindSame(t: Tree, u: Tree, slots: seq<nat>, name: string)
    requires forall i :: 0 <= i < |slots| ==> (NodeAt(u, slots[i]).name == name <==> NodeAt(t, slots[i]).name == name)
    ensures FindFrom(u, slots, name) == FindFrom(t, slots, name)
  {
    if slots != [] {
      FindSame(t, u, slots[1..], name);
    }
  }

  lemma GrowSlots(t: Tree, d: nat, block: Block, c: nat, i: nat)
    requires TreeInv(t) && d in t.node && BlankBlock(block) && Slot(Grow(t, d, block), c, i)
    ensures var u := Grow(t, d, block);
      if Slot(t, c, i) then Entry(u, c, i) == Entry(t, c, i) && NodeAt(u, Entry(t, c, i)).name == NodeAt(t, Entry(t, c, i)).name
      else c == d && Entry(u, c, i) == t.next + i - |NodeAt(t, d).slots|
           && NodeAt(u, Entry(u, c, i)).name == "" && NodeAt(u, Entry(u, c, i)).slots == []
  {
    assert Slot(t, c, i) ==> Entry(t, c, i) in t.node;
  }

  lemma GrowKeeps(t: Tree, d: nat, block: Block)
    requires TreeInv(t) && d in t.node && (NodeAt(t, d).name != "" || d == t.root) && BlankBlock(block)
    ensures TreeInv(Grow(t, d, block)) && (UniqueNames(t) ==> UniqueNames(Grow(t, d, block)))
    ensures var u := Grow(t, d, block); t.next in NodeAt(u, d).slots && u.node[t.next].name == ""
  {
    var u := Grow(t, d, block);
    assert forall id :: id in u.node <==> id in t.node || t.next <= id < u.next;
    forall c: nat, i: nat | Slot(u, c, i) ensures Entry(u, c, i) in u.node && Entry(u, c, i) != u.root {
      GrowSlots(t, d, block, c, i);
    }
    forall c: nat, i: nat, e: nat, j: nat | Slot(u, c, i) && Slot(u, e, j) && Entry(u, c, i) == Entry(u, e, j)
      ensures c == e && i == j
    {
      GrowSlots(t, d, block, c, i);
      GrowSlots(t, d, block, e, j);
    }
    assert TreeInv(u);
    if UniqueNames(t) {
      forall c: nat, i: nat, j: nat | Slot(u, c, i) && Slot(u, c, j) && NodeAt(u, Entry(u, c, i)).name != ""
        && NodeAt(u, Entry(u, c, i)).name == NodeAt(u, Entry(u, c, j)).name
        ensures i == j
      {
        GrowSlots(t, d, block, c, i);
        GrowSlots(t, d, block, c, j);
      }
    }
    assert NodeAt(u, d).slots[|NodeAt(t, d).slots|] == t.next;
  }

  // e is an unused entry of directory d, which has no entry called name.
  ghost predicate CanFill(t: Tree, d: nat, e: nat, name: string) {
    && TreeInv(t) && e in t.node && t.node[e].name == "" && e in NodeAt(t, d).slots
    && ProperName(name) && Lookup(t, d, name) == None
  }

  lemma {:induction false} FindOnly(t: Tree, slots: seq<nat>, e: nat, name: string)
    requires e in slots && forall i :: 0 <= i < |slots| ==> (NodeAt(t, slots[i]).name == name <==> slots[i] == e)
    ensures FindFrom(t, slots, name) == Some(e)
  {
    if slots[0] != e {
      FindOnly(t, slots[1..], e, name);
    }
  }

  lemma FillLookup(t: Tree, d: nat, e: nat, name: string, isDir: bool, c: nat, other: string)
    requires CanFill(t, d, e, name) && other != ""
    ensures var u := Fill(t, e, name, isDir);
      && Lookup(u, c, other) == (if c == d && other == name then Some(e) else Lookup(t, c, other))
      && (c != e ==> NodeAt(u, c).isDir == NodeAt(t, c).isDir)
  {
    var u := Fill(t, e, name, isDir);
    var s := NodeAt(t, c).slots;
    if c == d && other == name {
      FindOnly(u, s, e, name);
    } else {
      if other == name {
        InSlots(t, d, e);
        assert e !in s;
      }
      FindSame(t, u, s, other);
    }
  }

  // The unused entry is not reached by any path.
  lemma UnusedNotFound(t: Tree, e: nat, cs: seq<string>)
    requires TreeInv(t) && Proper(cs) && e in t.node && t.node[e].name == "" && e != t.root
    ensures Resolve(t, cs).Found? ==> Resolve(t, cs).file != e
  {
    if cs != [] && Resolve(t, cs).Found? {
      FoundEntry(t, cs);
    }
  }

  /**
   * Filling entry e of directory d: what was found is still found, the missing name in d is found
   * as e, and nothing else becomes found.
   */
  lemma {:induction false} FillResolve(t: Tree, d: nat, e: nat, name: string, isDir: bool, cs: seq<string>)
    requires CanFill(t, d, e, name) && Proper(cs)
    ensures var u := Fill(t, e, name, isDir); var was, now := Resolve(t, cs), Resolve(u, cs);
      && (was.Found? ==> now == was)
      && (was == Missing(d, name) ==> now == Found(Some(d), e))
      && (now.Found? ==> was.Found? || was == Missing(d, name))
    decreases |cs|
  {
    var u := Fill(t, e, name, isDir);
    if cs != [] {
      var n := |cs| - 1;
      var p, q := Resolve(t, cs[..n]), Resolve(u, cs[..n]);
      PrefixProper(cs, n);
      FillResolve(t, d, e, name, isDir, cs[..n]);
      InSlots(t, d, e);
      UnusedNotFound(t, e, cs[..n]);
      assert ProperName(cs[n]);
      if q.Found? {
        FillLookup(t, d, e, name, isDir, q.file, cs[n]);
        if q.file == e {
          assert NodeAt(u, e).slots == [];
        }
      }
      hide Lookup, CanFill, TreeInv, Fill;
      assert Resolve(t, cs) == Step(t, p, cs[n]) && Resolve(u, cs) == Step(u, q, cs[n]);
    }
  }

  lemma FillTwice(t: Tree, e: nat, name: string, isDir: bool)
    requires e in t.node
    ensures var named := t.node[e := t.node[e].(name := name)];
      t.(node := named[e := named[e].(isDir := isDir)]) == Fill(t, e, name, isDir)
  {
    var named := t.node[e := t.node[e].(name := name)];
    assert named[e := named[e].(isDir := isDir)] == t.node[e := t.node[e].(name := name, isDir := isDir)];
  }

  lemma FillKeeps(t: Tree, d: nat, e: nat, name: string, isDir: bool)
    requires CanFill(t, d, e, name)
    ensures TreeInv(Fill(t, e, name, isDir)) && (UniqueNames(t) ==> UniqueNames(Fill(t, e, name, isDir)))
  {
    var u := Fill(t, e, name, isDir);
    InSlots(t, d, e);
    assert forall c: nat, i: nat :: Slot(u, c, i) <==> Slot(t, c, i);
    assert forall c: nat, i: nat :: Slot(u, c, i) ==> Entry(u, c, i) == Entry(t, c, i);
    assert TreeInv(u);
    if UniqueNames(t) {
      forall c: nat, i: nat, j: nat | Slot(u, c, i) && Slot(u, c, j) && NodeAt(u, Entry(u, c, i)).name != ""
        && NodeAt(u, Entry(u, c, i)).name == NodeAt(u, Entry(u, c, j)).name
        ensures i == j
      {
        FillName(t, d, e, name, isDir, c, i);
        FillName(t, d, e, name, isDir, c, j);
      }
    }
  }

  // After filling, an entry called name in d is e.
  lemma FillName(t: Tree, d: nat, e: nat, name: string, isDir: bool, c: nat, i: nat)
    requires CanFill(t, d, e, name) && Slot(t, c, i)
    ensures var x := Entry(t, c, i); var u := Fill(t, e, name, isDir);
      if x == e then c == d && NodeAt(u, x).name == name
      else NodeAt(u, x).name == NodeAt(t, x).name && (c == d ==> NodeAt(t, x).name != name)
  {
    InSlots(t, d, e);
    assert Entry(t, c, i) in NodeAt(t, c).slots;
  }

  lemma FoundLive(t: Tree, cs: seq<string>)
    requires TreeInv(t) && Proper(cs) && Resolve(t, cs).Found?
    ensures var f := Resolve(t, cs).file; f in t.node && (f == t.root || t.node[f].name != "")
    ensures var f := Resolve(t, cs).file; cs != [] ==> f != t.root
  {
    if cs != [] {
      FoundEntry(t, cs);
      InSlots(t, Resolve(t, cs[..|cs| - 1]).file, Resolve(t, cs).file);
    }
  }

  // The tree and the entry after a successful create of a missing name.
  function Create(t: Tree, d: nat, name: string, isDir: bool, block: Block): (Tree, nat)
    requires TreeInv(t) && d in t.node
  {
    var (g, e) := AllocEntry(t, d, block);
    (if e in g.node then Fill(g, e, name, isDir) else g, e)
  }

  // Paths that were found are found as before.
  ghost predicate KeepsFound(t: Tree, u: Tree) {
    forall cs :: Proper(cs) && Resolve(t, cs).Found? ==> Resolve(u, cs) == Resolve(t, cs)
  }

  // Paths that missed name in directory d are now found as e.
  ghost predicate Appears(t: Tree, u: Tree, d: nat, e: nat, name: string) {
    forall cs :: Proper(cs) && Resolve(t, cs) == Missing(d, name) ==> Resolve(u, cs) == Found(Some(d), e)
  }

  // No other path becomes found.
  ghost predicate NothingElse(t: Tree, u: Tree, d: nat, name: string) {
    forall cs :: Proper(cs) && Resolve(u, cs).Found? ==> Resolve(t, cs).Found? || Resolve(t, cs) == Missing(d, name)
  }

  // ---- a new block, whatever it holds

  // A name that a path can ask for.
  ghost predicate Askable(name: string) { ProperName(name) && |name| < MAXNAMELEN }

  // The tree with the new block and its first entry filled.
  function Grown(t: Tree, d: nat, name: string, isDir: bool, block: Block): Tree
    requires d in t.node
  {
    Fill(Grow(t, d, block), t.next, name, isDir)
  }

  // Lookups in a directory that was there before: the old entries first, then those of the new block.
  lemma GrownLookup(t: Tree, d: nat, name: string, isDir: bool, block: Block, c: nat, other: string)
    requires TreeInv(t) && d in t.node && c in t.node
    ensures var u := Grown(t, d, name, isDir, block);
      && Lookup(u, c, other) == (if c == d && Lookup(t, d, other).None? then FindFrom(u, NewIds(t.next), other)
                                 else Lookup(t, c, other))
      && NodeAt(u, c).isDir == NodeAt(t, c).isDir
  {
    var u := Grown(t, d, name, isDir, block);
    var s := NodeAt(t, c).slots;
    forall i | 0 <= i < |s| ensures NodeAt(u, s[i]).name == NodeAt(t, s[i]).name {
      assert Slot(t, c, i) && Entry(t, c, i) == s[i];
    }
    FindSame(t, u, s, other);
    if c == d {
      FindAppend(u, s, NewIds(t.next), other);
    }
  }

  // The entries of the new block, by name: the first is the new file.
  lemma GrownEntries(t: Tree, d: nat, name: string, isDir: bool, block: Block)
    requires TreeInv(t) && d in t.node
    ensures var u := Grown(t, d, name, isDir, block); var ids := NewIds(t.next);
      && t.next in u.node && u.node[t.next] == Node(name, isDir, block[0].slots)
      && (forall i :: 1 <= i < FILE2BLK ==> NodeAt(u, ids[i]).name == block[i].name)
      && FindFrom(u, ids, name) == Some(t.next)
  {
    var u, ids := Grown(t, d, name, isDir, block), NewIds(t.next);
    assert d < t.next && ids[0] == t.next;
    forall i | 0 <= i < FILE2BLK ensures ids[i] == t.next + i && ids[i] in u.node {
    }
  }

  lemma {:induction false} GrownKeepsFound(t: Tree, d: nat, name: string, isDir: bool, block: Block, cs: seq<string>)
    requires TreeInv(t) && d in t.node && Proper(cs) && Resolve(t, cs).Found?
    ensures Resolve(Grown(t, d, name, isDir, block), cs) == Resolve(t, cs)
    decreases |cs|
  {
    if cs != [] {
      var n := |cs| - 1;
      PrefixProper(cs, n);
      GrownKeepsFound(t, d, name, isDir, block, cs[..n]);
      FoundLive(t, cs[..n]);
      GrownLookup(t, d, name, isDir, block, Resolve(t, cs[..n]).file, cs[n]);
      hide TreeInv, Lookup, Grown;
    }
  }

  lemma GrownAppears(t: Tree, d: nat, name: string, isDir: bool, block: Block, cs: seq<string>)
    requires TreeInv(t) && d in t.node && Proper(cs) && Resolve(t, cs) == Missing(d, name)
    ensures Resolve(Grown(t, d, name, isDir, block), cs) == Found(Some(d), t.next)
  {
    var n := |cs| - 1;
    PrefixProper(cs, n);
    GrownKeepsFound(t, d, name, isDir, block, cs[..n]);
    GrownLookup(t, d, name, isDir, block, d, name);
    GrownEntries(t, d, name, isDir, block);
  }

  // Nothing in the new block shows: its other names cannot be asked for, or are hidden behind entries
  // that were there before, and the new file has no entries that can be asked for.
  ghost predicate Unseen(t: Tree, d: nat, name: string, isDir: bool, block: Block)
    requires d in t.node
  {
    && (forall i :: 1 <= i < FILE2BLK && Askable(block[i].name) && block[i].name != name ==>
          Lookup(t, d, block[i].name).Some?)
    && (isDir ==> forall x :: Askable(x) ==> FindFrom(Grown(t, d, name, isDir, block), block[0].slots, x).None?)
  }

  lemma {:induction false} UnseenNothingElse(t: Tree, d: nat, name: string, isDir: bool, block: Block, cs: seq<string>)
    requires TreeInv(t) && d in t.node && Proper(cs) && Unseen(t, d, name, isDir, block)
    requires Resolve(Grown(t, d, name, isDir, block), cs).Found?
    ensures Resolve(t, cs).Found? || (Resolve(t, cs) == Missing(d, name) && Resolve(Grown(t, d, name, isDir, block), cs).file == t.next)
    decreases |cs|
  {
    if cs != [] {
      var n, u := |cs| - 1, Grown(t, d, name, isDir, block);
      PrefixProper(cs, n);
      UnseenNothingElse(t, d, name, isDir, block, cs[..n]);
      assert Askable(cs[n]);
      if Resolve(t, cs[..n]).Found? {
        GrownKeepsFound(t, d, name, isDir, block, cs[..n]);
        FoundLive(t, cs[..n]);
        GrownLookup(t, d, name, isDir, block, Resolve(t, cs[..n]).file, cs[n]);
        if cs[n] != name {
          BlockFind(t, d, name, isDir, block, cs[n]);
        } else {
          GrownEntries(t, d, name, isDir, block);
        }
      } else {
        GrownEntries(t, d, name, isDir, block);
      }
    }
  }

  // A name other than the new one, found in the new block, is the name of one of its other entries.
  lemma BlockFind(t: Tree, d: nat, name: string, isDir: bool, block: Block, other: string)
    requires TreeInv(t) && d in t.node && other != name
    ensures FindFrom(Grown(t, d, name, isDir, block), NewIds(t.next), other).Some?
       <==> exists i :: 1 <= i < FILE2BLK && block[i].name == other
  {
    GrownEntries(t, d, name, isDir, block);
    var u, ids := Grown(t, d, name, isDir, block), NewIds(t.next);
    var r := FindFrom(u, ids, other);
    if r.Some? {
      var i :| 0 <= i < |ids| && ids[i] == r.value;
      assert i != 0;
      assert block[i].name == other;
    } else {
      assert forall i :: 1 <= i < FILE2BLK ==> NodeAt(u, ids[i]).name != other;
    }
  }

  // A name left in the new block becomes visible.
  lemma StaleName(t: Tree, d: nat, name: string, isDir: bool, block: Block, cs: seq<string>, i: nat)
    requires TreeInv(t) && d in t.node && Proper(cs) && Resolve(t, cs) == Missing(d, name)
    requires 1 <= i < FILE2BLK && Askable(block[i].name) && block[i].name != name && Lookup(t, d, block[i].name).None?
    ensures var ds := cs[..|cs| - 1] + [block[i].name];
      Proper(ds) && Resolve(Grown(t, d, name, isDir, block), ds).Found? && Resolve(t, ds) == Missing(d, block[i].name)
  {
    var n, u, x := |cs| - 1, Grown(t, d, name, isDir, block), block[i].name;
    PrefixProper(cs, n);
    GrownKeepsFound(t, d, name, isDir, block, cs[..n]);
    StepTo(t, cs[..n], x);
    StepTo(u, cs[..n], x);
    GrownLookup(t, d, name, isDir, block, d, x);
    BlockFind(t, d, name, isDir, block, x);
    hide Grown, Lookup, FindFrom, TreeInv, Resolve;
    assert Resolve(t, cs[..n]).Found? && Resolve(t, cs[..n]).file == d && NodeAt(t, d).isDir by { MissingDir(t, cs); }
  }

  lemma MissingDir(t: Tree, cs: seq<string>)
    requires Resolve(t, cs).Missing?
    ensures cs != [] && Resolve(t, cs[..|cs| - 1]).Found?
    ensures var p := Resolve(t, cs[..|cs| - 1]); p.file == Resolve(t, cs).inDir && NodeAt(t, p.file).isDir
  {
  }

  // An entry left in the new file becomes visible, when the new file is a directory.
  lemma StaleChild(t: Tree, d: nat, name: string, block: Block, cs: seq<string>, x: string)
    requires TreeInv(t) && d in t.node && Proper(cs) && Resolve(t, cs) == Missing(d, name)
    requires Askable(x) && FindFrom(Grown(t, d, name, true, block), block[0].slots, x).Some?
    ensures Proper(cs + [x]) && Resolve(Grown(t, d, name, true, block), cs + [x]).Found? && Resolve(t, cs + [x]) == NotFound
  {
    var u := Grown(t, d, name, true, block);
    GrownAppears(t, d, name, true, block, cs);
    GrownEntries(t, d, name, true, block);
    StepTo(t, cs, x);
    StepTo(u, cs, x);
    hide Grown, FindFrom, TreeInv, Resolve;
  }

  lemma SeenSomethingElse(t: Tree, d: nat, name: string, isDir: bool, block: Block, cs: seq<string>)
    requires TreeInv(t) && d in t.node && Proper(cs) && Resolve(t, cs) == Missing(d, name)
    requires !Unseen(t, d, name, isDir, block)
    ensures !NothingElse(t, Grown(t, d, name, isDir, block), d, name)
  {
    MissingDir(t, cs);
    hide Grown, Lookup, FindFrom, TreeInv, Resolve;
    if i :| 1 <= i < FILE2BLK && Askable(block[i].name) && block[i].name != name && Lookup(t, d, block[i].name).None? {
      StaleName(t, d, name, isDir, block, cs, i);
      var ds := cs[..|cs| - 1] + [block[i].name];
      assert Proper(ds) && Resolve(Grown(t, d, name, isDir, block), ds).Found? && !Resolve(t, ds).Found?;
    } else {
      var x :| Askable(x) && FindFrom(Grown(t, d, name, isDir, block), block[0].slots, x).Some?;
      StaleChild(t, d, name, block, cs, x);
    }
  }

  // ---- the result

  // Nothing stale comes to light: there was an unused entry, or nothing of the new block shows.
  ghost predicate CleanEntry(t: Tree, d: nat, name: string, isDir: bool, block: Block)
    requires d in t.node
  {
    Lookup(t, d, "").Some? || Unseen(t, d, name, isDir, block)
  }

  /**
   * file_create of a path whose last component is missing in directory d. Whatever a new directory
   * block holds, the path is then found as the new entry, and paths that were found are found as
   * before. No other path becomes found exactly when nothing stale comes to light. With a blank
   * block the tree stays a tree with unique names.
   */
  lemma CreateFacts(t: Tree, cs: seq<string>, d: nat, name: string, isDir: bool, block: Block)
    requires TreeInv(t) && Proper(cs) && Resolve(t, cs) == Missing(d, name)
    ensures d in t.node
    ensures var (u, e) := Create(t, d, name, isDir, block);
      && KeepsFound(t, u) && Appears(t, u, d, e, name) && Resolve(u, cs) == Found(Some(d), e)
      && (NothingElse(t, u, d, name) <==> CleanEntry(t, d, name, isDir, block))
      && e in u.node && u.node[e].name == name && u.node[e].isDir == isDir && u.root == t.root
      && (Lookup(t, d, "").Some? || BlankBlock(block) ==>
            TreeInv(u) && (UniqueNames(t) ==> UniqueNames(u)) && u.node[e].slots == [] && NothingElse(t, u, d, name))
  {
    MissingName(t, cs);
    if Lookup(t, d, "").Some? {
      CreateReused(t, d, name, isDir, block);
    } else {
      CreateGrown(t, cs, d, name, isDir, block);
    }
  }

  lemma CreateReused(t: Tree, d: nat, name: string, isDir: bool, block: Block)
    requires TreeInv(t) && d in t.node && ProperName(name) && Lookup(t, d, name) == None && Lookup(t, d, "").Some?
    ensures var (u, e) := Create(t, d, name, isDir, block);
      && KeepsFound(t, u) && Appears(t, u, d, e, name) && NothingElse(t, u, d, name)
      && e in u.node && u.node[e] == Node(name, isDir, []) && u.root == t.root
      && TreeInv(u) && (UniqueNames(t) ==> UniqueNames(u))
  {
    var e := Lookup(t, d, "").value;
    InSlots(t, d, e);
    assert CanFill(t, d, e, name);
    FillKeeps(t, d, e, name, isDir);
    var u := Fill(t, e, name, isDir);
    assert u == Create(t, d, name, isDir, block).0;
    assert t.node[e].slots == [];
    hide Fill, UniqueNames, TreeInv, Create;
    forall ds | Proper(ds)
      ensures var was, now := Resolve(t, ds), Resolve(u, ds);
        && (was.Found? ==> now == was)
        && (was == Missing(d, name) ==> now == Found(Some(d), e))
        && (now.Found? ==> was.Found? || was == Missing(d, name))
    {
      FillResolve(t, d, e, name, isDir, ds);
    }
  }

  lemma CreateGrown(t: Tree, cs: seq<string>, d: nat, name: string, isDir: bool, block: Block)
    requires TreeInv(t) && d in t.node && Proper(cs) && Resolve(t, cs) == Missing(d, name) && Lookup(t, d, "").None?
    ensures var u := Grown(t, d, name, isDir, block);
      && (u, t.next) == Create(t, d, name, isDir, block)
      && KeepsFound(t, u) && Appears(t, u, d, t.next, name) && u.root == t.root
      && (NothingElse(t, u, d, name) <==> Unseen(t, d, name, isDir, block))
      && t.next in u.node && u.node[t.next] == Node(name, isDir, block[0].slots)
      && (BlankBlock(block) ==> TreeInv(u) && (UniqueNames(t) ==> UniqueNames(u)) && NothingElse(t, u, d, name))
  {
    var u := Grown(t, d, name, isDir, block);
    GrownEntries(t, d, name, isDir, block);
    if BlankBlock(block) {
      BlankGrown(t, cs, d, name, isDir, block);
    }
    hide Grown, TreeInv, UniqueNames;
    forall ds | Proper(ds) && Resolve(t, ds).Found? ensures Resolve(u, ds) == Resolve(t, ds) {
      GrownKeepsFound(t, d, name, isDir, block, ds);
    }
    forall ds | Proper(ds) && Resolve(t, ds) == Missing(d, name) ensures Resolve(u, ds) == Found(Some(d), t.next) {
      GrownAppears(t, d, name, isDir, block, ds);
    }
    if Unseen(t, d, name, isDir, block) {
      hide Unseen;
      forall ds | Proper(ds) && Resolve(u, ds).Found? ensures Resolve(t, ds).Found? || Resolve(t, ds) == Missing(d, name) {
        UnseenNothingElse(t, d, name, isDir, block, ds);
      }
    } else {
      SeenSomethingElse(t, d, name, isDir, block, cs);
    }
  }

  lemma BlankGrown(t: Tree, cs: seq<string>, d: nat, name: string, isDir: bool, block: Block)
    requires TreeInv(t) && d in t.node && Proper(cs) && Resolve(t, cs) == Missing(d, name) && BlankBlock(block)
    ensures var u := Grown(t, d, name, isDir, block);
      TreeInv(u) && (UniqueNames(t) ==> UniqueNames(u)) && Unseen(t, d, name, isDir, block)
  {
    MissingName(t, cs);
    GrowKeeps(t, d, block);
    var g := Grow(t, d, block);
    GrownNone(t, d, block, name);
    FillKeeps(g, d, t.next, name, isDir);
  }

  lemma GrownNone(t: Tree, d: nat, block: Block, name: string)
    requires TreeInv(t) && d in t.node && BlankBlock(block) && name != "" && Lookup(t, d, name) == None
    ensures Lookup(Grow(t, d, block), d, name) == None
  {
    var g, s, ids := Grow(t, d, block), NodeAt(t, d).slots, NewIds(t.next);
    forall i | 0 <= i < |s| ensures NodeAt(g, s[i]).name == NodeAt(t, s[i]).name {
      assert Slot(t, d, i) && Entry(t, d, i) == s[i];
    }
    assert forall i :: 0 <= i < |ids| ==> NodeAt(g, ids[i]).name == "";
    assert NodeAt(g, d).slots == s + ids;
    hide Grow, TreeInv, BlankBlock;
    FindSame(t, g, s, name);
    FindAppend(g, s, ids, name);
  }

  // A root directory without entries, and a block in which a removed file left its name "x".
  function EmptyRoot(): Tree { Tree(0, map[0 := Node("/", true, [])], 1) }

  function StaleBlock(): Block { seq(FILE2BLK, i => Node(if i == 1 then "x" else "", false, [])) }

  /** Creating "a" in the empty root with that block brings "x" back as well. */
  lemma StaleNameExample()
    ensures TreeInv(EmptyRoot()) && Resolve(EmptyRoot(), ["x"]) == Missing(0, "x")
    ensures var u := Create(EmptyRoot(), 0, "a", false, StaleBlock()).0;
      Resolve(u, ["a"]) == Found(Some(0), 1) && Resolve(u, ["x"]).Found?
  {
    var t, block := EmptyRoot(), StaleBlock();
    EmptyRootMisses("a");
    EmptyRootMisses("x");
    assert block[1].name == "x" && Askable("x") && Proper(["a"]) && ["a"][..0] + ["x"] == ["x"];
    hide Resolve, Grown, Lookup, Create, FindFrom, StaleBlock, EmptyRoot;
    CreateGrown(t, ["a"], 0, "a", false, block);
    StaleName(t, 0, "a", false, block, ["a"], 1);
  }

  lemma EmptyRootMisses(name: string)
    requires |name| < MAXNAMELEN
    ensures var t := EmptyRoot();
      TreeInv(t) && 0 in t.node && t.next == 1 && Resolve(t, [name]) == Missing(0, name)
      && Lookup(t, 0, name) == None && Lookup(t, 0, "") == None
  {
    var t := EmptyRoot();
    assert NodeAt(t, 0).slots == [];
    StepTo(t, [], name);
    assert [] + [name] == [name];
  }

  // ------------------------------------------------------------------ file_remove

  // The file is truncated to nothing and its name cleared.
  function Remove(t: Tree, f: nat): Tree
    requires f in t.node
  {
    t.(node := t.node[f := t.node[f].(name := "", slots := [])])
  }

  // A walk by cs comes through file f.
  ghost predicate Through(t: Tree, cs: seq<string>, f: nat) {
    (Resolve(t, cs).Found? && Resolve(t, cs).file == f) || (cs != [] && Through(t, cs[..|cs| - 1], f))
  }

  // Another entry of d has the name of f.
  ghost predicate Namesake(t: Tree, d: nat, f: nat) {
    exists g :: g in NodeAt(t, d).slots && g != f && NodeAt(t, g).name == NodeAt(t, f).name
  }

  lemma {:induction false} FindOther(t: Tree, u: Tree, slots: seq<nat>, f: nat, name: string)
    requires forall i :: 0 <= i < |slots| && slots[i] != f ==> NodeAt(u, slots[i]).name == NodeAt(t, slots[i]).name
    requires NodeAt(u, f).name != name && FindFrom(t, slots, name) != Some(f)
    ensures FindFrom(u, slots, name) == FindFrom(t, slots, name)
  {
    if slots != [] && NodeAt(t, slots[0]).name != name {
      FindOther(t, u, slots[1..], f, name);
    }
  }

  // Lookups that do not answer f, and are not made in f, are as before.
  lemma RemoveLookup(t: Tree, f: nat, c: nat, name: string)
    requires f in t.node && name != "" && c != f && Lookup(t, c, name) != Some(f)
    ensures Lookup(Remove(t, f), c, name) == Lookup(t, c, name)
  {
    FindOther(t, Remove(t, f), NodeAt(t, c).slots, f, name);
  }

  lemma {:induction false} RemoveAside(t: Tree, f: nat, cs: seq<string>)
    requires TreeInv(t) && f in t.node && Proper(cs) && !Through(t, cs, f)
    ensures Resolve(Remove(t, f), cs) == Resolve(t, cs)
    decreases |cs|
  {
    if cs != [] {
      var n := |cs| - 1;
      var p := Resolve(t, cs[..n]);
      PrefixProper(cs, n);
      RemoveAside(t, f, cs[..n]);
      assert ProperName(cs[n]);
      if p.Found? && |cs[n]| < MAXNAMELEN && NodeAt(t, p.file).isDir {
        RemoveLookup(t, f, p.file, cs[n]);
      }
    }
  }

  // The directory of f is not reached through f.
  lemma {:induction false} NotThrough(t: Tree, f: nat, cs: seq<string>, n: nat)
    requires TreeInv(t) && Proper(cs) && Resolve(t, cs).Found? && Resolve(t, cs).file == f && n < |cs|
    ensures !Through(t, cs[..n], f)
    decreases n
  {
    PrefixProper(cs, n);
    if Resolve(t, cs[..n]).Found? && Resolve(t, cs[..n]).file == f {
      OneDepth(t, cs, cs[..n]);
    }
    if n > 0 {
      assert cs[..n][..n - 1] == cs[..n - 1];
      NotThrough(t, f, cs, n - 1);
    }
  }

  /**
   * After file_remove of a file other than the root, its path is not found, exactly when the
   * directory has no other entry of that name; otherwise it is found as another file.
   */
  lemma RemovedNotFound(t: Tree, cs: seq<string>)
    requires TreeInv(t) && Proper(cs) && cs != [] && Resolve(t, cs).Found?
    ensures var w := Resolve(t, cs); w.dir.Some? && w.file in t.node
    ensures var w := Resolve(t, cs); var now := Resolve(Remove(t, w.file), cs);
      && (if Namesake(t, w.dir.value, w.file) then now.Found? && now.dir == w.dir && now.file != w.file
          else now == Missing(w.dir.value, cs[|cs| - 1]))
  {
    var w := Resolve(t, cs);
    var n := |cs| - 1;
    FoundEntry(t, cs);
    FoundLive(t, cs);
    PrefixProper(cs, n);
    NotThrough(t, w.file, cs, n);
    RemoveAside(t, w.file, cs[..n]);
    var d, f, u := w.dir.value, w.file, Remove(t, w.file);
    assert d != f;
    assert NodeAt(u, d) == NodeAt(t, d);
    assert |cs[n]| < MAXNAMELEN;
    assert Resolve(u, cs) == Step(u, Resolve(u, cs[..n]), cs[n]);
    if Namesake(t, d, f) {
      var g :| g in NodeAt(t, d).slots && g != f && NodeAt(t, g).name == NodeAt(t, f).name;
      assert NodeAt(u, g).name == cs[n];
    }
  }

  lemma UniqueNoNamesake(t: Tree, d: nat, f: nat)
    requires TreeInv(t) && UniqueNames(t) && f in NodeAt(t, d).slots && NodeAt(t, f).name != ""
    ensures !Namesake(t, d, f)
  {
    var i :| 0 <= i < |NodeAt(t, d).slots| && NodeAt(t, d).slots[i] == f;
    forall g | g in NodeAt(t, d).slots && g != f ensures NodeAt(t, g).name != NodeAt(t, f).name {
      var j :| 0 <= j < |NodeAt(t, d).slots| && NodeAt(t, d).slots[j] == g;
      assert Slot(t, d, i) && Slot(t, d, j) && Entry(t, d, i) == f && Entry(t, d, j) == g;
    }
  }

  /** With unique names, exactly the paths through the removed file are lost. */
  lemma {:induction false} RemoveResolve(t: Tree, f: nat, cs: seq<string>)
    requires TreeInv(t) && UniqueNames(t) && f in t.node && f != t.root && t.node[f].name != "" && Proper(cs)
    ensures var u := Remove(t, f);
      if Through(t, cs, f) then !Resolve(u, cs).Found? else Resolve(u, cs) == Resolve(t, cs)
    decreases |cs|
  {
    var u := Remove(t, f);
    if !Through(t, cs, f) {
      RemoveAside(t, f, cs);
    } else if cs != [] {
      var n := |cs| - 1;
      PrefixProper(cs, n);
      RemoveResolve(t, f, cs[..n]);
      if !Through(t, cs[..n], f) {
        FoundEntry(t, cs);
        UniqueNoNamesake(t, Resolve(t, cs).dir.value, f);
        RemovedNotFound(t, cs);
      }
    }
  }

  lemma RemoveKeeps(t: Tree, f: nat)
    requires TreeInv(t) && f in t.node
    ensures TreeInv(Remove(t, f)) && (UniqueNames(t) ==> UniqueNames(Remove(t, f)))
  {
    var u := Remove(t, f);
    assert forall c: nat, i: nat :: Slot(u, c, i) ==> Slot(t, c, i) && Entry(u, c, i) == Entry(t, c, i);
    assert TreeInv(u);
  }

  // ------------------------------------------------------------------ the file server

  datatype Error = ErrNotFound | ErrBadPath | ErrExists

  datatype Result = Ok(file: nat) | Err(error: Error)

  function OpenResult(w: Walked): Result {
    match w
    case Found(_, f) => Ok(f)
    case Missing(_, _) => Err(ErrNotFound)
    case NotFound => Err(ErrNotFound)
    case BadPath => Err(ErrBadPath)
  }

  // ---- where a path leads, entry by entry

  // f is the first entry of directory d with that name.
  ghost predicate FirstNamed(t: Tree, d: nat, name: string, f: nat) {
    && NodeAt(t, d).isDir
    && exists i :: 0 <= i < |NodeAt(t, d).slots| && NodeAt(t, d).slots[i] == f && NodeAt(t, f).name == name
         && forall k :: 0 <= k < i ==> NodeAt(t, NodeAt(t, d).slots[k]).name != name
  }

  // The first n components lead from the root over these places; none of them is too long.
  ghost predicate Trail(t: Tree, cs: seq<string>, n: nat, ps: seq<nat>) {
    && n <= |cs| && |ps| == n + 1 && ps[0] == t.root
    && forall i :: 0 <= i < n ==> |cs[i]| < MAXNAMELEN && FirstNamed(t, ps[i], cs[i], ps[i + 1])
  }

  ghost predicate LeadsFor(t: Tree, cs: seq<string>, n: nat, f: nat) { exists ps :: Trail(t, cs, n, ps) && ps[n] == f }

  ghost predicate LeadsTo(t: Tree, cs: seq<string>, f: nat) { LeadsFor(t, cs, |cs|, f) }

  // The walk gets to a component that is too long, before anything else stops it.
  ghost predicate TooLong(t: Tree, cs: seq<string>) {
    exists n: nat, ps :: n < |cs| && Trail(t, cs, n, ps) && |cs[n]| >= MAXNAMELEN
  }

  // All but the last component lead to a directory, which has no entry of that name.
  ghost predicate OnlyLastMissing(t: Tree, cs: seq<string>, d: nat) {
    && cs != [] && |cs[|cs| - 1]| < MAXNAMELEN && NodeAt(t, d).isDir
    && LeadsFor(t, cs, |cs| - 1, d)
    && forall f :: f in NodeAt(t, d).slots ==> NodeAt(t, f).name != cs[|cs| - 1]
  }

  /** What opening a path must answer. */
  ghost predicate Opens(t: Tree, cs: seq<string>, r: Result) {
    match r
    case Ok(f) => LeadsTo(t, cs, f)
    case Err(e) =>
      (forall f :: !LeadsTo(t, cs, f)) && e == if TooLong(t, cs) then ErrBadPath else ErrNotFound
  }

  // The trail stops at component n: not a directory, or no such entry.
  ghost predicate StopsAt(t: Tree, cs: seq<string>, n: nat, ps: seq<nat>) {
    && n < |cs| && Trail(t, cs, n, ps) && |cs[n]| < MAXNAMELEN
    && (NodeAt(t, ps[n]).isDir ==> forall f :: f in NodeAt(t, ps[n]).slots ==> NodeAt(t, f).name != cs[n])
  }

  lemma TrailPrefix(t: Tree, cs: seq<string>, k: nat, n: nat, ps: seq<nat>)
    requires n <= k <= |cs|
    ensures Trail(t, cs[..k], n, ps) <==> Trail(t, cs, n, ps)
  {
    hide FirstNamed;
    assert forall i :: 0 <= i < n ==> cs[..k][i] == cs[i];
  }

  lemma FirstOne(t: Tree, d: nat, name: string, f: nat, g: nat)
    requires FirstNamed(t, d, name, f) && FirstNamed(t, d, name, g)
    ensures f == g
  {
  }

  lemma {:induction false} TrailOne(t: Tree, cs: seq<string>, n: nat, m: nat, ps: seq<nat>, qs: seq<nat>)
    requires n <= m && Trail(t, cs, n, ps) && Trail(t, cs, m, qs)
    ensures forall i :: 0 <= i <= n ==> ps[i] == qs[i]
    decreases n
  {
    hide FirstNamed;
    if n > 0 {
      TrailOne(t, cs, n - 1, m, ps[..n], qs);
      assert ps[..n][n - 1] == ps[n - 1];
      FirstOne(t, ps[n - 1], cs[n - 1], ps[n], qs[n]);
    }
  }

  lemma {:induction false} FindFirst(t: Tree, slots: seq<nat>, name: string)
    ensures var r := FindFrom(t, slots, name);
      r.Some? ==> exists i :: 0 <= i < |slots| && slots[i] == r.value && NodeAt(t, r.value).name == name
                              && forall k :: 0 <= k < i ==> NodeAt(t, slots[k]).name != name
  {
    if slots != [] && NodeAt(t, slots[0]).name != name {
      FindFirst(t, slots[1..], name);
      var r := FindFrom(t, slots, name);
      if r.Some? {
        var j :| 0 <= j < |slots[1..]| && slots[1..][j] == r.value && forall k :: 0 <= k < j ==> NodeAt(t, slots[1..][k]).name != name;
        assert slots[j + 1] == r.value;
        forall k | 0 <= k < j + 1 ensures NodeAt(t, slots[k]).name != name {
          if k > 0 {
            assert slots[k] == slots[1..][k - 1];
          }
        }
      }
    }
  }

  lemma TrailStep(t: Tree, cs: seq<string>, m: nat, qs: seq<nat>, i: nat)
    requires Trail(t, cs, m, qs) && i < m
    ensures |cs[i]| < MAXNAMELEN && FirstNamed(t, qs[i], cs[i], qs[i + 1])
  {
    hide FirstNamed;
  }

  // No trail is longer than one that stops or meets a component that is too long.
  lemma NoFurther(t: Tree, cs: seq<string>, n: nat, ps: seq<nat>, m: nat, qs: seq<nat>)
    requires n < |cs| ==> StopsAt(t, cs, n, ps) || (Trail(t, cs, n, ps) && |cs[n]| >= MAXNAMELEN)
    requires Trail(t, cs, m, qs)
    ensures m <= n || n >= |cs|
  {
    if n < m && n < |cs| {
      TrailStep(t, cs, m, qs, n);
      TrailOne(t, cs, n, m, ps, qs);
      assert false;
    }
  }

  // The trail behind each answer of the walk.
  ghost predicate Explained(t: Tree, cs: seq<string>, w: Walked, n: nat, ps: seq<nat>) {
    && Trail(t, cs, n, ps)
    && match w
       case Found(dir, f) => n == |cs| && ps[n] == f && dir == if n == 0 then None else Some(ps[n - 1])
       case Missing(d, name) =>
         StopsAt(t, cs, n, ps) && n == |cs| - 1 && name == cs[n] && d == ps[n] && NodeAt(t, d).isDir
       case NotFound => StopsAt(t, cs, n, ps) && (n == |cs| - 1 ==> !NodeAt(t, ps[n]).isDir)
       case BadPath => n < |cs| && |cs[n]| >= MAXNAMELEN
  }

  lemma {:induction false} WalkExplained(t: Tree, cs: seq<string>) returns (n: nat, ps: seq<nat>)
    ensures Explained(t, cs, Resolve(t, cs), n, ps)
    decreases |cs|
  {
    if cs == [] {
      return 0, [t.root];
    }
    var k := |cs| - 1;
    n, ps := WalkExplained(t, cs[..k]);
    TrailPrefix(t, cs, k, n, ps);
    var w, v := Resolve(t, cs[..k]), Resolve(t, cs);
    assert v == Step(t, w, cs[k]);
    hide Resolve;
    if v.Found? {
      FindFirst(t, NodeAt(t, w.file).slots, cs[k]);
      assert FirstNamed(t, w.file, cs[k], v.file);
      hide FirstNamed, Step, Lookup, StopsAt;
      TrailOn(t, cs, n, ps, v.file);
      n, ps := n + 1, ps + [v.file];
    } else {
      hide FirstNamed, Trail;
      assert forall i :: 0 <= i < k ==> cs[..k][i] == cs[i];
    }
  }

  lemma TrailOn(t: Tree, cs: seq<string>, n: nat, ps: seq<nat>, f: nat)
    requires n < |cs| && Trail(t, cs, n, ps) && |cs[n]| < MAXNAMELEN && FirstNamed(t, ps[n], cs[n], f)
    ensures Trail(t, cs, n + 1, ps + [f])
  {
    hide FirstNamed;
  }

  /** The answer of a walk says where the path leads, and why if it does not. */
  lemma ResolveExact(t: Tree, cs: seq<string>)
    ensures var w := Resolve(t, cs);
      && (forall f :: w.Found? && w.file == f <==> LeadsTo(t, cs, f))
      && (w == BadPath <==> TooLong(t, cs))
      && (forall d :: w == Missing(d, if cs == [] then "" else cs[|cs| - 1]) <==> OnlyLastMissing(t, cs, d))
      && (w.Missing? ==> cs != [] && w.last == cs[|cs| - 1])
  {
    var w := Resolve(t, cs);
    var n, ps := WalkExplained(t, cs);
    hide Resolve;
    forall f | LeadsTo(t, cs, f) ensures w.Found? && w.file == f {
      var qs :| Trail(t, cs, |cs|, qs) && qs[|cs|] == f;
      NoFurther(t, cs, n, ps, |cs|, qs);
      TrailOne(t, cs, n, |cs|, ps, qs);
    }
    if TooLong(t, cs) {
      var m: nat, qs :| m < |cs| && Trail(t, cs, m, qs) && |cs[m]| >= MAXNAMELEN;
      NoFurther(t, cs, m, qs, n, ps);
      NoFurther(t, cs, n, ps, m, qs);
    }
    forall d | OnlyLastMissing(t, cs, d) ensures w == Missing(d, cs[|cs| - 1]) {
      var m := |cs| - 1;
      var qs :| Trail(t, cs, m, qs) && qs[m] == d;
      NoFurther(t, cs, m, qs, n, ps);
      NoFurther(t, cs, n, ps, m, qs);
      TrailOne(t, cs, n, m, ps, qs);
    }
    assert w.Found? ==> LeadsTo(t, cs, w.file);
    assert w.Missing? ==> LeadsFor(t, cs, n, ps[n]);
  }

  lemma OpenExact(t: Tree, cs: seq<string>)
    ensures Opens(t, cs, OpenResult(Resolve(t, cs)))
    ensures forall r :: Opens(t, cs, r) ==> r == OpenResult(Resolve(t, cs))
  {
    ResolveExact(t, cs);
    hide LeadsTo, TooLong, OnlyLastMissing, Resolve;
    var w := Resolve(t, cs);
    if w.Found? {
      assert LeadsTo(t, cs, w.file);
    }
  }

  // skip_slash, from index i on.
  method SkipSlash(path: string, i: nat) returns (j: nat)
    requires i <= |path|
    ensures i <= j <= |path| && (j < |path| ==> path[j] != '/')
    ensures Components(path[j..]) == Components(path[i..])
  {
    j := i;
    while j < |path| && path[j] == '/'
      invariant i <= j <= |path|
      invariant Components(path[j..]) == Components(path[i..])
    {
      assert path[j..][1..] == path[j + 1..];
      j := j + 1;
    }
  }

  // One component, and the slashes behind it.
  method NextName(path: string, p: nat) returns (name: string, i: nat)
    requires p < |path| && path[p] != '/'
    ensures p < i <= |path| && (i < |path| ==> path[i] != '/')
    ensures Components(path[p..]) == [name] + Components(path[i..])
    ensures i < |path| <==> Components(path[i..]) != []
  {
    i := p;
    while i < |path| && path[i] != '/'
      invariant p <= i <= |path| && forall k :: p <= k < i ==> path[k] != '/'
    {
      i := i + 1;
    }
    name := path[p..i];
    NextComponent(path, p, i);
    i := SkipSlash(path, i);
  }

  class FileTree {
    const root: nat
    var node: map<nat, Node>
    var next: nat

    function T(): Tree
      reads this
    {
      Tree(root, node, next)
    }

    method DirLookup(dir: nat, name: string) returns (r: Option<nat>)
      ensures r == Lookup(T(), dir, name)
    {
      var slots := NodeAt(T(), dir).slots;
      var i := 0;
      while i < |slots|
        invariant 0 <= i <= |slots|
        invariant FindFrom(T(), slots, name) == FindFrom(T(), slots[i..], name)
      {
        if NodeAt(T(), slots[i]).name == name {
          return Some(slots[i]);
        }
        assert slots[i..][1..] == slots[i + 1..];
        i := i + 1;
      }
      return None;
    }

    // One turn of the loop in walk_path, in directory file.
    method Enter(file: nat, name: string) returns (w: Walked)
      ensures forall dir :: w == Step(T(), Found(dir, file), name)
    {
      if |name| >= MAXNAMELEN {
        return BadPath;
      }
      if !NodeAt(T(), file).isDir {
        return NotFound;
      }
      var r := DirLookup(file, name);
      return if r.Some? then Found(Some(file), r.value) else Missing(file, name);
    }

    // walk_path: the answer depends only on the components of the path.
    method WalkPath(path: string) returns (w: Walked)
      ensures w == Resolve(T(), Components(path))
    {
      var i := SkipSlash(path, 0);
      assert path[0..] == path;
      w := Found(None, root);
      ghost var done: seq<string> := [];
      while i < |path|
        invariant 0 <= i <= |path| && (i < |path| ==> path[i] != '/')
        invariant done + Components(path[i..]) == Components(path)
        invariant w.Found? && w == Resolve(T(), done)
        decreases |path| - i
      {
        var name;
        name, i := NextName(path, i);
        ghost var rest := Components(path[i..]);
        hide Components, Step;
        assert Components(path) == done + [name] + rest;
        StepTo(T(), done, name);
        w := Enter(w.file, name);
        done := done + [name];
        if !w.Found? {
          // pdir is set only if this was the last component
          Stuck(T(), done, rest);
          return if w.Missing? && i < |path| then NotFound else w;
        }
      }
      assert path[i..] == "" && done + [] == done;
    }

    method FileOpen(path: string) returns (r: Result)
      ensures r == OpenResult(Resolve(T(), Components(path))) && Opens(T(), Components(path), r)
    {
      var w := WalkPath(path);
      OpenExact(T(), Components(path));
      return OpenResult(w);
    }

    // dir_alloc_file; room: whether a new block can be had, block: what it holds.
    method DirAllocFile(dir: nat, room: bool, block: Block) returns (r: Option<nat>)
      requires dir in node
      modifies this`node, this`next
      ensures r.Some? ==> (T(), r.value) == AllocEntry(old(T()), dir, block)
      ensures r.None? ==> T() == old(T())
      ensures r.Some? <==> room || Lookup(old(T()), dir, "").Some?
    {
      r := DirLookup(dir, "");
      if r.None? && room {
        r := Some(next);
        var g := Grow(T(), dir, block);
        node, next := g.node, g.next;
      }
    }

    // The new entry gets its name (file_create) and its type (serve_create).
    method AddEntry(dir: nat, name: string, room: bool, isDir: bool, block: Block) returns (r: Option<nat>)
      requires TreeInv(T()) && dir in node
      modifies this`node, this`next
      ensures r.Some? ==> (T(), r.value) == Create(old(T()), dir, name, isDir, block)
      ensures r.None? ==> T() == old(T())
      ensures r.Some? <==> room || Lookup(old(T()), dir, "").Some?
    {
      ghost var t := T();
      AllocatedLive(t, dir, block);
      hide TreeInv, Lookup, AllocEntry, Fill;
      r := DirAllocFile(dir, room, block);
      if r.Some? {
        FillTwice(T(), r.value, name, isDir);
        node := node[r.value := node[r.value].(name := name)];
        node := node[r.value := node[r.value].(isDir := isDir)];
      }
    }

    // file_create, and serve_create, which sets the type of the new file.
    method FileCreate(path: string, room: bool, isDir: bool, block: Block) returns (r: Result)
      requires TreeInv(T())
      modifies this`node, this`next
      ensures CreateOutcome(old(T()), T(), Components(path), room, isDir, block, r)
      ensures CreateAnswers(old(T()), Components(path), room, r)
    {
      var w := WalkPath(path);
      CreateAnswered(T(), Components(path), room);
      hide CreateAnswers;
      match w
      case Found(_, _) => return Err(ErrExists);
      case NotFound => return Err(ErrNotFound);
      case BadPath => return Err(ErrBadPath);
      case Missing(d, name) =>
        ComponentsProper(path);
        CreateOutcomes(T(), Components(path), d, name, room, isDir, block);
        hide TreeInv, CreateOutcome, Components, Create;
        var e := AddEntry(d, name, room, isDir, block);
        return if e.None? then Err(ErrNotFound) else Ok(e.value);
    }

    method FileRemove(path: string) returns (r: Result)
      requires TreeInv(T())
      modifies this`node
      ensures TreeInv(T()) && (UniqueNames(old(T())) ==> UniqueNames(T()))
      ensures RemoveOutcome(old(T()), T(), Components(path), r) && Opens(old(T()), Components(path), r)
      ensures r.Ok? && Components(path) != [] ==> Unopened(old(T()), T(), Components(path), r.file)
    {
      ghost var t := T();
      ghost var cs := Components(path);
      hide Opens, Unopened;
      r := FileOpen(path);
      if r.Err? {
        return;
      }
      ComponentsProper(path);
      FoundLive(t, cs);
      RemoveKeeps(t, r.file);
      if cs != [] {
        RemoveAll(t, cs);
        RemovedOpens(t, cs);
      }
      hide TreeInv, UniqueNames, Resolve, Components, RemovedAt, Namesake;
      node := node[r.file := node[r.file].(slots := [])];
      node := node[r.file := node[r.file].(name := "")];
      assert T() == Remove(t, r.file);
    }
  }

  // The path of a removed file, other than the root, is missing unless its directory has a namesake.
  ghost predicate RemoveOutcome(t: Tree, u: Tree, cs: seq<string>, r: Result) {
    var was, now := Resolve(t, cs), Resolve(u, cs);
    && r == OpenResult(was)
    && (r.Err? ==> u == t)
    && (r.Ok? ==> r.file in t.node && u == Remove(t, r.file))
    && (r.Ok? && cs != [] ==>
          && was.dir.Some?
          && (if Namesake(t, was.dir.value, r.file) then now.Found? && now.file != r.file else now.Missing?)
          && (UniqueNames(t) ==> !Namesake(t, was.dir.value, r.file) && RemovedAt(t, u, r.file)))
  }

  // f has become an entry of d with that name and type, and everything else is as it was: d keeps its
  // entries, and has new ones behind them at most.
  ghost predicate Entered(t: Tree, u: Tree, d: nat, f: nat, name: string, isDir: bool) {
    && d in t.node && f in u.node && u.node[f].name == name && u.node[f].isDir == isDir && u.root == t.root
    && (forall g :: g in t.node && g != f && g != d ==> g in u.node && u.node[g] == t.node[g])
    && d in u.node && f in u.node[d].slots && t.node[d].slots <= u.node[d].slots
    && (f in t.node ==> t.node[f].name == "" && u.node[d].slots == t.node[d].slots)
  }

  lemma CreateEnters(t: Tree, d: nat, name: string, isDir: bool, block: Block)
    requires TreeInv(t) && d in t.node && (d == t.root || t.node[d].name != "")
    ensures var (u, e) := Create(t, d, name, isDir, block); Entered(t, u, d, e, name, isDir)
  {
    if Lookup(t, d, "").Some? {
      InSlots(t, d, Lookup(t, d, "").value);
    } else {
      GrownEnters(t, d, name, isDir, block);
    }
    hide TreeInv, Grow;
  }

  lemma GrownEnters(t: Tree, d: nat, name: string, isDir: bool, block: Block)
    requires TreeInv(t) && d in t.node
    ensures Entered(t, Grown(t, d, name, isDir, block), d, t.next, name, isDir)
  {
    var g, ids := Grow(t, d, block), NewIds(t.next);
    assert forall x :: x in t.node ==> x < t.next;
    hide TreeInv;
    assert ids[0] == t.next && t.next in g.node;
    assert g.node[d] == t.node[d].(slots := t.node[d].slots + ids);
    assert forall x :: x in t.node && x != d ==> x in g.node && g.node[x] == t.node[x];
    hide Grow;
  }

  // What file_create answers and does: t before, u after.
  ghost predicate CreateOutcome(t: Tree, u: Tree, cs: seq<string>, room: bool, isDir: bool, block: Block, r: Result) {
    var was := Resolve(t, cs);
    match r
    case Ok(f) =>
      && was.Missing? && was.inDir in t.node
      && KeepsFound(t, u) && Appears(t, u, was.inDir, f, was.last) && Resolve(u, cs) == Found(Some(was.inDir), f)
      && Entered(t, u, was.inDir, f, was.last, isDir)
      && (NothingElse(t, u, was.inDir, was.last) <==> CleanEntry(t, was.inDir, was.last, isDir, block))
      && (Lookup(t, was.inDir, "").Some? || BlankBlock(block) ==>
            TreeInv(u) && (UniqueNames(t) ==> UniqueNames(u)) && NothingElse(t, u, was.inDir, was.last))
    case Err(e) => u == t && (e == ErrExists <==> was.Found?) && (e == ErrBadPath <==> was.BadPath?) && (was.Missing? ==> !room)
  }

  lemma CreateOutcomes(t: Tree, cs: seq<string>, d: nat, name: string, room: bool, isDir: bool, block: Block)
    requires TreeInv(t) && Proper(cs) && Resolve(t, cs) == Missing(d, name)
    ensures d in t.node
    ensures var (u, e) := Create(t, d, name, isDir, block); CreateOutcome(t, u, cs, room, isDir, block, Ok(e))
    ensures !room ==> CreateOutcome(t, t, cs, room, isDir, block, Err(ErrNotFound))
  {
    hide TreeInv, UniqueNames, KeepsFound, Appears, NothingElse, CleanEntry, BlankBlock, Create, Lookup, Resolve, Entered;
    MissingName(t, cs);
    CreateFacts(t, cs, d, name, isDir, block);
    CreateEnters(t, d, name, isDir, block);
  }

  lemma AllocatedLive(t: Tree, d: nat, block: Block)
    requires TreeInv(t) && d in t.node
    ensures var (g, e) := AllocEntry(t, d, block); e in g.node
  {
    if Lookup(t, d, "").Some? {
      InSlots(t, d, Lookup(t, d, "").value);
    }
  }

  lemma MissingName(t: Tree, cs: seq<string>)
    requires TreeInv(t) && Proper(cs) && Resolve(t, cs).Missing?
    ensures var w := Resolve(t, cs);
      && ProperName(w.last) && Lookup(t, w.inDir, w.last) == None
      && w.inDir in t.node && (w.inDir == t.root || t.node[w.inDir].name != "")
  {
    PrefixProper(cs, |cs| - 1);
    FoundLive(t, cs[..|cs| - 1]);
    assert ProperName(cs[|cs| - 1]);
  }

  /** What file_create answers: success exactly if only the last component is missing and there is room. */
  ghost predicate CreateAnswers(t: Tree, cs: seq<string>, room: bool, r: Result) {
    && (r == Err(ErrExists) <==> exists f :: LeadsTo(t, cs, f))
    && (r == Err(ErrBadPath) <==> TooLong(t, cs))
    && (r.Ok? <==> exists d :: OnlyLastMissing(t, cs, d) && (room || HasUnused(t, d)))
  }

  ghost predicate HasUnused(t: Tree, d: nat) { exists f :: f in NodeAt(t, d).slots && NodeAt(t, f).name == "" }

  lemma CreateAnswered(t: Tree, cs: seq<string>, room: bool)
    ensures forall r: Result ::
      (match Resolve(t, cs)
       case Found(_, _) => r == Err(ErrExists)
       case NotFound => r == Err(ErrNotFound)
       case BadPath => r == Err(ErrBadPath)
       case Missing(d, _) => if room || Lookup(t, d, "").Some? then r.Ok? else r == Err(ErrNotFound))
      ==> CreateAnswers(t, cs, room, r)
  {
    ResolveExact(t, cs);
    MissingAnswers(t, cs, room);
    hide LeadsTo, TooLong, OnlyLastMissing, Resolve, Lookup, HasUnused;
    var w := Resolve(t, cs);
    assert w.Found? ==> LeadsTo(t, cs, w.file);
  }

  lemma MissingAnswers(t: Tree, cs: seq<string>, room: bool)
    ensures var w := Resolve(t, cs);
      (exists d :: OnlyLastMissing(t, cs, d) && (room || HasUnused(t, d)))
      <==> w.Missing? && (room || Lookup(t, w.inDir, "").Some?)
  {
    ResolveExact(t, cs);
    hide OnlyLastMissing, LeadsTo, TooLong, Resolve;
    var w := Resolve(t, cs);
    if w.Missing? {
      assert OnlyLastMissing(t, cs, w.inDir);
      assert Lookup(t, w.inDir, "").Some? <==> HasUnused(t, w.inDir);
    }
  }

  // f was found under cs in t; in u this path opens nothing, unless f had a namesake in its directory.
  ghost predicate Unopened(t: Tree, u: Tree, cs: seq<string>, f: nat)
    requires cs != []
  {
    forall d :: LeadsFor(t, cs, |cs| - 1, d) && !Namesake(t, d, f) ==> Opens(u, cs, Err(ErrNotFound))
  }

  /** After file_remove of a file without a namesake, opening its path answers not-found. */
  lemma RemovedOpens(t: Tree, cs: seq<string>)
    requires TreeInv(t) && Proper(cs) && cs != [] && Resolve(t, cs).Found?
    ensures Resolve(t, cs).file in t.node && Unopened(t, Remove(t, Resolve(t, cs).file), cs, Resolve(t, cs).file)
  {
    FoundLive(t, cs);
    hide Opens, Resolve, TreeInv, Remove, Namesake, LeadsFor;
    forall d | LeadsFor(t, cs, |cs| - 1, d) && !Namesake(t, d, Resolve(t, cs).file)
      ensures Opens(Remove(t, Resolve(t, cs).file), cs, Err(ErrNotFound))
    {
      DirectoryOf(t, cs, d);
      RemovedNotFound(t, cs);
      OpenExact(Remove(t, Resolve(t, cs).file), cs);
    }
  }

  lemma DirectoryOf(t: Tree, cs: seq<string>, d: nat)
    requires Proper(cs) && cs != [] && Resolve(t, cs).Found? && LeadsFor(t, cs, |cs| - 1, d)
    ensures Resolve(t, cs).dir == Some(d)
  {
    FoundEntry(t, cs);
    hide Resolve, TooLong, OnlyLastMissing;
    var n := |cs| - 1;
    ResolveExact(t, cs[..n]);
    var ps :| Trail(t, cs, n, ps) && ps[n] == d;
    TrailPrefix(t, cs, n, n, ps);
    assert LeadsTo(t, cs[..n], d);
  }

  // Exactly the paths through f are lost.
  ghost predicate RemovedAt(t: Tree, u: Tree, f: nat) {
    forall cs :: Proper(cs) ==>
      if Through(t, cs, f) then !Resolve(u, cs).Found? else Resolve(u, cs) == Resolve(t, cs)
  }

  lemma RemoveAll(t: Tree, cs: seq<string>)
    requires TreeInv(t) && Proper(cs) && cs != [] && Resolve(t, cs).Found?
    ensures Resolve(t, cs).file in t.node
    ensures RemoveOutcome(t, Remove(t, Resolve(t, cs).file), cs, Ok(Resolve(t, cs).file))
  {
    var f := Resolve(t, cs).file;
    FoundLive(t, cs);
    FoundEntry(t, cs);
    RemovedNotFound(t, cs);
    if UniqueNames(t) {
      UniqueNoNamesake(t, Resolve(t, cs).dir.value, f);
      hide UniqueNames, TreeInv, Through, Resolve;
      forall ds | Proper(ds)
        ensures if Through(t, ds, f) then !Resolve(Remove(t, f), ds).Found? else Resolve(Remove(t, f), ds) == Resolve(t, ds)
      {
        RemoveResolve(t, f, ds);
      }
    }
  }

  // path[p..i] is a maximal part without a slash.
  lemma NextComponent(path: string, p: nat, i: nat)
    requires p < i <= |path| && (forall k :: p <= k < i ==> path[k] != '/') && (i < |path| ==> path[i] == '/')
    ensures Components(path[p..]) == [path[p..i]] + Components(path[i..])
  {
    var s := path[p..];
    RunIs(s, i - p);
    assert s[..i - p] == path[p..i] && s[i - p..] == path[i..];
  }

  lemma StepTo(t: Tree, cs: seq<string>, name: string)
    ensures Resolve(t, cs + [name]) == Step(t, Resolve(t, cs), name)
  {
    assert (cs + [name])[..|cs|] == cs;
  }

  // Once the walk has failed, the remaining components only turn a missing name into not found.
  lemma {:induction false} Stuck(t: Tree, cs: seq<string>, rest: seq<string>)
    requires !Resolve(t, cs).Found?
    ensures Resolve(t, cs + rest) == if rest == [] || !Resolve(t, cs).Missing? then Resolve(t, cs) else NotFound
    decreases |rest|
  {
    if rest == [] {
      assert cs + rest == cs;
    } else {
      var n := |rest| - 1;
      assert cs + rest == (cs + rest[..n]) + [rest[n]];
      StepTo(t, cs + rest[..n], rest[n]);
      Stuck(t, cs, rest[..n]);
    }
  }
}
