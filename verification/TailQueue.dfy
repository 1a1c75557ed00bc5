/**
 * The LIST and TAILQ macros of include/queue.h at pointer level. A back pointer is the address of
 * the pointer that refers to the element: the list head, or the next field of another element.
 */
module TailQueue {

  // A pointer to an element, and the address of such a pointer; both can be null.
  datatype Link = Nil | Elem(e: nat)
  datatype Loc = Null | Head | Next(e: nat)

  datatype Ptrs = Ptrs(first: Link, last: Loc, next: seq<Link>, prev: seq<Loc>)

  function LinkAt(s: seq<nat>, i: nat): Link {
    if i < |s| then Elem(s[i]) else Nil
  }

  function LocBefore(s: seq<nat>, i: nat): Loc
    requires i <= |s|
  {
    if i == 0 then Head else Next(s[i - 1])
  }

  predicate Distinct(s: seq<nat>) {
    forall i, j :: 0 <= i < j < |s| ==> s[i] != s[j]
  }

  // The pointers spell out the sequence s, in both directions.
  ghost predicate ListOf(q: Ptrs, s: seq<nat>) {
    && |q.prev| == |q.next| && Distinct(s)
    && (forall i :: 0 <= i < |s| ==> s[i] < |q.next|)
    && q.first == LinkAt(s, 0)
    && (forall i {:trigger q.next[s[i]]} :: 0 <= i < |s| ==> q.next[s[i]] == LinkAt(s, i + 1))
    && (forall i {:trigger q.prev[s[i]]} :: 0 <= i < |s| ==> q.prev[s[i]] == LocBefore(s, i))
  }

  // A tail queue also keeps the address of the pointer at its end.
  ghost predicate QueueOf(q: Ptrs, s: seq<nat>) {
    ListOf(q, s) && q.last == LocBefore(s, |s|)
  }

  // e is outside the list, with the pointers it had when it was taken from position k.
  ghost predicate Detached(q: Ptrs, s: seq<nat>, e: nat, k: nat) {
    && k <= |s| && e !in s && e < |q.next| && e < |q.prev|
    && q.next[e] == LinkAt(s, k) && q.prev[e] == LocBefore(s, k)
  }

  // ------------------------------------------------------------------ the macros on values

  // An address that can be stored through.
  predicate LocOk(q: Ptrs, loc: Loc) { !loc.Null? && (loc.Next? ==> loc.e < |q.next|) }

  // *loc = link
  function Through(q: Ptrs, loc: Loc, link: Link): Ptrs
    requires LocOk(q, loc)
  {
    match loc
    case Head => q.(first := link)
    case Next(e) => q.(next := q.next[e := link])
  }

  // e is an element, and its pointers are null or point to the head or to elements.
  predicate Present(q: Ptrs, e: nat) {
    && e < |q.next| && |q.prev| == |q.next|
    && (q.next[e].Elem? ==> q.next[e].e < |q.next|) && (q.prev[e].Next? ==> q.prev[e].e < |q.next|)
  }

  predicate ElemOk(q: Ptrs, e: nat) { Present(q, e) && !q.prev[e].Null? }

  // The first half of TAILQ_REMOVE: the back pointer behind e, or the end of the queue.
  function Bypass(q: Ptrs, e: nat): Ptrs
    requires Present(q, e)
  {
    if q.next[e].Elem? then q.(prev := q.prev[q.next[e].e := q.prev[e]]) else q.(last := q.prev[e])
  }

  function Remove(q: Ptrs, e: nat): Ptrs
    requires ElemOk(q, e)
  {
    var q1 := Bypass(q, e);
    Through(q1, q1.prev[e], q1.next[e])
  }

  // TAILQ_REMOVE of any element: with a null back pointer the second half faults.
  function TryRemove(q: Ptrs, e: nat): (Ptrs, bool)
    requires Present(q, e)
  {
    if q.prev[e].Null? then (Bypass(q, e), false) else (Remove(q, e), true)
  }

  function InsertTail(q: Ptrs, e: nat): Ptrs
    requires e < |q.next| == |q.prev| && LocOk(q, q.last)
  {
    var q1 := q.(next := q.next[e := Nil], prev := q.prev[e := q.last]);
    Through(q1, q1.last, Elem(e)).(last := Next(e))
  }

  function InsertHead(q: Ptrs, e: nat): Ptrs
    requires e < |q.next| == |q.prev| && (q.first.Elem? ==> q.first.e < |q.prev|)
  {
    var q1 := q.(next := q.next[e := q.first]);
    var q2 := if q.first.Elem? then q1.(prev := q1.prev[q.first.e := Next(e)]) else q1.(last := Next(e));
    q2.(first := Elem(e), prev := q2.prev[e := Head])
  }

  // ------------------------------------------------------------------ what they do to the sequence

  function Without(s: seq<nat>, k: nat): seq<nat>
    requires k < |s|
  {
    s[..k] + s[k + 1..]
  }

  lemma MemberOk(q: Ptrs, s: seq<nat>, k: nat)
    requires ListOf(q, s) && k < |s|
    ensures ElemOk(q, s[k])
  {
    assert q.next[s[k]] == LinkAt(s, k + 1);
  }

  lemma RemoveFields(q: Ptrs, e: nat)
    requires ElemOk(q, e)
    ensures var r := Remove(q, e);
      && r.first == (if q.prev[e].Head? then q.next[e] else q.first)
      && r.last == (if q.next[e].Nil? then q.prev[e] else q.last)
      && r.next == (if q.prev[e].Next? then q.next[q.prev[e].e := q.next[e]] else q.next)
      && r.prev == (if q.next[e].Elem? then q.prev[q.next[e].e := q.prev[e]] else q.prev)
  {
  }

  // One element of the sequence that remains after a removal.
  lemma RemoveAt(q: Ptrs, s: seq<nat>, k: nat, i: nat)
    requires ListOf(q, s) && k < |s| && i < |Without(s, k)| && ElemOk(q, s[k])
    ensures var r, t := Remove(q, s[k]), Without(s, k);
      t[i] < |r.next| == |r.prev| && r.next[t[i]] == LinkAt(t, i + 1) && r.prev[t[i]] == LocBefore(t, i)
  {
    RemoveFields(q, s[k]);
    hide Remove;
    var t := Without(s, k);
    var j := if i < k then i else i + 1;
    assert t[i] == s[j] && s[j] != s[k];
    assert q.next[s[j]] == LinkAt(s, j + 1) && q.prev[s[j]] == LocBefore(s, j);
    assert q.next[s[k]] == LinkAt(s, k + 1) && q.prev[s[k]] == LocBefore(s, k);
    assert k > 0 ==> (s[j] == s[k - 1] <==> j == k - 1);
    assert k + 1 < |s| ==> (s[j] == s[k + 1] <==> j == k + 1);
    assert s[j] < |q.next| && (k > 0 ==> s[k - 1] < |q.next|) && (k + 1 < |s| ==> s[k + 1] < |q.next|);
    hide ListOf, Without;
    assert i + 1 < |t| ==> t[i + 1] == s[if i + 1 < k then i + 1 else i + 2];
    assert i > 0 ==> t[i - 1] == s[if i - 1 < k then i - 1 else i];
  }

  lemma WithoutDistinct(s: seq<nat>, k: nat)
    requires Distinct(s) && k < |s|
    ensures Distinct(Without(s, k)) && s[k] !in Without(s, k)
    ensures forall x :: x in Without(s, k) <==> x in s && x != s[k]
  {
    var t := Without(s, k);
    assert forall i :: 0 <= i < |t| ==> t[i] == s[if i < k then i else i + 1];
    forall x | x in s && x != s[k] ensures x in t {
      var i :| 0 <= i < |s| && s[i] == x;
      assert x == t[if i < k then i else i - 1];
    }
  }

  lemma RemoveList(q: Ptrs, s: seq<nat>, k: nat)
    requires ListOf(q, s) && k < |s| && ElemOk(q, s[k])
    ensures ListOf(Remove(q, s[k]), Without(s, k))
  {
    hide Remove;
    RemoveFields(q, s[k]);
    WithoutDistinct(s, k);
    var r, t := Remove(q, s[k]), Without(s, k);
    assert q.next[s[k]] == LinkAt(s, k + 1) && q.prev[s[k]] == LocBefore(s, k);
    assert r.first == LinkAt(t, 0);
    hide ListOf;
    forall i | 0 <= i < |t|
      ensures t[i] < |r.next| == |r.prev| && r.next[t[i]] == LinkAt(t, i + 1) && r.prev[t[i]] == LocBefore(t, i)
    {
      RemoveAt(q, s, k, i);
    }
    ListFrom(r, t);
  }

  lemma ListFrom(q: Ptrs, s: seq<nat>)
    requires |q.prev| == |q.next| && Distinct(s) && q.first == LinkAt(s, 0)
    requires forall i :: 0 <= i < |s| ==>
      s[i] < |q.next| && q.next[s[i]] == LinkAt(s, i + 1) && q.prev[s[i]] == LocBefore(s, i)
    ensures ListOf(q, s)
  {
  }

  /** TAILQ_REMOVE of a member unlinks exactly that member and leaves its own pointers behind. */
  lemma RemoveMember(q: Ptrs, s: seq<nat>, k: nat)
    requires QueueOf(q, s) && k < |s|
    ensures ElemOk(q, s[k])
    ensures QueueOf(Remove(q, s[k]), Without(s, k))
    ensures Detached(Remove(q, s[k]), Without(s, k), s[k], k)
  {
    MemberOk(q, s, k);
    hide Remove;
    RemoveFields(q, s[k]);
    WithoutDistinct(s, k);
    RemoveList(q, s, k);
    assert q.next[s[k]] == LinkAt(s, k + 1) && q.prev[s[k]] == LocBefore(s, k);
  }

  /** Removing an element again, with nothing in between, changes no pointer at all. */
  lemma RemoveAgain(q: Ptrs, s: seq<nat>, e: nat, k: nat)
    requires QueueOf(q, s) && Detached(q, s, e, k)
    ensures ElemOk(q, e) && Remove(q, e) == q
  {
    if k < |s| {
      assert q.prev[s[k]] == LocBefore(s, k);
    }
    if k > 0 {
      assert q.next[s[k - 1]] == LinkAt(s, k);
    }
    assert k < |s| ==> q.prev[s[k] := q.prev[e]] == q.prev;
    assert k > 0 ==> q.next[s[k - 1] := q.next[e]] == q.next;
  }

  lemma InsertTailLinks(q: Ptrs, s: seq<nat>, e: nat)
    requires QueueOf(q, s) && e < |q.next| && e !in s
    ensures LocOk(q, q.last) && QueueOf(InsertTail(q, e), s + [e])
  {
    var r, t := InsertTail(q, e), s + [e];
    forall i | 0 <= i < |t|
      ensures t[i] < |r.next| && r.next[t[i]] == LinkAt(t, i + 1) && r.prev[t[i]] == LocBefore(t, i)
    {
      if i < |s| {
        assert q.next[s[i]] == LinkAt(s, i + 1) && q.prev[s[i]] == LocBefore(s, i);
      }
    }
  }

  lemma InsertHeadAt(q: Ptrs, s: seq<nat>, e: nat, i: nat)
    requires ListOf(q, s) && e < |q.next| && e !in s && i <= |s|
    ensures (q.first.Elem? ==> q.first.e < |q.prev|)
    ensures var r, t := InsertHead(q, e), [e] + s;
      t[i] < |r.next| == |r.prev| && r.next[t[i]] == LinkAt(t, i + 1) && r.prev[t[i]] == LocBefore(t, i)
  {
    if i > 0 {
      assert q.next[s[i - 1]] == LinkAt(s, i) && q.prev[s[i - 1]] == LocBefore(s, i - 1);
    }
  }

  lemma InsertHeadLinks(q: Ptrs, s: seq<nat>, e: nat)
    requires QueueOf(q, s) && e < |q.next| && e !in s
    ensures (q.first.Elem? ==> q.first.e < |q.prev|) && QueueOf(InsertHead(q, e), [e] + s)
  {
    var t := [e] + s;
    forall i | 0 <= i < |t|
      ensures var r := InsertHead(q, e);
        t[i] < |r.next| == |r.prev| && r.next[t[i]] == LinkAt(t, i + 1) && r.prev[t[i]] == LocBefore(t, i)
    {
      InsertHeadAt(q, s, e, i);
    }
  }

  // The stale pointers of e still agree with the queue wherever they reach into it.
  predicate Harmless(q: Ptrs, s: seq<nat>, e: nat)
    requires Present(q, e)
  {
    && (q.next[e].Nil? ==> q.last == q.prev[e])
    && (q.next[e].Elem? && q.next[e].e in s ==> q.prev[q.next[e].e] == q.prev[e])
    && (q.prev[e].Head? ==> q.first == q.next[e])
    && (q.prev[e].Next? && q.prev[e].e in s ==> q.next[q.prev[e].e] == q.next[e])
  }

  /**
   * env_free removes an env whether or not it is on the run list. For an env that is not, the
   * removal goes through and the queue survives exactly when the env has been queued before and its
   * stale pointers happen to agree with the queue.
   */
  lemma RemoveStrangerExact(q: Ptrs, s: seq<nat>, e: nat)
    requires QueueOf(q, s) && Present(q, e) && e !in s
    ensures var (r, ok) := TryRemove(q, e);
      && (ok <==> !q.prev[e].Null?)
      && (ok && QueueOf(r, s) <==> !q.prev[e].Null? && Harmless(q, s, e))
  {
    if ElemOk(q, e) {
      RemoveFields(q, e);
      hide Remove;
      var r := Remove(q, e);
      if Harmless(q, s, e) {
        forall i | 0 <= i < |s| ensures r.next[s[i]] == q.next[s[i]] && r.prev[s[i]] == q.prev[s[i]] {
        }
      } else if QueueOf(r, s) {
        StrangerAgrees(q, s, e);
      }
    }
  }

  lemma StrangerAgrees(q: Ptrs, s: seq<nat>, e: nat)
    requires QueueOf(q, s) && ElemOk(q, e) && e !in s && QueueOf(Remove(q, e), s)
    ensures Harmless(q, s, e)
  {
    var r := Remove(q, e);
    if q.next[e].Elem? && q.next[e].e in s {
      var i :| 0 <= i < |s| && s[i] == q.next[e].e;
      assert r.prev[s[i]] == LocBefore(s, i) == q.prev[s[i]];
    }
    if q.prev[e].Next? && q.prev[e].e in s {
      var i :| 0 <= i < |s| && s[i] == q.prev[e].e;
      assert r.next[s[i]] == LinkAt(s, i + 1) == q.next[s[i]];
    }
  }

  // The pointer at an address.
  function Load(q: Ptrs, loc: Loc): Link
    requires LocOk(q, loc)
  {
    if loc.Head? then q.first else q.next[loc.e]
  }

  // Forward pointers that agree on the first i places of s spell the same first i elements.
  lemma {:induction false} SamePrefix(q: Ptrs, r: Ptrs, s: seq<nat>, l: seq<nat>, i: nat)
    requires ListOf(q, s) && ListOf(r, l) && |r.next| == |q.next| && i <= |s|
    requires forall j :: 0 <= j < i ==> Load(r, LocBefore(s, j)) == Load(q, LocBefore(s, j))
    ensures i <= |l| && l[..i] == s[..i]
  {
    if i > 0 {
      SamePrefix(q, r, s, l, i - 1);
      var j := i - 1;
      assert Load(q, LocBefore(s, j)) == LinkAt(s, j) by { ForwardLink(q, s, j); }
      assert LocBefore(l, j) == LocBefore(s, j) by {
        assert j > 0 ==> l[..j][j - 1] == s[..j][j - 1];
      }
      assert Load(r, LocBefore(l, j)) == LinkAt(l, j) by { ForwardLink(r, l, j); }
      assert l[j] == s[j];
    }
  }

  lemma ForwardLink(q: Ptrs, s: seq<nat>, j: nat)
    requires ListOf(q, s) && j <= |s|
    ensures LocOk(q, LocBefore(s, j)) && Load(q, LocBefore(s, j)) == LinkAt(s, j)
  {
    if j > 0 {
      assert q.next[s[j - 1]] == LinkAt(s, j);
    }
  }

  // From places where both lists stand on the same element, untouched pointers spell the same rest.
  lemma {:induction false} SameRest(q: Ptrs, r: Ptrs, s: seq<nat>, l: seq<nat>, j: nat, k: nat, m: nat)
    requires ListOf(q, s) && ListOf(r, l) && |r.next| == |q.next|
    requires j < |s| && k < |l| && l[k] == s[j] && j + m < |s|
    requires forall i :: j <= i < |s| ==> s[i] < |q.next| && r.next[s[i]] == q.next[s[i]]
    ensures k + m < |l| && l[k + m] == s[j + m]
  {
    hide ListOf;
    if m > 0 {
      SameRest(q, r, s, l, j, k, m - 1);
      ForwardLink(q, s, j + m);
      ForwardLink(r, l, k + m);
      var x := s[j + m - 1];
      assert r.next[x] == q.next[x];
    }
  }

  lemma RestEnds(q: Ptrs, r: Ptrs, s: seq<nat>, l: seq<nat>, j: nat, k: nat)
    requires ListOf(q, s) && ListOf(r, l) && |r.next| == |q.next|
    requires j < |s| && k < |l| && l[k] == s[j]
    requires forall i :: j <= i < |s| ==> s[i] < |q.next| && r.next[s[i]] == q.next[s[i]]
    ensures |l| - k == |s| - j && forall i :: k <= i < |l| ==> l[i] == s[i - k + j]
  {
    hide ListOf;
    var n := |s| - j;
    SameRest(q, r, s, l, j, k, n - 1);
    ForwardLink(q, s, |s|);
    ForwardLink(r, l, k + n);
    var x := s[|s| - 1];
    assert r.next[x] == q.next[x];
    forall i | k <= i < |l| ensures l[i] == s[i - k + j] {
      SameRest(q, r, s, l, j, k, i - k);
    }
  }

  lemma Longest(s: seq<nat>, l: seq<nat>)
    requires Distinct(l) && |s| <= |l| && l[..|s|] == s
    ensures l == s || exists x :: x in l && x !in s
  {
    if |s| < |l| {
      forall i | 0 <= i < |s| ensures s[i] != l[|s|] {
        assert l[i] == l[..|s|][i];
      }
      assert l[|s|] in l && l[|s|] !in s;
    }
  }

  /** Whatever the removal of a stranger leaves, no other order of the same elements is spelled out. */
  lemma NoOtherOrder(q: Ptrs, s: seq<nat>, e: nat, l: seq<nat>)
    requires QueueOf(q, s) && ElemOk(q, e) && e !in s && ListOf(Remove(q, e), l)
    requires forall x :: x in l <==> x in s
    ensures l == s
  {
    RemoveFields(q, e);
    var r := Remove(q, e);
    hide Remove;
    var loc, n := q.prev[e], q.next[e];
    forall j | 0 <= j <= |s| ensures LocOk(q, LocBefore(s, j)) && LocOk(r, LocBefore(s, j))
        && Load(r, LocBefore(s, j)) == if LocBefore(s, j) == loc then n else Load(q, LocBefore(s, j))
    {
      ForwardLink(q, s, j);
    }
    if k :| 0 <= k <= |s| && LocBefore(s, k) == loc && n != LinkAt(s, k) {
      SamePrefix(q, r, s, l, k);
      assert forall i :: 0 <= i < k ==> l[i] == l[..k][i] == s[..k][i] == s[i];
      Detour(q, r, s, l, k, n);
    } else {
      forall j | 0 <= j < |s| ensures Load(r, LocBefore(s, j)) == Load(q, LocBefore(s, j)) {
        ForwardLink(q, s, j);
      }
      SamePrefix(q, r, s, l, |s|);
      assert s[..|s|] == s;
      Longest(s, l);
    }
  }

  lemma MissesOne(s: seq<nat>, l: seq<nat>, j: nat, k: nat)
    requires k < j <= |s| && k <= |l| && Distinct(s) && |l| - k == |s| - j
    requires forall i :: 0 <= i < k ==> l[i] == s[i]
    requires forall i :: k <= i < |l| ==> l[i] == s[i - k + j]
    ensures s[k] !in l
  {
  }

  // A list that leaves s before position k for another element misses element k.
  lemma Detour(q: Ptrs, r: Ptrs, s: seq<nat>, l: seq<nat>, k: nat, n: Link)
    requires ListOf(q, s) && ListOf(r, l) && |r.next| == |q.next| && k <= |s| && k <= |l|
    requires forall i :: 0 <= i < k ==> l[i] == s[i]
    requires n != LinkAt(s, k) && LocOk(r, LocBefore(s, k)) && Load(r, LocBefore(s, k)) == n
    requires forall i :: k <= i < |s| ==> s[i] < |q.next| && r.next[s[i]] == q.next[s[i]]
    requires forall x :: x in l ==> x in s
    ensures k < |s| && s[k] !in l
  {
    ForwardLink(r, l, k);
    assert LocBefore(l, k) == LocBefore(s, k);
    assert Distinct(s) && Distinct(l);
    hide ListOf;
    if n.Elem? {
      assert l[k] in l && l[k] in s;
      var j :| 0 <= j < |s| && s[j] == l[k];
      assert forall i :: 0 <= i < k ==> s[i] == l[i] != l[k];
      assert j > k;
      RestEnds(q, r, s, l, j, k);
      MissesOne(s, l, j, k);
    } else {
      assert |l| == k;
    }
  }

  /** An element in zeroed memory, as an env that never ran: its removal always faults. */
  lemma RemoveNeverQueued(q: Ptrs, e: nat)
    requires Present(q, e) && q.prev[e] == Null && q.next[e] == Nil
    ensures TryRemove(q, e) == (q.(last := Null), false)
  {
  }

  // TAILQ_INIT over n elements in zeroed memory.
  function Zeroed(n: nat): Ptrs { Ptrs(Nil, Head, seq(n, i => Nil), seq(n, i => Null)) }

  /** Env 0 runs, env 1 is its child from sys_exofork and never started: destroying the child faults. */
  lemma RemoveStrangerExample()
    ensures var q := InsertHead(Zeroed(2), 0);
      && QueueOf(q, [0]) && Present(q, 1) && TryRemove(q, 1) == (q.(last := Null), false)
  {
    var q := InsertHead(Zeroed(2), 0);
    assert q.prev[1] == Null && q.next[1] == Nil;
  }

  /**
   * Env 0, alone on the list, stops itself and then starts env 1; when the scheduler removes env 0
   * once more, its stale pointers drop the whole list.
   */
  lemma RemoveStaleExample()
    ensures var q0 := InsertTail(Zeroed(2), 0);
      && ElemOk(q0, 0)
      && var q := InsertTail(Remove(q0, 0), 1);
         && QueueOf(q, [1]) && ElemOk(q, 0)
         && Remove(q, 0).first == Nil && !QueueOf(Remove(q, 0), [1])
  {
  }

  // ------------------------------------------------------------------ pointers stay in range

  ghost predicate AllPresent(q: Ptrs) {
    && |q.prev| == |q.next|
    && (forall e {:trigger q.next[e]} :: 0 <= e < |q.next| ==> q.next[e].Elem? ==> q.next[e].e < |q.next|)
    && (forall e {:trigger q.prev[e]} :: 0 <= e < |q.next| ==> q.prev[e].Next? ==> q.prev[e].e < |q.next|)
  }

  lemma RemovePresent(q: Ptrs, e: nat)
    requires AllPresent(q) && ElemOk(q, e)
    ensures AllPresent(Remove(q, e))
  {
    RemoveFields(q, e);
  }

  lemma InsertPresent(q: Ptrs, e: nat)
    requires AllPresent(q) && e < |q.next| && LocOk(q, q.last) && (q.first.Elem? ==> q.first.e < |q.next|)
    ensures AllPresent(InsertTail(q, e)) && AllPresent(InsertHead(q, e))
  {
  }

  // ------------------------------------------------------------------ the macros in place

  class Queue {
    var first: Link
    var last: Loc
    var next: seq<Link>
    var prev: seq<Loc>

    ghost function P(): Ptrs
      reads this
    {
      Ptrs(first, last, next, prev)
    }

    /** LIST_INIT and TAILQ_INIT, over n elements in zeroed memory. */
    constructor (n: nat)
      ensures P() == Zeroed(n) && QueueOf(P(), []) && AllPresent(P())
    {
      first, last, next, prev := Nil, Head, seq(n, i => Nil), seq(n, i => Null);
    }

    // *loc = link
    method Assign(loc: Loc, link: Link)
      requires LocOk(P(), loc)
      modifies `first, `next
      ensures P() == Through(old(P()), loc, link)
    {
      match loc
      case Head => first := link;
      case Next(e) => next := next[e := link];
    }

    /** TAILQ_REMOVE; ok is false if it stores through a null pointer. */
    method TailqRemove(e: nat) returns (ok: bool)
      requires Present(P(), e)
      modifies this
      ensures (P(), ok) == TryRemove(old(P()), e)
    {
      if next[e].Elem? {
        prev := prev[next[e].e := prev[e]];
      } else {
        last := prev[e];
      }
      if prev[e].Null? {
        return false;
      }
      Assign(prev[e], next[e]);
      return true;
    }

    /** TAILQ_INSERT_TAIL. */
    method TailqInsertTail(e: nat)
      requires e < |next| == |prev| && LocOk(P(), last)
      modifies this
      ensures P() == InsertTail(old(P()), e)
    {
      next := next[e := Nil];
      prev := prev[e := last];
      Assign(last, Elem(e));
      last := Next(e);
    }

    /** TAILQ_INSERT_HEAD. */
    method TailqInsertHead(e: nat)
      requires e < |next| == |prev| && (first.Elem? ==> first.e < |prev|)
      modifies this
      ensures P() == InsertHead(old(P()), e)
    {
      var f := first;
      next := next[e := f];
      if f.Elem? {
        prev := prev[f.e := Next(e)];
      } else {
        last := Next(e);
      }
      first := Elem(e);
      prev := prev[e := Head];
    }

    /** LIST_INSERT_HEAD. */
    method ListInsertHead(e: nat, ghost s: seq<nat>)
      requires ListOf(P(), s) && e < |next| && e !in s
      modifies `first, `next, `prev
      ensures ListOf(P(), [e] + s)
    {
      InsertHeadLinks(Ptrs(first, LocBefore(s, |s|), next, prev), s, e);
      var f := first;
      next := next[e := f];
      if f.Elem? {
        prev := prev[f.e := Next(e)];
      }
      first := Elem(e);
      prev := prev[e := Head];
    }

    /** LIST_REMOVE of a member. */
    method ListRemove(e: nat, ghost s: seq<nat>, ghost k: nat)
      requires ListOf(P(), s) && k < |s| && s[k] == e
      modifies `first, `next, `prev
      ensures ListOf(P(), Without(s, k))
    {
      MemberOk(P(), s, k);
      RemoveList(P(), s, k);
      RemoveFields(P(), e);
      if next[e].Elem? {
        prev := prev[next[e].e := prev[e]];
      }
      Assign(prev[e], next[e]);
    }

    /** LIST_INSERT_AFTER a member. */
    method ListInsertAfter(at: nat, e: nat, ghost s: seq<nat>, ghost k: nat)
      requires ListOf(P(), s) && k < |s| && s[k] == at && e < |next| && e !in s
      modifies `first, `next, `prev
      ensures ListOf(P(), s[..k + 1] + [e] + s[k + 1..])
    {
      ghost var q := P();
      var n := next[at];
      assert n == LinkAt(s, k + 1) && |next| == |prev| && at < |next| && (n.Elem? ==> n.e < |next|);
      next := next[e := n];
      if n.Elem? {
        prev := prev[n.e := Next(e)];
      }
      next := next[at := Elem(e)];
      prev := prev[e := Next(at)];
      hide ListOf;
      InsertAfterList(q, s, k, e, P());
    }
  }

  lemma InsertAfterAt(q: Ptrs, s: seq<nat>, k: nat, e: nat, i: nat, r: Ptrs)
    requires ListOf(q, s) && k < |s| && e < |q.next| && e !in s && i <= |s|
    requires r.next == q.next[e := LinkAt(s, k + 1)][s[k] := Elem(e)]
    requires r.prev == (if k + 1 < |s| then q.prev[s[k + 1] := Next(e)] else q.prev)[e := Next(s[k])]
    ensures var t := s[..k + 1] + [e] + s[k + 1..];
      t[i] < |r.next| == |r.prev| && r.next[t[i]] == LinkAt(t, i + 1) && r.prev[t[i]] == LocBefore(t, i)
  {
    var t := s[..k + 1] + [e] + s[k + 1..];
    if i != k + 1 {
      var j := if i <= k then i else i - 1;
      assert t[i] == s[j];
      assert q.next[s[j]] == LinkAt(s, j + 1) && q.prev[s[j]] == LocBefore(s, j);
    }
  }

  lemma InsertAfterList(q: Ptrs, s: seq<nat>, k: nat, e: nat, r: Ptrs)
    requires ListOf(q, s) && k < |s| && e < |q.next| && e !in s && r.first == q.first
    requires r.next == q.next[e := LinkAt(s, k + 1)][s[k] := Elem(e)]
    requires r.prev == (if k + 1 < |s| then q.prev[s[k + 1] := Next(e)] else q.prev)[e := Next(s[k])]
    ensures ListOf(r, s[..k + 1] + [e] + s[k + 1..])
  {
    var t := s[..k + 1] + [e] + s[k + 1..];
    assert Distinct(t) && q.first == LinkAt(s, 0) == LinkAt(t, 0) && |r.next| == |r.prev|;
    hide ListOf;
    forall i | 0 <= i < |t|
      ensures t[i] < |r.next| && r.next[t[i]] == LinkAt(t, i + 1) && r.prev[t[i]] == LocBefore(t, i)
    {
      InsertAfterAt(q, s, k, e, i, r);
    }
    ListFrom(r, t);
  }
}
