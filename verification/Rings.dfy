/** The circular doubly linked lists of src/list.h. The first node of a ring usually is the list
    head; the others are its entries in order. */
module Rings {
  import opened Orders

  /** null stands for the poison values of a deleted node. */
  class ListHead {
    var next: ListHead?
    var prev: ListHead?

    constructor ()
      ensures next == this && prev == this
    {
      next, prev := this, this;
    }
  }

  ghost predicate Linked(a: ListHead, b: ListHead)
    reads a, b
  {
    a.next == b && b.prev == a
  }

  /** Each node of s linked to the next one. */
  ghost predicate Chain(s: seq<ListHead>)
    reads s
  {
    forall i :: 0 < i < |s| ==> Linked(s[i - 1], s[i])
  }

  /** The nodes of s, in this order, linked into a circle. */
  ghost predicate Ring(s: seq<ListHead>)
    reads s
  {
    s != [] && Distinct(s) && Chain(s) && Linked(s[|s| - 1], s[0])
  }

  /** No node of s is a node of t. */
  ghost predicate Apart(s: seq<ListHead>, t: seq<ListHead>) {
    forall i, j :: 0 <= i < |s| && 0 <= j < |t| ==> s[i] != t[j]
  }

  lemma ApartIn(s: seq<ListHead>, t: seq<ListHead>)
    requires Apart(s, t)
    ensures forall i :: 0 <= i < |s| ==> s[i] !in t
    ensures forall j :: 0 <= j < |t| ==> t[j] !in s
  {
  }

  /** A ring none of whose nodes has changed. */
  twostate lemma RingKept(s: seq<ListHead>)
    requires old(Ring(s))
    requires forall i :: 0 <= i < |s| ==> s[i].next == old(s[i].next) && s[i].prev == old(s[i].prev)
    ensures Ring(s)
  {
    forall i | 0 < i < |s|
      ensures Linked(s[i - 1], s[i])
    {
      assert old(Linked(s[i - 1], s[i]));
    }
  }

  /** A chain of which only the outer links have changed. */
  twostate lemma ChainKept(s: seq<ListHead>)
    requires old(Chain(s))
    requires forall i :: 0 <= i < |s| - 1 ==> s[i].next == old(s[i].next)
    requires forall i :: 0 < i < |s| ==> s[i].prev == old(s[i].prev)
    ensures Chain(s)
  {
    forall i | 0 < i < |s|
      ensures Linked(s[i - 1], s[i])
    {
      assert old(Linked(s[i - 1], s[i]));
    }
  }

  lemma ChainJoin(a: seq<ListHead>, b: seq<ListHead>)
    requires a != [] && b != []
    ensures Chain(a + b) <==> Chain(a) && Chain(b) && Linked(a[|a| - 1], b[0])
  {
    var s := a + b;
    assert s[|a| - 1] == a[|a| - 1] && s[|a|] == b[0];
    if Chain(s) {
      forall i | 0 < i < |a| ensures Linked(a[i - 1], a[i]) {
        assert Linked(s[i - 1], s[i]);
      }
      forall i | 0 < i < |b| ensures Linked(b[i - 1], b[i]) {
        assert Linked(s[|a| + i - 1], s[|a| + i]);
      }
      assert Linked(s[|a| - 1], s[|a|]);
    }
  }

  lemma DistinctJoin(a: seq<ListHead>, b: seq<ListHead>)
    ensures Distinct(a + b) <==> Distinct(a) && Distinct(b) && Apart(a, b)
  {
    var s := a + b;
    if Distinct(s) {
      assert forall i :: 0 <= i < |a| ==> a[i] == s[i];
      assert forall i :: 0 <= i < |b| ==> b[i] == s[|a| + i];
    }
  }

  /** A ring may be read from any of its nodes. */
  lemma RingTurns(a: seq<ListHead>, b: seq<ListHead>)
    requires Ring(a + b)
    ensures Ring(b + a)
  {
    DistinctJoin(a, b);
    DistinctJoin(b, a);
    if a == [] {
      assert b + a == a + b;
    } else if b == [] {
      assert b + a == a + b;
    } else {
      ChainJoin(a, b);
      ChainJoin(b, a);
    }
  }

  method InitListHead(list: ListHead)
    modifies list
    ensures Ring([list])
  {
    list.next := list;
    list.prev := list;
  }

  /** __list_add between the last and the first node of s. */
  method AddBetween(new_: ListHead, prev: ListHead, next: ListHead, ghost s: seq<ListHead>)
    requires Ring(s) && prev == s[|s| - 1] && next == s[0] && new_ !in s
    modifies s, new_
    ensures Ring(s + [new_])
  {
    next.prev := new_;
    new_.next := next;
    new_.prev := prev;
    prev.next := new_;
    DistinctJoin(s, [new_]);
    ChainJoin(s, [new_]);
  }

  method AddFirst(new_: ListHead, head: ListHead, ghost es: seq<ListHead>)
    requires Ring([head] + es) && new_ !in [head] + es
    modifies head, es, new_
    ensures Ring([head] + ([new_] + es))
  {
    RingTurns([head], es);
    AddBetween(new_, head, head.next, es + [head]);
    assert es + [head] + [new_] == es + ([head] + [new_]);
    RingTurns(es, [head] + [new_]);
    assert [head] + [new_] + es == [head] + ([new_] + es);
  }

  method AddTail(new_: ListHead, head: ListHead, ghost es: seq<ListHead>)
    requires Ring([head] + es) && new_ !in [head] + es
    modifies head, es, new_
    ensures Ring([head] + (es + [new_]))
  {
    AddBetween(new_, head.prev, head, [head] + es);
    assert [head] + es + [new_] == [head] + (es + [new_]);
  }

  /** __list_del_entry of the last node of a ring: the others stay a ring, and a node that is alone
      stays alone. */
  method Unlink(entry: ListHead, ghost s: seq<ListHead>)
    requires Ring(s + [entry])
    modifies s, entry
    ensures s != [] ==> Ring(s) && entry.next == s[0] && entry.prev == s[|s| - 1]
    ensures s == [] ==> Ring([entry])
  {
    DistinctJoin(s, [entry]);
    if s == [] {
      assert s + [entry] == [entry];
    } else {
      ChainJoin(s, [entry]);
    }
    entry.next.prev := entry.prev;
    entry.prev.next := entry.next;
  }

  method Del(entry: ListHead, ghost s: seq<ListHead>)
    requires Ring(s + [entry])
    modifies s, entry
    ensures s != [] ==> Ring(s)
    ensures entry.next == null && entry.prev == null
  {
    assert forall i :: 0 <= i < |s| ==> s[i] == (s + [entry])[i] != (s + [entry])[|s|];
    Unlink(entry, s);
    entry.next := null;
    entry.prev := null;
  }

  /** The new node takes the place of the old one, also when the old one is alone in its ring. */
  method Replace(old_: ListHead, new_: ListHead, ghost s: seq<ListHead>)
    requires Ring(s + [old_]) && new_ !in s + [old_]
    modifies s, old_, new_
    ensures Ring(s + [new_])
  {
    DistinctJoin(s, [old_]);
    DistinctJoin(s, [new_]);
    if s == [] {
      assert s + [old_] == [old_] && s + [new_] == [new_];
    } else {
      ChainJoin(s, [old_]);
    }
    new_.next := old_.next;
    new_.next.prev := new_;
    new_.prev := old_.prev;
    new_.prev.next := new_;
    if s != [] {
      ChainJoin(s, [new_]);
    }
  }

  /** __list_add behind the last node of a ring. */
  method AddAfter(new_: ListHead, pos: ListHead, ghost s: seq<ListHead>)
    requires Ring(s + [pos]) && new_ !in s + [pos]
    modifies s, pos, new_
    ensures Ring(s + [pos] + [new_])
  {
    RingTurns(s, [pos]);
    AddFirst(new_, pos, s);
    assert [pos] + ([new_] + s) == ([pos] + [new_]) + s;
    RingTurns([pos] + [new_], s);
    assert s + ([pos] + [new_]) == s + [pos] + [new_];
  }

  /** The first half of list_swap on one ring: entry2 leaves its place and takes that of entry1,
      and pos is the node that was before it. */
  method TakeOverInRing(entry1: ListHead, entry2: ListHead, ghost a: seq<ListHead>, ghost b: seq<ListHead>)
    returns (pos: ListHead)
    requires Ring(a + [entry1] + b + [entry2])
    modifies a, b, entry1, entry2
    ensures Ring(a + [entry2] + b) && entry1 !in a + [entry2] + b
    ensures pos == if b == [] then entry2 else b[|b| - 1]
  {
    ghost var whole := a + [entry1] + b;
    SwapNodes(entry1, entry2, a, b);
    RingEnds(whole + [entry2]);
    pos := entry2.prev;
    Del(entry2, whole);
    RingTurns(a + [entry1], b);
    assert b + (a + [entry1]) == (b + a) + [entry1];
    Replace(entry1, entry2, b + a);
    assert (b + a) + [entry2] == b + (a + [entry2]);
    RingTurns(b, a + [entry2]);
    if pos == entry1 {
      pos := entry2;
    }
  }

  lemma SwapNodes(entry1: ListHead, entry2: ListHead, a: seq<ListHead>, b: seq<ListHead>)
    requires Distinct(a + [entry1] + b + [entry2])
    ensures entry1 !in a + [entry2] + b && entry2 !in (b + a) + [entry1]
    ensures var whole := a + [entry1] + b;
      (whole + [entry2])[|whole| - 1] == if b == [] then entry1 else b[|b| - 1]
    ensures b != [] ==> b[|b| - 1] != entry1
  {
    var s := a + [entry1] + b + [entry2];
    assert s[|a|] == entry1 && s[|s| - 1] == entry2;
    assert forall i :: 0 <= i < |a| ==> a[i] == s[i];
    assert forall i :: 0 <= i < |b| ==> b[i] == s[|a| + 1 + i];
  }

  /** list_swap on entries of one ring: they change places, also as neighbours on either side. */
  method SwapInRing(entry1: ListHead, entry2: ListHead, ghost a: seq<ListHead>, ghost b: seq<ListHead>)
    requires Ring(a + [entry1] + b + [entry2])
    modifies a, b, entry1, entry2
    ensures Ring(a + [entry2] + b + [entry1])
  {
    var pos := TakeOverInRing(entry1, entry2, a, b);
    ghost var whole := a + [entry2] + b;
    ghost var ahead := whole[..|whole| - 1];
    assert ahead + [pos] == whole;
    AddAfter(entry1, pos, ahead);
  }

  lemma RingEnds(s: seq<ListHead>)
    requires Ring(s)
    ensures s[0].prev == s[|s| - 1] && s[|s| - 1].next == s[0]
    ensures |s| > 1 ==> s[|s| - 1].prev == s[|s| - 2] && s[0].next == s[1]
  {
    assert |s| > 1 ==> Linked(s[|s| - 1 - 1], s[|s| - 1]) && Linked(s[1 - 1], s[1]);
  }

  /** The first half of list_swap on two rings: entry2 leaves its ring and takes the place of
      entry1. */
  method TakeOver(entry1: ListHead, entry2: ListHead, ghost a: seq<ListHead>, ghost b: seq<ListHead>)
    returns (pos: ListHead)
    requires Ring(a + [entry1]) && Ring(b + [entry2]) && Apart(a + [entry1], b + [entry2])
    modifies a, b, entry1, entry2
    ensures Ring(a + [entry2])
    ensures b != [] ==> Ring(b) && pos == b[|b| - 1]
    ensures b == [] ==> pos == entry2
  {
    ghost var s, t := a + [entry1], b + [entry2];
    ApartIn(s, t);
    DistinctJoin(a, [entry1]);
    DistinctJoin(b, [entry2]);
    assert entry1 == s[|a|] && entry2 == t[|b|];
    assert forall x :: x in b ==> x in t;
    RingEnds(t);
    assert b != [] ==> t[|b| - 1] == b[|b| - 1] && t[|b| - 1] in t;
    pos := entry2.prev;
    label start:
    Del(entry2, b);
    RingKept@start(s);
    label deleted:
    Replace(entry1, entry2, a);
    if b != [] {
      assert forall i :: 0 <= i < |b| ==> b[i] == t[i] && b[i] != entry2;
      RingKept@deleted(b);
    }
    if pos == entry1 {
      pos := entry2;
    }
  }

  lemma AcrossNodes(entry1: ListHead, entry2: ListHead, a: seq<ListHead>, b: seq<ListHead>)
    requires Distinct(a + [entry1]) && Distinct(b + [entry2]) && Apart(a + [entry1], b + [entry2])
    ensures entry1 !in a + [entry2] && entry1 !in b && entry1 != entry2
    ensures forall i :: 0 <= i < |a + [entry2]| ==> (a + [entry2])[i] !in b && (a + [entry2])[i] != entry1
  {
    var s, t := a + [entry1], b + [entry2];
    assert s[|a|] == entry1 && t[|b|] == entry2;
    assert forall i :: 0 <= i < |a| ==> a[i] == s[i];
    assert forall i :: 0 <= i < |b| ==> b[i] == t[i];
  }

  /** list_swap on entries of two rings: they change places, unless entry2 is alone in its ring.
      Then entry1 is not moved to a ring of its own but put behind entry2. */
  method SwapAcross(entry1: ListHead, entry2: ListHead, ghost a: seq<ListHead>, ghost b: seq<ListHead>)
    requires Ring(a + [entry1]) && Ring(b + [entry2]) && Apart(a + [entry1], b + [entry2])
    modifies a, b, entry1, entry2
    ensures b != [] ==> Ring(a + [entry2]) && Ring(b + [entry1])
    ensures b == [] ==> Ring(a + [entry2] + [entry1])
  {
    AcrossNodes(entry1, entry2, a, b);
    var pos := TakeOver(entry1, entry2, a, b);
    ghost var ahead := if b == [] then a else b[..|b| - 1];
    assert ahead + [pos] == if b == [] then a + [entry2] else b;
    label taken:
    AddAfter(entry1, pos, ahead);
    if b != [] {
      RingKept@taken(a + [entry2]);
    }
  }

  /** list_swap of the entries at any two places of a ring leaves every other place as it is. */
  method Swap(entry1: ListHead, entry2: ListHead, ghost s: seq<ListHead>, ghost i: nat, ghost j: nat)
    requires Ring(s) && i < |s| && j < |s| && i != j && s[i] == entry1 && s[j] == entry2
    modifies s
    ensures Ring(s[i := entry2][j := entry1])
  {
    ghost var a, b := SwapParts(s, i, j, entry1, entry2);
    assert s[i] in s && s[j] in s;
    RingTurns(s[..j + 1], s[j + 1..]);
    SwapInRing(entry1, entry2, a, b);
    ghost var t := s[i := entry2][j := entry1];
    RingTurns(t[j + 1..], t[..j + 1]);
  }

  /** Reading a ring from behind position j: what lies before and after the entry at i. */
  lemma SwapParts(s: seq<ListHead>, i: nat, j: nat, x: ListHead, y: ListHead)
    returns (a: seq<ListHead>, b: seq<ListHead>)
    requires i < |s| && j < |s| && i != j && s[i] == x && s[j] == y
    ensures s == s[..j + 1] + s[j + 1..]
    ensures a + [x] + b + [y] == s[j + 1..] + s[..j + 1]
    ensures var t := s[i := y][j := x];
      && a + [y] + b + [x] == t[j + 1..] + t[..j + 1]
      && t[..j + 1] + t[j + 1..] == t
    ensures forall k :: 0 <= k < |a| ==> a[k] in s
    ensures forall k :: 0 <= k < |b| ==> b[k] in s
  {
    if i < j {
      a, b := s[j + 1..] + s[..i], s[i + 1..j];
      SwapAhead(s, i, j);
    } else {
      a, b := s[j + 1..i], s[i + 1..] + s[..j];
      SwapBehind(s, i, j);
    }
  }

  lemma SwapAhead<T>(s: seq<T>, i: nat, j: nat)
    requires i < j < |s|
    ensures var a, b, t := s[j + 1..] + s[..i], s[i + 1..j], s[i := s[j]][j := s[i]];
      && s == s[..j + 1] + s[j + 1..] && t == t[..j + 1] + t[j + 1..]
      && a + [s[i]] + b + [s[j]] == s[j + 1..] + s[..j + 1]
      && a + [s[j]] + b + [s[i]] == t[j + 1..] + t[..j + 1]
  {
    var t := s[i := s[j]][j := s[i]];
    Around(s, i, j);
    Around(t, i, j);
    assert t[..i] == s[..i] && t[i + 1..j] == s[i + 1..j] && t[j + 1..] == s[j + 1..];
  }

  lemma SwapBehind<T>(s: seq<T>, i: nat, j: nat)
    requires j < i < |s|
    ensures var a, b, t := s[j + 1..i], s[i + 1..] + s[..j], s[i := s[j]][j := s[i]];
      && s == s[..j + 1] + s[j + 1..] && t == t[..j + 1] + t[j + 1..]
      && a + [s[i]] + b + [s[j]] == s[j + 1..] + s[..j + 1]
      && a + [s[j]] + b + [s[i]] == t[j + 1..] + t[..j + 1]
  {
    var t := s[i := s[j]][j := s[i]];
    Around(s, j, i);
    Around(t, j, i);
    assert t[..j] == s[..j] && t[j + 1..i] == s[j + 1..i] && t[i + 1..] == s[i + 1..];
  }

  /** The parts of a sequence before, between and after two positions. */
  lemma Around<T>(s: seq<T>, i: nat, j: nat)
    requires i < j < |s|
    ensures s == s[..i + 1] + s[i + 1..] == s[..j + 1] + s[j + 1..]
    ensures s[..i + 1] == s[..i] + [s[i]] && s[i + 1..] == s[i + 1..j] + [s[j]] + s[j + 1..]
    ensures s[..j + 1] == s[..i] + [s[i]] + s[i + 1..j] + [s[j]]
  {
  }

  /** list_rotate_to_front: the ring read from the chosen entry, with the head moved before it. */
  method RotateToFront(list: ListHead, head: ListHead, ghost a: seq<ListHead>, ghost b: seq<ListHead>)
    requires Ring([head] + a + b) && b != [] && b[0] == list
    modifies head, a, b
    ensures Ring([head] + b + a)
  {
    assert [head] + a + b == [head] + (a + b);
    RingTurns([head], a + b);
    DistinctJoin(a + b, [head]);
    Unlink(head, a + b);
    RingTurns(a, b);
    ghost var rest := b[1..] + a;
    assert b + a == [list] + rest;
    assert head in [head] && forall x :: x in b + a ==> x in a + b;
    AddTail(head, list, rest);
    assert [list] + (rest + [head]) == (b + a) + [head];
    RingTurns(b + a, [head]);
    assert [head] + (b + a) == [head] + b + a;
  }

  /** list_bulk_move_tail: the segment from first to last moves to the end of the list. */
  method BulkMoveTail(head: ListHead, first: ListHead, last: ListHead,
                      ghost a: seq<ListHead>, ghost b: seq<ListHead>, ghost c: seq<ListHead>)
    requires Ring([head] + a + b + c) && b != [] && first == b[0] && last == b[|b| - 1]
    modifies head, a, b, c
    ensures Ring([head] + a + c + b)
  {
    hide Distinct, Ring;
    ghost var p := [head] + a;
    Segments(p, b, c);
    first.prev.next := last.next;
    last.next.prev := first.prev;
    head.prev.next := first;
    first.prev := head.prev;
    last.next := head;
    head.prev := last;
    Segments(p, c, b);
  }

  /** What it takes for three segments to make up a ring, the last one maybe empty. */
  lemma Segments(p: seq<ListHead>, b: seq<ListHead>, c: seq<ListHead>)
    requires p != [] && (b != [] || c != [])
    ensures Distinct(p + b + c) <==>
      Distinct(p) && Distinct(b) && Distinct(c) && Apart(p, b) && Apart(p, c) && Apart(b, c)
    ensures Ring(p + b + c) <==>
      && Distinct(p + b + c) && Chain(p) && Chain(b) && Chain(c)
      && Linked(p[|p| - 1], if b != [] then b[0] else c[0])
      && (b != [] && c != [] ==> Linked(b[|b| - 1], c[0]))
      && Linked(if c != [] then c[|c| - 1] else b[|b| - 1], p[0])
  {
    ThreeParts(p, b, c);
    if b == [] {
      assert p + b + c == p + c;
      ChainJoin(p, c);
    } else if c == [] {
      assert p + b + c == p + b;
      ChainJoin(p, b);
    } else {
      ChainJoin(p, b);
      ChainJoin(p + b, c);
    }
  }

  lemma ThreeParts(p: seq<ListHead>, b: seq<ListHead>, c: seq<ListHead>)
    ensures Distinct(p + b + c) <==>
      Distinct(p) && Distinct(b) && Distinct(c) && Apart(p, b) && Apart(p, c) && Apart(b, c)
  {
    DistinctJoin(p + b, c);
    DistinctJoin(p, b);
    assert forall i :: 0 <= i < |p| ==> p[i] == (p + b)[i];
    assert forall i :: 0 <= i < |b| ==> b[i] == (p + b)[|p| + i];
  }

  predicate IsEmpty(head: ListHead)
    reads head
  {
    head.next == head
  }

  predicate IsSingular(head: ListHead)
    reads head
  {
    !IsEmpty(head) && head.next == head.prev
  }

  /** What list_empty says of a ring. */
  lemma EmptyRing(head: ListHead, es: seq<ListHead>)
    requires Ring([head] + es)
    ensures IsEmpty(head) <==> es == []
    ensures IsSingular(head) <==> |es| == 1
    ensures es == [] ==> head.prev == head
    ensures es != [] ==> head.next == es[0] && es[0].prev == head
    ensures es != [] ==> head.prev == es[|es| - 1] && es[|es| - 1].next == head
  {
    RingEnds([head] + es);
    if es != [] {
      ChainJoin([head], es);
    }
  }

  /** __list_cut_position: everything up to entry, the last node of a, moves to list. */
  method CutBetween(list: ListHead, head: ListHead, entry: ListHead, ghost a: seq<ListHead>, ghost b: seq<ListHead>)
    requires Ring([head] + a + b) && a != [] && entry == a[|a| - 1] && list !in [head] + a + b
    modifies list, head, a, b
    ensures Ring([list] + a) && Ring([head] + b)
  {
    CutFacts(list, head, a, b);
    var newFirst := entry.next;
    list.next := head.next;
    list.next.prev := list;
    list.prev := entry;
    entry.next := list;
    head.next := newFirst;
    newFirst.prev := head;
    ChainKept(a);
    ChainKept(b);
    CutDone(list, head, a, b);
  }

  /** The links at the ends of the two parts of a list, and that all nodes involved differ. */
  lemma CutFacts(list: ListHead, head: ListHead, a: seq<ListHead>, b: seq<ListHead>)
    requires Ring([head] + a + b) && a != [] && list !in [head] + a + b
    ensures Chain(a) && Chain(b) && head.next == a[0] && a[0].prev == head
    ensures a[|a| - 1].next == (if b != [] then b[0] else head)
    ensures head.prev == (if b != [] then b[|b| - 1] else a[|a| - 1])
    ensures b != [] ==> b[0].prev == a[|a| - 1] && b[|b| - 1].next == head
    ensures CutNodes(list, head, a, b)
  {
    hide Distinct, Apart, Chain, CutNodes;
    Segments([head], a, b);
    NodesDiffer(list, head, a, b);
  }

  /** No two of the nodes that a cut is about are the same. */
  ghost predicate CutNodes(list: ListHead, head: ListHead, a: seq<ListHead>, b: seq<ListHead>) {
    && Distinct([list] + a) && Distinct([head] + b) && list != head
    && Distinct(a) && Distinct(b) && Apart(a, b)
    && (forall i :: 0 <= i < |a| ==> a[i] != list && a[i] != head)
    && (forall i :: 0 <= i < |b| ==> b[i] != list && b[i] != head)
  }

  lemma NodesDiffer(list: ListHead, head: ListHead, a: seq<ListHead>, b: seq<ListHead>)
    requires Distinct([head] + a + b) && list !in [head] + a + b
    ensures CutNodes(list, head, a, b)
  {
    hide Distinct, Apart;
    assert head in [head] + a + b;
    assert forall x :: x in a || x in b ==> x in [head] + a + b;
    ThreeParts([head], a, b);
    Solo(head, a);
    Solo(head, b);
    Solo(list, a);
    DistinctJoin([list], a);
    DistinctJoin([head], b);
  }

  lemma Solo(x: ListHead, s: seq<ListHead>)
    ensures Distinct([x]) && (Apart([x], s) <==> x !in s)
  {
    assert [x][0] == x;
  }

  lemma CutDone(list: ListHead, head: ListHead, a: seq<ListHead>, b: seq<ListHead>)
    requires Distinct([list] + a) && Distinct([head] + b) && a != []
    requires Chain(a) && Linked(list, a[0]) && Linked(a[|a| - 1], list)
    requires Chain(b) && Linked(head, if b != [] then b[0] else head)
    requires Linked(if b != [] then b[|b| - 1] else head, head)
    ensures Ring([list] + a) && Ring([head] + b)
  {
    ChainJoin([list], a);
    if b == [] {
      assert [head] + b == [head];
    } else {
      ChainJoin([head], b);
    }
  }

  /** list_cut_position at entry number k, where number 0 is the head: the first k entries move to
      list. Nothing is done for an empty list, where list is a ring afterwards exactly if it was one
      before, and for an entry that is not on a list of at most one entry. */
  method CutPosition(list: ListHead, head: ListHead, entry: ListHead, ghost es: seq<ListHead>, ghost k: nat)
    requires Ring([head] + es) && list !in [head] + es && k <= |es|
    requires entry == ([head] + es)[k] || (|es| <= 1 && entry !in [head] + es)
    modifies list, head, es
    ensures entry in [head] + es ==> Ring([head] + es[k..])
    ensures entry in [head] + es ==> (Ring([list] + es[..k]) <==> es != [] || old(Ring([list])))
    ensures es == [] || entry !in [head] + es ==>
      unchanged(list) && unchanged(head) && unchanged(es) && Ring([head] + es)
  {
    EmptyRing(head, es);
    assert es[0..] == es && [list] + es[..0] == [list];
    if IsEmpty(head) {
      return;
    }
    ghost var s := [head] + es;
    assert s[0] == head && (|es| == 1 ==> s[1] == es[0]);
    if IsSingular(head) && head.next != entry && head != entry {
      assert |es| == 1 && entry !in s;
      return;
    }
    if entry == head {
      assert k == 0;
      InitListHead(list);
      RingKept(s);
    } else {
      assert es == es[..k] + es[k..] && [head] + es == [head] + es[..k] + es[k..];
      CutBetween(list, head, entry, es[..k], es[k..]);
    }
  }

  /** The body of list_cut_before: everything before entry, the first node of b or the head, moves
      to list. */
  method CutAhead(list: ListHead, head: ListHead, entry: ListHead, ghost a: seq<ListHead>, ghost b: seq<ListHead>)
    requires Ring([head] + a + b) && a != [] && entry == (if b != [] then b[0] else head) && list !in [head] + a + b
    modifies list, head, a, b
    ensures Ring([list] + a) && Ring([head] + b)
  {
    CutFacts(list, head, a, b);
    list.next := head.next;
    list.next.prev := list;
    list.prev := entry.prev;
    list.prev.next := list;
    head.next := entry;
    entry.prev := head;
    ChainKept(a);
    ChainKept(b);
    CutDone(list, head, a, b);
  }

  /** The number of entries before entry number k, all of them when k is 0, the head. */
  function CountBefore(n: nat, k: nat): (m: nat)
    requires k <= n
    ensures m <= n
  {
    if k == 0 then n else k - 1
  }

  /** list_cut_before at entry number k: the entries before it move to list. */
  method CutBefore(list: ListHead, head: ListHead, entry: ListHead, ghost es: seq<ListHead>, ghost k: nat)
    requires Ring([head] + es) && list !in [head] + es && k <= |es| && entry == ([head] + es)[k]
    modifies list, head, es
    ensures var m := CountBefore(|es|, k);
      Ring([list] + es[..m]) && Ring([head] + es[m..])
  {
    ghost var m := CountBefore(|es|, k);
    CutPoint(head, es, k);
    if head.next == entry {
      InitListHead(list);
      assert es[..0] == [] && es[0..] == es && [list] + [] == [list];
      RingKept([head] + es);
      return;
    }
    CutAhead(list, head, entry, es[..m], es[m..]);
  }

  /** Entry number k is the one behind the entries that move; none move if it is the first. */
  lemma CutPoint(head: ListHead, es: seq<ListHead>, k: nat)
    requires Ring([head] + es) && k <= |es|
    ensures var m, entry := CountBefore(|es|, k), ([head] + es)[k];
      && entry == (if m < |es| then es[m..][0] else head)
      && (head.next == entry <==> m == 0)
      && [head] + es == [head] + es[..m] + es[m..]
  {
    EmptyRing(head, es);
    DistinctJoin([head], es);
    var m := CountBefore(|es|, k);
    assert es == es[..m] + es[m..];
    assert k > 0 ==> ([head] + es)[k] == es[k - 1];
    assert es != [] ==> [head][0] != es[0];
    assert 1 < k ==> es[0] != es[k - 1];
  }

  /** __list_splice: the entries of list go between the last and the first node of s; list itself
      is left with its old links. */
  method SpliceBetween(list: ListHead, prev: ListHead, next: ListHead, ghost es: seq<ListHead>, ghost s: seq<ListHead>)
    requires Ring([list] + es) && es != [] && Ring(s) && prev == s[|s| - 1] && next == s[0]
    requires Apart([list] + es, s)
    modifies s, es
    ensures Ring(s + es)
  {
    EmptyRing(list, es);
    SpliceFacts(list, es, s);
    var first, last := list.next, list.prev;
    first.prev := prev;
    prev.next := first;
    last.next := next;
    next.prev := last;
    ChainKept(es);
    ChainKept(s);
    ChainJoin(s, es);
    DistinctJoin(s, es);
  }

  lemma SpliceFacts(list: ListHead, es: seq<ListHead>, s: seq<ListHead>)
    requires Ring([list] + es) && es != [] && Ring(s) && Apart([list] + es, s)
    ensures Chain(es) && Distinct(es) && Apart(es, s) && Apart(s, es) && Chain(s) && Distinct(s)
    ensures forall i :: 0 <= i < |es| ==> es[i] != list
  {
    ChainJoin([list], es);
    DistinctJoin([list], es);
    assert forall i :: 0 <= i < |es| ==> es[i] == ([list] + es)[i + 1];
  }

  /** list_splice_init: the entries of list go to the front of the list at head, and list is left
      empty. */
  method SpliceInit(list: ListHead, head: ListHead, ghost es: seq<ListHead>, ghost fs: seq<ListHead>)
    requires Ring([list] + es) && Ring([head] + fs) && Apart([list] + es, [head] + fs)
    modifies list, head, es, fs
    ensures Ring([head] + (es + fs)) && Ring([list])
  {
    EmptyRing(list, es);
    assert Distinct([list] + es);
    if IsEmpty(list) {
      assert es + fs == fs && [list] + es == [list];
      return;
    }
    EmptyRing(head, fs);
    RingTurns([head], fs);
    ghost var s := fs + [head];
    TurnApart(list, head, es, fs);
    SpliceBetween(list, head, head.next, es, s);
    assert s + es == fs + ([head] + es);
    RingTurns(fs, [head] + es);
    assert [head] + es + fs == [head] + (es + fs);
    SplicedWithout(list, head, es, fs);
    label spliced:
    InitListHead(list);
    RingKept@spliced([head] + (es + fs));
  }

  lemma SplicedWithout(list: ListHead, head: ListHead, es: seq<ListHead>, fs: seq<ListHead>)
    requires Distinct([list] + es) && Apart([list] + es, [head] + fs)
    ensures forall i :: 0 <= i < |[head] + (es + fs)| ==> ([head] + (es + fs))[i] != list
    ensures forall i :: 0 <= i < |[head] + (fs + es)| ==> ([head] + (fs + es))[i] != list
  {
    var s, t := [list] + es, [head] + fs;
    assert s[0] == list && t[0] == head;
    assert forall i :: 0 <= i < |es| ==> es[i] == s[i + 1] != s[0];
    assert forall j :: 0 <= j < |fs| ==> fs[j] == t[j + 1] != s[0];
  }

  lemma TurnApart(list: ListHead, head: ListHead, es: seq<ListHead>, fs: seq<ListHead>)
    requires Apart([list] + es, [head] + fs)
    ensures Apart([list] + es, fs + [head])
  {
    var s, t := [head] + fs, fs + [head];
    forall i, j | 0 <= i < |[list] + es| && 0 <= j < |t|
      ensures ([list] + es)[i] != t[j]
    {
      assert t[j] == if j < |fs| then s[j + 1] else s[0];
    }
  }

  /** list_splice_tail_init: the entries of list go to the end of the list at head. */
  method SpliceTailInit(list: ListHead, head: ListHead, ghost es: seq<ListHead>, ghost fs: seq<ListHead>)
    requires Ring([list] + es) && Ring([head] + fs) && Apart([list] + es, [head] + fs)
    modifies list, head, es, fs
    ensures Ring([head] + (fs + es)) && Ring([list])
  {
    EmptyRing(list, es);
    assert Distinct([list] + es);
    if IsEmpty(list) {
      assert fs + es == fs && [list] + es == [list];
      return;
    }
    EmptyRing(head, fs);
    SpliceBetween(list, head.prev, head, es, [head] + fs);
    assert [head] + fs + es == [head] + (fs + es);
    SplicedWithout(list, head, es, fs);
    label spliced:
    InitListHead(list);
    RingKept@spliced([head] + (fs + es));
  }

  lemma PartsApart(list: ListHead, head: ListHead, es: seq<ListHead>, k: nat)
    requires Distinct([head] + es) && list !in [head] + es && k <= |es|
    ensures Apart([list] + es[..k], [head] + es[k..])
  {
    var s := [head] + es;
    var a, b := [list] + es[..k], [head] + es[k..];
    forall i, j | 0 <= i < |a| && 0 <= j < |b|
      ensures a[i] != b[j]
    {
      var y := if j == 0 then 0 else k + j;
      assert b[j] == s[y] && s[y] in s;
      if i > 0 {
        assert a[i] == s[i] && s[i] != s[y];
      }
    }
  }

  /** Cutting a list anywhere and splicing the cut part back to its front restores it. */
  method CutAndRejoin(list: ListHead, head: ListHead, entry: ListHead, ghost es: seq<ListHead>, ghost k: nat)
    requires Ring([head] + es) && list !in [head] + es && k <= |es| && entry == ([head] + es)[k]
    requires es != [] || Ring([list])
    modifies list, head, es
    ensures Ring([head] + es) && Ring([list])
  {
    PartsApart(list, head, es, k);
    CutPosition(list, head, entry, es, k);
    PartsIn(es, k);
    SpliceInit(list, head, es[..k], es[k..]);
  }

  lemma PartsIn(es: seq<ListHead>, k: nat)
    requires k <= |es|
    ensures es[..k] + es[k..] == es
    ensures forall i :: 0 <= i < k ==> es[..k][i] in es
    ensures forall i :: 0 <= i < |es| - k ==> es[k..][i] in es
  {
  }

  /** The same for cutting before an entry. */
  method CutBeforeAndRejoin(list: ListHead, head: ListHead, entry: ListHead, ghost es: seq<ListHead>, ghost k: nat)
    requires Ring([head] + es) && list !in [head] + es && k <= |es| && entry == ([head] + es)[k]
    modifies list, head, es
    ensures Ring([head] + es) && Ring([list])
  {
    ghost var m := CountBefore(|es|, k);
    PartsApart(list, head, es, m);
    CutBefore(list, head, entry, es, k);
    PartsIn(es, m);
    SpliceInit(list, head, es[..m], es[m..]);
  }

  ghost predicate Poisoned(e: ListHead)
    reads e
  {
    e.next == null && e.prev == null
  }

  /** Deleting the first entry of a list, read with its head first. */
  method DelFirst(entry: ListHead, head: ListHead, ghost rest: seq<ListHead>)
    requires Ring([head] + ([entry] + rest))
    modifies head, entry, rest
    ensures Ring([head] + rest) && Poisoned(entry)
  {
    assert [head] + ([entry] + rest) == ([head] + [entry]) + rest;
    RingTurns([head] + [entry], rest);
    assert rest + ([head] + [entry]) == (rest + [head]) + [entry];
    Del(entry, rest + [head]);
    RingTurns(rest, [head]);
  }

  /** The teardown loops of transform.c: a traversal that deletes each entry as it goes, with the
      next one read beforehand. Every entry is visited once, in order, and deleted; the head is
      left an empty list. */
  method CloseList(head: ListHead, ghost es: seq<ListHead>) returns (visited: seq<ListHead>)
    requires Ring([head] + es)
    modifies head, es
    ensures visited == es && Ring([head])
    ensures forall i :: 0 <= i < |es| ==> Poisoned(es[i])
  {
    FirstLinks(head, es);
    assert es[0..] == es;
    var pos := head.next;
    var n := pos.next;
    visited := [];
    ghost var i := 0;
    while pos != head
      invariant i <= |es| && visited == es[..i]
      invariant Ring([head] + es[i..])
      invariant pos == (if i < |es| then es[i] else head) && n == pos.next && n != null
      invariant forall j :: 0 <= j < i ==> Poisoned(es[j])
      decreases |es| - i
    {
      ghost var rest := es[i + 1..];
      assert es[i..] == [pos] + rest;
      FirstLinks(head, es[i..]);
      Others(head, es, i);
      DelFirst(pos, head, rest);
      FirstLinks(head, rest);
      visited := visited + [pos];
      i := i + 1;
      pos := n;
      n := pos.next;
    }
    FirstLinks(head, es[i..]);
    assert [head] + es[i..] == [head];
  }

  lemma Others(head: ListHead, es: seq<ListHead>, i: nat)
    requires i < |es| && Ring([head] + es[i..])
    requires forall j :: 0 <= j < i ==> Poisoned(es[j])
    ensures forall j :: 0 <= j < i ==> es[j] != head && es[j] !in es[i..]
  {
    var s := [head] + es[i..];
    forall x | x in s
      ensures !Poisoned(x)
    {
      var k :| 0 <= k < |s| && s[k] == x;
      if k > 0 { assert Linked(s[k - 1], s[k]); }
    }
    assert s[0] == head && forall k :: 0 <= k < |es[i..]| ==> es[i..][k] == s[k + 1];
  }

  lemma FirstLinks(head: ListHead, es: seq<ListHead>)
    requires Ring([head] + es)
    ensures head.next == if es != [] then es[0] else head
    ensures es != [] ==> es[0].next == if |es| > 1 then es[1] else head
    ensures es != [] ==> es[0] != head
  {
    var s := [head] + es;
    EmptyRing(head, es);
    assert es != [] ==> s[1] == es[0] && s[0] == head;
    if |es| > 1 {
      assert Linked(s[2 - 1], s[2]);
    }
  }
}
