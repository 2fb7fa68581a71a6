/** What writing a function and permuting all of them come to, told as chains of single steps; which
    tables a randomization leaves, and that it can leave any. */
module Outcomes {
  import opened Words
  import opened Instrs
  import opened Orders
  import opened Codes
  import opened Scan
  import opened Layout
  import opened Windows
  import opened Shuffle
  import opened Encode
  import opened Image
  import opened Transform
  import opened Randomize

  /** Set s written in the order o. */
  ghost function OneSet(isa: Isa, text: seq<byte>, bytes: Option<nat>, fn: Fn, s: InstrSet, o: seq<int>)
    : (r: (Rc, seq<byte>))
    requires IsPerm(o) && |s.instrs| == |o|
  {
    Encoded(isa, text, Locate(fn.addr, bytes, fn.len, s.start), Place(s.instrs, o), s.start, s.end)
  }

  /** Writing the sets in order, with the texts in between, up to the first failure. */
  ghost predicate SetChain(isa: Isa, text: seq<byte>, bytes: Option<nat>, fn: Fn, sets: seq<InstrSet>, o: seq<int>,
                           r: (Rc, seq<byte>), ts: seq<seq<byte>>)
    requires IsPerm(o) && forall j :: 0 <= j < |sets| ==> |sets[j].instrs| == |o|
  {
    && 1 <= |ts| <= |sets| + 1 && ts[0] == text && ts[|ts| - 1] == r.1
    && (forall k :: 0 <= k < |ts| - 1 ==>
         OneSet(isa, ts[k], bytes, fn, sets[k], o) == (if k + 2 == |ts| then r.0 else Success, ts[k + 1]))
    && (|ts| == 1 ==> r.0 == Success)
    && (|ts| <= |sets| ==> r.0 != Success)
  }

  lemma {:induction false} SetsExactly(isa: Isa, text: seq<byte>, bytes: Option<nat>, fn: Fn, sets: seq<InstrSet>,
                                       o: seq<int>) returns (ts: seq<seq<byte>>)
    requires IsPerm(o) && forall j :: 0 <= j < |sets| ==> |sets[j].instrs| == |o|
    ensures SetChain(isa, text, bytes, fn, sets, o, WrittenSets(isa, text, bytes, fn, sets, o), ts)
    decreases |sets|
  {
    hide Encoded, Place, Locate, IsPerm;
    if sets == [] {
      ts := [text];
    } else {
      var r := OneSet(isa, text, bytes, fn, sets[0], o);
      if r.0 != Success {
        ts := [text, r.1];
      } else {
        var rest := SetsExactly(isa, r.1, bytes, fn, sets[1..], o);
        ts := [text] + rest;
        FirstSet(isa, text, bytes, fn, sets, o, WrittenSets(isa, r.1, bytes, fn, sets[1..], o), rest);
      }
    }
  }

  lemma FirstSet(isa: Isa, text: seq<byte>, bytes: Option<nat>, fn: Fn, sets: seq<InstrSet>, o: seq<int>,
                 r: (Rc, seq<byte>), rest: seq<seq<byte>>)
    requires IsPerm(o) && (forall j :: 0 <= j < |sets| ==> |sets[j].instrs| == |o|) && sets != []
    requires var t := OneSet(isa, text, bytes, fn, sets[0], o);
      t.0 == Success && SetChain(isa, t.1, bytes, fn, sets[1..], o, r, rest)
    ensures SetChain(isa, text, bytes, fn, sets, o, r, [text] + rest)
  {
    hide OneSet, IsPerm;
    var ts := [text] + rest;
    forall k | 0 <= k < |ts| - 1
      ensures OneSet(isa, ts[k], bytes, fn, sets[k], o) == (if k + 2 == |ts| then r.0 else Success, ts[k + 1])
    {
      if k > 0 {
        assert ts[k] == rest[k - 1] && ts[k + 1] == rest[k] && sets[k] == sets[1..][k - 1];
      }
    }
  }

  /** Writing a function: first the prologue by the table, then, if that succeeds, each epilogue by the
      table's mirror, up to the first failure. */
  lemma WrittenExactly(isa: Isa, text: seq<byte>, bytes: Option<nat>, fn: Fn, o: seq<int>)
    returns (p: (Rc, seq<byte>), ts: seq<seq<byte>>)
    requires SlotsAgree(fn) && IsPerm(o) && |o| == fn.Slots()
    ensures IsPerm(Mirror(o)) && forall i :: 0 <= i < |o| ==> Mirror(o)[i] == |o| - 1 - o[|o| - 1 - i]
    ensures p == OneSet(isa, text, bytes, fn, fn.prologue, o)
    ensures p.0 != Success ==> Written(isa, text, bytes, fn, o) == p
    ensures p.0 == Success ==>
      SetChain(isa, p.1, bytes, fn, fn.epilogues, Mirror(o), Written(isa, text, bytes, fn, o), ts)
  {
    hide Encoded, Place, Locate, WrittenSets, SetChain, IsPerm;
    MirrorPerm(o);
    WrittenOne(isa, text, bytes, fn, fn.prologue, o);
    p := OneSet(isa, text, bytes, fn, fn.prologue, o);
    ts := SetsExactly(isa, p.1, bytes, fn, fn.epilogues, Mirror(o));
  }

  /** d counts the values of rand() drawn before each function, from `from` on: one less than the
      function has slots. */
  ghost predicate Drawing(orders: seq<seq<int>>, from: nat, d: seq<nat>) {
    && |d| == |orders| + 1 && d[0] == from
    && forall k :: 0 <= k < |orders| ==> d[k + 1] == d[k] + |orders[k]| - 1
  }

  /** Table t is table o shuffled with the values of rand() from `from` on. */
  ghost predicate ShuffledFrom(o: seq<int>, rand: nat -> nat, from: nat, t: seq<int>) {
    |o| >= 1 && t == Shuffled(o, 0, Draws(rand, from, |o|))
  }

  lemma {:induction false} DrawingExists(orders: seq<seq<int>>, from: nat) returns (d: seq<nat>)
    requires NoneEmpty(orders)
    ensures Drawing(orders, from, d)
    ensures forall k :: 0 <= k <= |orders| ==> d[k] == DrawnBefore(orders, from, k)
  {
    hide DrawnBefore;
    d := seq(|orders| + 1, k requires 0 <= k <= |orders| => DrawnBefore(orders, from, k));
    forall k | 0 <= k < |orders|
      ensures d[k + 1] == d[k] + |orders[k]| - 1
    {
      DrawnNext(orders, from, k);
    }
    DrawnNext(orders, from, 0);
  }

  /** The functions before number n are written one after the other, by their shuffled tables; the
      texts in between are ts, and only the last may fail. */
  ghost predicate FnChain(isa: Isa, text: seq<byte>, orig: u64, data: Option<nat>, length: u64, fns: seq<Fn>,
                          orders: seq<seq<int>>, k: nat, r: (Rc, seq<byte>), ts: seq<seq<byte>>)
    requires TablesFit(fns, orders)
  {
    && 1 <= |ts| && k + |ts| <= |fns| + 1 && ts[0] == text && ts[|ts| - 1] == r.1
    && (forall i :: 0 <= i < |ts| - 1 ==>
         Written(isa, ts[i], Locate(orig, data, length, fns[k + i].addr), fns[k + i], orders[k + i])
           == (if i + 2 == |ts| then r.0 else Success, ts[i + 1]))
    && (|ts| == 1 ==> r.0 == Success)
    && (k + |ts| <= |fns| ==> r.0 != Success)
  }

  lemma {:induction false} FnsExactly(isa: Isa, text: seq<byte>, orig: u64, data: Option<nat>, length: u64,
                                      fns: seq<Fn>, orders: seq<seq<int>>, k: nat) returns (ts: seq<seq<byte>>)
    requires TablesFit(fns, orders) && k <= |fns|
    ensures FnChain(isa, text, orig, data, length, fns, orders, k,
                    WrittenAll(isa, text, orig, data, length, fns, orders, k), ts)
    ensures Begun(isa, text, orig, data, length, fns, orders, k) == k + |ts| - 1
    decreases |fns| - k
  {
    hide Written, Locate, IsPerm, SlotsAgree;
    if k == |fns| {
      ts := [text];
    } else {
      var r := Written(isa, text, Locate(orig, data, length, fns[k].addr), fns[k], orders[k]);
      if r.0 != Success {
        ts := [text, r.1];
      } else {
        var rest := FnsExactly(isa, r.1, orig, data, length, fns, orders, k + 1);
        ts := [text] + rest;
        FirstFn(isa, text, orig, data, length, fns, orders, k,
                WrittenAll(isa, r.1, orig, data, length, fns, orders, k + 1), rest);
      }
    }
  }

  lemma FirstFn(isa: Isa, text: seq<byte>, orig: u64, data: Option<nat>, length: u64, fns: seq<Fn>,
                orders: seq<seq<int>>, k: nat, r: (Rc, seq<byte>), rest: seq<seq<byte>>)
    requires TablesFit(fns, orders) && k < |fns|
    requires var t := Written(isa, text, Locate(orig, data, length, fns[k].addr), fns[k], orders[k]);
      t.0 == Success && FnChain(isa, t.1, orig, data, length, fns, orders, k + 1, r, rest)
    ensures FnChain(isa, text, orig, data, length, fns, orders, k, r, [text] + rest)
  {
    hide Written, Locate, IsPerm, SlotsAgree;
    var ts := [text] + rest;
    forall i | 0 <= i < |ts| - 1
      ensures Written(isa, ts[i], Locate(orig, data, length, fns[k + i].addr), fns[k + i], orders[k + i])
           == (if i + 2 == |ts| then r.0 else Success, ts[i + 1])
    {
      if i > 0 {
        assert ts[i] == rest[i - 1] && ts[i + 1] == rest[i];
        assert k + i == k + 1 + (i - 1);
      }
    }
  }

  /** The first n tables are shuffled, each with its own values of rand(), and the others stay. */
  ghost predicate FirstShuffled(orders: seq<seq<int>>, rand: nat -> nat, d: seq<nat>, n: nat, t: seq<seq<int>>) {
    && n <= |orders| == |t| && |orders| <= |d|
    && (forall k :: 0 <= k < n ==> ShuffledFrom(orders[k], rand, d[k], t[k]))
    && (forall k :: n <= k < |orders| ==> t[k] == orders[k])
  }

  lemma MixedTables(orders: seq<seq<int>>, rand: nat -> nat, from: nat, d: seq<nat>, n: nat)
    requires NoneEmpty(orders) && n <= |orders| && |d| == |orders| + 1
    requires forall k :: 0 <= k <= |orders| ==> d[k] == DrawnBefore(orders, from, k)
    ensures FirstShuffled(orders, rand, d, n, Reshuffled(orders, rand, from, |orders|)[..n] + orders[n..])
  {
    hide Reshuffled, DrawnBefore, Shuffled, Draws;
    var all := Reshuffled(orders, rand, from, |orders|);
    forall k | 0 <= k < n
      ensures ShuffledFrom(orders[k], rand, d[k], all[k])
    {
      assert all[k] == ReshuffledTable(orders, rand, from, k);
    }
  }

  /** What a randomization comes to, failures included. The tables of the first |ts| - 1 functions are
      shuffled, in order and each with the next values of rand(), and the functions written by them; if
      the last of these fails the later tables stay and no more values are drawn. */
  lemma PermutedExactly(isa: Isa, text: seq<byte>, orig: u64, data: Option<nat>, length: u64, fns: seq<Fn>,
                        orders: seq<seq<int>>, rand: nat -> nat, from: nat)
    returns (d: seq<nat>, ts: seq<seq<byte>>)
    requires TablesFit(fns, orders)
    ensures 1 <= |ts| <= |orders| + 1 && Drawing(orders, from, d)
    ensures var r := PermutedAll(isa, text, orig, data, length, fns, orders, rand, from);
      && FnChain(isa, text, orig, data, length, fns, r.orders, 0, (r.rc, r.text), ts)
      && FirstShuffled(orders, rand, d, |ts| - 1, r.orders) && r.next == d[|ts| - 1]
  {
    hide WrittenAll, Begun, Reshuffled, DrawnBefore, FnChain, Written, TablesFit, NoneEmpty, FirstShuffled, Drawing;
    FitNonEmpty(fns, orders);
    ReshuffledFits(fns, orders, rand, from);
    var all := Reshuffled(orders, rand, from, |orders|);
    var written := WrittenAll(isa, text, orig, data, length, fns, all, 0);
    d := DrawingExists(orders, from);
    assert Drawing(orders, from, d) && |d| == |orders| + 1 by { DrawingLength(orders, from, d); }
    ts := FnsExactly(isa, text, orig, data, length, fns, all, 0);
    var n := Begun(isa, text, orig, data, length, fns, all, 0);
    FirstTablesFit(fns, orders, all, n);
    MixedTables(orders, rand, from, d, n);
    SameChain(isa, text, orig, data, length, fns, all, all[..n] + orders[n..], written, ts);
  }

  lemma DrawingLength(orders: seq<seq<int>>, from: nat, d: seq<nat>)
    requires Drawing(orders, from, d)
    ensures |d| == |orders| + 1
  {
  }

  lemma SameChain(isa: Isa, text: seq<byte>, orig: u64, data: Option<nat>, length: u64, fns: seq<Fn>,
                  orders: seq<seq<int>>, orders': seq<seq<int>>, r: (Rc, seq<byte>), ts: seq<seq<byte>>)
    requires TablesFit(fns, orders) && TablesFit(fns, orders')
    requires FnChain(isa, text, orig, data, length, fns, orders, 0, r, ts)
    requires forall k :: 0 <= k < |ts| - 1 ==> orders'[k] == orders[k]
    ensures FnChain(isa, text, orig, data, length, fns, orders', 0, r, ts)
  {
    hide Written, Locate, IsPerm, SlotsAgree;
  }

  /** A randomization of sound functions shuffles every table with its own values of rand(), and leaves
      the text of the shuffled tables. */
  lemma RandomizedExactly(isa: Isa, base: seq<byte>, sites: seq<Site>, orders: seq<seq<int>>,
                          orig: u64, data: Option<nat>, length: u64, rand: nat -> nat, from: nat)
    returns (d: seq<nat>)
    requires AllSound(isa, base, sites) && OrdersFit(sites, orders) && Located(sites, orig, data, length)
    ensures TablesFit(FnsAt(sites), orders)
    ensures var r := PermutedAll(isa, TextFor(isa, base, sites, orders), orig, data, length,
                                 FnsAt(sites), orders, rand, from);
      && r.rc == Success && OrdersFit(sites, r.orders) && r.text == TextFor(isa, base, sites, r.orders)
      && Drawing(orders, from, d) && r.next == d[|orders|]
      && forall k :: 0 <= k < |orders| ==> ShuffledFrom(orders[k], rand, d[k], r.orders[k])
  {
    hide PermutedAll, TextFor, AllSound, FnChain, Located, ShuffledFrom, TablesFit;
    RandomizeOnce(isa, base, sites, orders, orig, data, length, rand, from);
    var ts;
    var text := TextFor(isa, base, sites, orders);
    d, ts := PermutedExactly(isa, text, orig, data, length, FnsAt(sites), orders, rand, from);
    var r := PermutedAll(isa, text, orig, data, length, FnsAt(sites), orders, rand, from);
    SuccessIsWhole(isa, text, orig, data, length, FnsAt(sites), r.orders, (r.rc, r.text), ts);
  }

  lemma SuccessIsWhole(isa: Isa, text: seq<byte>, orig: u64, data: Option<nat>, length: u64, fns: seq<Fn>,
                       orders: seq<seq<int>>, r: (Rc, seq<byte>), ts: seq<seq<byte>>)
    requires TablesFit(fns, orders) && r.0 == Success
    requires FnChain(isa, text, orig, data, length, fns, orders, 0, r, ts)
    ensures |ts| == |fns| + 1
  {
  }

  /** Values of rand() that shuffle the first n tables into those of t. */
  lemma {:induction false} ShuffleInto(orders: seq<seq<int>>, t: seq<seq<int>>, from: nat, d: seq<nat>, n: nat)
    returns (rand: nat -> nat)
    requires NoneEmpty(orders) && |t| == |orders| && Drawing(orders, from, d) && n <= |orders|
    requires forall k :: 0 <= k < |orders| ==> IsPerm(orders[k]) && IsPerm(t[k]) && |t[k]| == |orders[k]|
    ensures forall k :: 0 <= k < n ==> ShuffledFrom(orders[k], rand, d[k], t[k])
    decreases n
  {
    hide IsPerm, Shuffled, Draws, ShuffledFrom, Drawing;
    if n == 0 {
      rand := _ => 0;
    } else {
      DrawingLength(orders, from, d);
      var before := ShuffleInto(orders, t, from, d, n - 1);
      var cs := ChoicesFor(orders[n - 1], t[n - 1]);
      var lo := d[n - 1];
      rand := (x: nat) => if lo <= x < lo + |cs| then cs[x - lo] else before(x);
      SameDraws(rand, lo, cs, |orders[n - 1]|);
      ShuffledBy(orders[n - 1], rand, lo, cs, t[n - 1]);
      forall k | 0 <= k < n - 1
        ensures ShuffledFrom(orders[k], rand, d[k], t[k])
      {
        DrawnEarlier(orders, from, d, k, n - 1);
        EarlierStays(orders[k], before, rand, d[k], t[k]);
      }
    }
  }

  lemma ChoicesFor(o: seq<int>, t: seq<int>) returns (cs: seq<nat>)
    requires IsPerm(o) && IsPerm(t) && |o| == |t| >= 1
    ensures Choices(cs, |o|) && Shuffled(o, 0, cs) == t
  {
    EachPermutationOnce(o, t);
    cs :| Choices(cs, |o|) && Shuffled(o, 0, cs) == t;
  }

  lemma ShuffledBy(o: seq<int>, rand: nat -> nat, from: nat, cs: seq<nat>, t: seq<int>)
    requires |o| >= 1 && Draws(rand, from, |o|) == cs && Shuffled(o, 0, cs) == t
    ensures ShuffledFrom(o, rand, from, t)
  {
  }

  lemma EarlierStays(o: seq<int>, before: nat -> nat, rand: nat -> nat, from: nat, t: seq<int>)
    requires ShuffledFrom(o, before, from, t)
    requires forall x :: from <= x < from + |o| - 1 ==> rand(x) == before(x)
    ensures ShuffledFrom(o, rand, from, t)
  {
    assert Draws(rand, from, |o|) == Draws(before, from, |o|);
  }

  lemma {:induction false} DrawnEarlier(orders: seq<seq<int>>, from: nat, d: seq<nat>, k: nat, n: nat)
    requires NoneEmpty(orders) && Drawing(orders, from, d) && k < n <= |orders|
    ensures d[k] + |orders[k]| - 1 <= d[n]
    decreases n
  {
    if k + 1 < n {
      DrawnEarlier(orders, from, d, k, n - 1);
    }
  }

  /** Every choice of tables is within reach: from any tables, some values of rand() make one
      randomization leave exactly the text of the tables t. */
  lemma AnyTablesReached(isa: Isa, base: seq<byte>, sites: seq<Site>, orders: seq<seq<int>>, t: seq<seq<int>>,
                         orig: u64, data: Option<nat>, length: u64, from: nat) returns (rand: nat -> nat)
    requires AllSound(isa, base, sites) && OrdersFit(sites, orders) && OrdersFit(sites, t)
    requires Located(sites, orig, data, length)
    ensures TablesFit(FnsAt(sites), orders)
    ensures var r := PermutedAll(isa, TextFor(isa, base, sites, orders), orig, data, length,
                                 FnsAt(sites), orders, rand, from);
      r.rc == Success && r.orders == t && r.text == TextFor(isa, base, sites, t)
  {
    hide PermutedAll, TextFor, AllSound, Located, IsPerm;
    TablesFitSites(isa, base, sites, orders);
    var d := DrawingExists(orders, from);
    rand := ShuffleInto(orders, t, from, d, |orders|);
    var d' := RandomizedExactly(isa, base, sites, orders, orig, data, length, rand, from);
    var r := PermutedAll(isa, TextFor(isa, base, sites, orders), orig, data, length, FnsAt(sites), orders, rand, from);
    forall k | 0 <= k < |orders|
      ensures r.orders[k] == t[k]
    {
      SameDrawing(orders, from, d, d', k);
      assert ShuffledFrom(orders[k], rand, d[k], t[k]) && ShuffledFrom(orders[k], rand, d'[k], r.orders[k]);
    }
    assert r.orders == t;
  }

  lemma {:induction false} SameDrawing(orders: seq<seq<int>>, from: nat, d: seq<nat>, d': seq<nat>, k: nat)
    requires Drawing(orders, from, d) && Drawing(orders, from, d') && k <= |orders|
    ensures d[k] == d'[k]
  {
    if k > 0 {
      SameDrawing(orders, from, d, d', k - 1);
      assert d[k - 1 + 1] == d[k - 1] + |orders[k - 1]| - 1 && d'[k - 1 + 1] == d'[k - 1] + |orders[k - 1]| - 1;
    }
  }
}
