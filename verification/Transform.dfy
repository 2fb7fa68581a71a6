/** The transformer of src/transform.c: the functions it has accepted, their slot tables, and the
    rewriting of their prologues and epilogues in the code buffer. */
module Transform {
  import opened Words
  import opened Instrs
  import opened Orders
  import opened Codes
  import opened Scan
  import opened Analysis
  import opened Layout
  import opened Windows
  import opened Shuffle
  import opened Encode
  import opened Search

  /** An accepted function with its slot table. */
  class Transformable {
    const fn: Fn
    const order: array<int>

    constructor (fn: Fn, order: array<int>)
      ensures this.fn == fn && this.order == order
    {
      this.fn, this.order := fn, order;
    }
  }

  /** All sets written in the order o, one after the other; a failure stops the writing. */
  ghost function WrittenSets(isa: Isa, text: seq<byte>, bytes: Option<nat>, fn: Fn, sets: seq<InstrSet>, o: seq<int>)
    : (r: (Rc, seq<byte>))
    requires IsPerm(o) && forall j :: 0 <= j < |sets| ==> |sets[j].instrs| == |o|
    ensures |r.1| == |text|
    decreases |sets|
  {
    if sets == [] then (Success, text)
    else
      var s := sets[0];
      var r := Encoded(isa, text, Locate(fn.addr, bytes, fn.len, s.start), Place(s.instrs, o), s.start, s.end);
      if r.0 != Success then r else WrittenSets(isa, r.1, bytes, fn, sets[1..], o)
  }

  ghost predicate SlotsAgree(fn: Fn) {
    forall j :: 0 <= j < |fn.epilogues| ==> |fn.epilogues[j].instrs| == fn.Slots()
  }

  /** The outcome of writing a function with slot table o: the prologue by the table, then each
      epilogue by its mirror. */
  ghost function Written(isa: Isa, text: seq<byte>, bytes: Option<nat>, fn: Fn, o: seq<int>): (r: (Rc, seq<byte>))
    requires SlotsAgree(fn) && IsPerm(o) && |o| == fn.Slots()
    ensures |r.1| == |text|
  {
    var r := WrittenSets(isa, text, bytes, fn, [fn.prologue], o);
    MirrorPerm(o);
    if r.0 != Success then r else WrittenSets(isa, r.1, bytes, fn, fn.epilogues, Mirror(o))
  }

  lemma WrittenOne(isa: Isa, text: seq<byte>, bytes: Option<nat>, fn: Fn, s: InstrSet, o: seq<int>)
    requires IsPerm(o) && |s.instrs| == |o|
    ensures WrittenSets(isa, text, bytes, fn, [s], o)
         == Encoded(isa, text, Locate(fn.addr, bytes, fn.len, s.start), Place(s.instrs, o), s.start, s.end)
  {
    hide Encoded, Place;
    var r := Encoded(isa, text, Locate(fn.addr, bytes, fn.len, s.start), Place(s.instrs, o), s.start, s.end);
    assert WrittenSets(isa, r.1, bytes, fn, [s][1..], o) == (Success, r.1);
  }

  method MirrorTable(order: array<int>) returns (eorder: array<int>)
    ensures fresh(eorder) && eorder[..] == Mirror(order[..])
  {
    var n := order.Length;
    eorder := new int[n];
    for i := 0 to n
      invariant forall k :: 0 <= k < i ==> eorder[k] == n - 1 - order[n - 1 - k]
    {
      eorder[i] := n - 1 - order[n - 1 - i];
    }
  }

  /** Shuffle a function's slot table and write its prologue and epilogues accordingly. */
  method Permute(isa: Isa, tf: Transformable, fw: Window, text: array<byte>, rand: nat -> nat, from: nat)
    returns (rc: Rc, next: nat)
    requires SlotsAgree(tf.fn) && tf.fn.Slots() >= 1
    requires IsPerm(tf.order[..]) && tf.order.Length == tf.fn.Slots()
    requires fw.orig == tf.fn.addr && fw.length == tf.fn.len
    modifies text, tf.order
    ensures next == from + tf.fn.Slots() - 1
    ensures tf.order[..] == Shuffled(old(tf.order[..]), 0, Draws(rand, from, tf.fn.Slots()))
    ensures IsPerm(tf.order[..])
    ensures (rc, text[..]) == Written(isa, old(text[..]), fw.data, tf.fn, tf.order[..])
  {
    hide Encoded, Shuffled, Draws, WrittenSets, Place, Mirror, IsPerm;
    StaysPerm(tf.order[..], 0, Draws(rand, from, tf.fn.Slots()));
    next := Shuffle.Shuffle(tf.order, rand, from);
    ghost var o := tf.order[..];
    var s := tf.fn.prologue;
    WrittenOne(isa, text[..], fw.data, tf.fn, s, o);
    var place, left := fw.View(s.start);
    rc := EncodeOrder(isa, s, text, place, tf.order);
    if rc != Success {
      return;
    }
    var eorder := MirrorTable(tf.order);
    ghost var m, mid := eorder[..], text[..];
    MirrorPerm(o);
    var j := 0;
    assert tf.fn.epilogues[0..] == tf.fn.epilogues;
    while j < |tf.fn.epilogues|
      invariant j <= |tf.fn.epilogues| && eorder[..] == m && tf.order[..] == o
      invariant WrittenSets(isa, text[..], fw.data, tf.fn, tf.fn.epilogues[j..], m)
             == WrittenSets(isa, mid, fw.data, tf.fn, tf.fn.epilogues, m)
      invariant rc == Success
    {
      s := tf.fn.epilogues[j];
      NextSetWritten(isa, text[..], fw.data, tf.fn, tf.fn.epilogues, j, m);
      place, left := fw.View(s.start);
      rc := EncodeOrder(isa, s, text, place, eorder);
      if rc != Success {
        return;
      }
      j := j + 1;
    }
    NoSetWritten(isa, text[..], fw.data, tf.fn, m);
    assert tf.fn.epilogues[j..] == [];
  }

  lemma NoSetWritten(isa: Isa, text: seq<byte>, bytes: Option<nat>, fn: Fn, o: seq<int>)
    requires IsPerm(o)
    ensures WrittenSets(isa, text, bytes, fn, [], o) == (Success, text)
  {
  }

  lemma NextSetWritten(isa: Isa, text: seq<byte>, bytes: Option<nat>, fn: Fn, sets: seq<InstrSet>, j: nat, o: seq<int>)
    requires IsPerm(o) && (forall k :: 0 <= k < |sets| ==> |sets[k].instrs| == |o|) && j < |sets|
    ensures var s := sets[j];
      var r := Encoded(isa, text, Locate(fn.addr, bytes, fn.len, s.start), Place(s.instrs, o), s.start, s.end);
      WrittenSets(isa, text, bytes, fn, sets[j..], o)
        == if r.0 != Success then r else WrittenSets(isa, r.1, bytes, fn, sets[j + 1..], o)
  {
    hide Encoded, Place;
    assert sets[j..][0] == sets[j] && sets[j..][1..] == sets[j + 1..];
  }

  ghost predicate NoneEmpty(orders: seq<seq<int>>) {
    forall j :: 0 <= j < |orders| ==> |orders[j]| >= 1
  }

  /** The values of rand() used before function k is shuffled. */
  ghost function DrawnBefore(orders: seq<seq<int>>, from: nat, k: nat): (n: nat)
    requires k <= |orders| && NoneEmpty(orders)
  {
    if k == 0 then from else DrawnBefore(orders, from, k - 1) + |orders[k - 1]| - 1
  }

  /** Table k shuffled in its turn. */
  ghost function ReshuffledTable(orders: seq<seq<int>>, rand: nat -> nat, from: nat, k: nat): (o: seq<int>)
    requires k < |orders| && NoneEmpty(orders)
    ensures |o| == |orders[k]|
  {
    Shuffled(orders[k], 0, Draws(rand, DrawnBefore(orders, from, k), |orders[k]|))
  }

  /** All slot tables shuffled one after the other with the values of rand() from `from` on. */
  ghost function Reshuffled(orders: seq<seq<int>>, rand: nat -> nat, from: nat, n: nat): (r: seq<seq<int>>)
    requires n <= |orders| && NoneEmpty(orders)
    ensures |r| == n
    ensures forall k :: 0 <= k < n ==> r[k] == ReshuffledTable(orders, rand, from, k)
  {
    if n == 0 then []
    else Reshuffled(orders, rand, from, n - 1) + [ReshuffledTable(orders, rand, from, n - 1)]
  }

  ghost predicate TablesFit(fns: seq<Fn>, orders: seq<seq<int>>) {
    && |fns| == |orders| && NoneEmpty(orders)
    && forall k :: 0 <= k < |fns| ==>
         SlotsAgree(fns[k]) && IsPerm(orders[k]) && |orders[k]| == fns[k].Slots()
  }

  /** The outcome of writing functions k and following, found through the text window. */
  ghost function WrittenAll(isa: Isa, text: seq<byte>, orig: u64, data: Option<nat>, length: u64,
                            fns: seq<Fn>, orders: seq<seq<int>>, k: nat): (r: (Rc, seq<byte>))
    requires TablesFit(fns, orders) && k <= |fns|
    ensures |r.1| == |text|
    decreases |fns| - k
  {
    if k == |fns| then (Success, text)
    else
      var r := Written(isa, text, Locate(orig, data, length, fns[k].addr), fns[k], orders[k]);
      if r.0 != Success then r else WrittenAll(isa, r.1, orig, data, length, fns, orders, k + 1)
  }

  /** The number of functions, k and the ones before it included, that are begun before the writing
      ends; one that fails has been begun. */
  ghost function Begun(isa: Isa, text: seq<byte>, orig: u64, data: Option<nat>, length: u64,
                       fns: seq<Fn>, orders: seq<seq<int>>, k: nat): (n: nat)
    requires TablesFit(fns, orders) && k <= |fns|
    ensures k <= n <= |fns|
    ensures WrittenAll(isa, text, orig, data, length, fns, orders, k).0 == Success ==> n == |fns|
    decreases |fns| - k
  {
    if k == |fns| then k
    else
      var r := Written(isa, text, Locate(orig, data, length, fns[k].addr), fns[k], orders[k]);
      if r.0 != Success then k + 1 else Begun(isa, r.1, orig, data, length, fns, orders, k + 1)
  }

  lemma ReshuffledFits(fns: seq<Fn>, orders: seq<seq<int>>, rand: nat -> nat, from: nat)
    requires TablesFit(fns, orders)
    ensures TablesFit(fns, Reshuffled(orders, rand, from, |orders|))
  {
    hide IsPerm, Shuffled, Draws, Reshuffled, DrawnBefore;
    var r := Reshuffled(orders, rand, from, |orders|);
    forall k | 0 <= k < |fns|
      ensures IsPerm(r[k]) && |r[k]| == fns[k].Slots()
    {
      assert r[k] == ReshuffledTable(orders, rand, from, k);
      StaysPerm(orders[k], 0, Draws(rand, DrawnBefore(orders, from, k), |orders[k]|));
    }
  }

  datatype Outcome = Outcome(rc: Rc, text: seq<byte>, orders: seq<seq<int>>, next: nat)

  /** The outcome of permuting every function. Each table is shuffled in turn, and its function
      written by it; after a failure no more tables are shuffled and no more values are drawn. */
  ghost function PermutedAll(isa: Isa, text: seq<byte>, orig: u64, data: Option<nat>, length: u64,
                             fns: seq<Fn>, orders: seq<seq<int>>, rand: nat -> nat, from: nat): (r: Outcome)
    requires TablesFit(fns, orders)
    ensures TablesFit(fns, r.orders) && |r.text| == |text|
  {
    ReshuffledFits(fns, orders, rand, from);
    var orders' := Reshuffled(orders, rand, from, |orders|);
    var r := WrittenAll(isa, text, orig, data, length, fns, orders', 0);
    var n := Begun(isa, text, orig, data, length, fns, orders', 0);
    FirstTablesFit(fns, orders, orders', n);
    Outcome(r.0, r.1, orders'[..n] + orders[n..], DrawnBefore(orders, from, n))
  }

  lemma FitNonEmpty(fns: seq<Fn>, orders: seq<seq<int>>)
    requires TablesFit(fns, orders)
    ensures NoneEmpty(orders) && |fns| == |orders|
  {
  }

  lemma FirstTablesFit(fns: seq<Fn>, orders: seq<seq<int>>, orders': seq<seq<int>>, n: nat)
    requires TablesFit(fns, orders) && TablesFit(fns, orders') && n <= |fns|
    ensures TablesFit(fns, orders'[..n] + orders[n..])
  {
    hide IsPerm, SlotsAgree;
    var mixed := orders'[..n] + orders[n..];
    assert forall k :: 0 <= k < |mixed| ==> mixed[k] == if k < n then orders'[k] else orders[k];
  }

  lemma WrittenNext(isa: Isa, text: seq<byte>, orig: u64, data: Option<nat>, length: u64,
                    fns: seq<Fn>, orders: seq<seq<int>>, k: nat)
    requires TablesFit(fns, orders) && k < |fns|
    ensures var r := Written(isa, text, Locate(orig, data, length, fns[k].addr), fns[k], orders[k]);
      WrittenAll(isa, text, orig, data, length, fns, orders, k)
        == (if r.0 != Success then r else WrittenAll(isa, r.1, orig, data, length, fns, orders, k + 1))
      && Begun(isa, text, orig, data, length, fns, orders, k)
        == (if r.0 != Success then k + 1 else Begun(isa, r.1, orig, data, length, fns, orders, k + 1))
  {
    hide Written, Locate;
  }

  lemma WrittenNone(isa: Isa, text: seq<byte>, orig: u64, data: Option<nat>, length: u64,
                    fns: seq<Fn>, orders: seq<seq<int>>)
    requires TablesFit(fns, orders)
    ensures WrittenAll(isa, text, orig, data, length, fns, orders, |fns|) == (Success, text)
    ensures Begun(isa, text, orig, data, length, fns, orders, |fns|) == |fns|
  {
  }

  lemma DrawnNext(orders: seq<seq<int>>, from: nat, k: nat)
    requires k <= |orders| && NoneEmpty(orders)
    ensures DrawnBefore(orders, from, 0) == from
    ensures k < |orders| ==> DrawnBefore(orders, from, k + 1) == DrawnBefore(orders, from, k) + |orders[k]| - 1
  {
  }

  ghost function FnsOf(tfs: seq<Transformable>): (fns: seq<Fn>)
    ensures |fns| == |tfs| && forall k :: 0 <= k < |tfs| ==> fns[k] == tfs[k].fn
  {
    seq(|tfs|, k requires 0 <= k < |tfs| => tfs[k].fn)
  }

  ghost function Tables(tfs: seq<Transformable>): (r: set<object>) {
    set k | 0 <= k < |tfs| :: tfs[k].order
  }

  ghost function OrdersOf(tfs: seq<Transformable>): (orders: seq<seq<int>>)
    reads Tables(tfs)
    ensures |orders| == |tfs| && forall k :: 0 <= k < |tfs| ==> orders[k] == tfs[k].order[..]
  {
    if tfs == [] then [] else
      assert forall k :: 0 <= k < |tfs| - 1 ==> tfs[..|tfs| - 1][k] == tfs[k];
      OrdersOf(tfs[..|tfs| - 1]) + [tfs[|tfs| - 1].order[..]]
  }

  /** The first n tables have been shuffled, the others not yet. */
  ghost predicate PartlyShuffled(tfs: seq<Transformable>, orders: seq<seq<int>>, orders': seq<seq<int>>, n: nat)
    reads Tables(tfs)
  {
    && |orders| == |orders'| == |tfs|
    && forall j :: 0 <= j < |tfs| ==> tfs[j].order[..] == if j < n then orders'[j] else orders[j]
  }

  /** The index at which a function ends, computed on pointers, which wrap. */
  function EndIndex(base: u64, bytes: nat, len: u64): int {
    (base + bytes + len) % WORD - base
  }

  /** The list has gained one function, with the table that leaves it as it is. */
  ghost predicate Added(old_: seq<Transformable>, new_: seq<Transformable>, fn: Fn)
    reads Tables(new_)
  {
    && |new_| == |old_| + 1 && new_[..|old_|] == old_
    && new_[|old_|].fn == fn
    && new_[|old_|].order[..] == Identity(fn.Slots())
  }

  /** A function whose length makes its end wrap is never accepted: its sweep is empty. */
  lemma AcceptedInside(isa: Isa, buf: seq<byte>, base: u64, bytes: nat, len: u64, addr: u64, asWritten: bool)
    requires Lawful(isa) && bytes <= |buf| && base + |buf| < WORD
    requires Analyze(isa, buf, bytes, EndIndex(base, bytes, len), addr, asWritten).Accepted?
    ensures EndIndex(base, bytes, len) == bytes + len <= |buf|
  {
    hide Runs, Hits, Record, Flat;
    var r := Sweep(isa, buf, bytes, EndIndex(base, bytes, len));
  }

  lemma AcceptedShaped(isa: Isa, buf: seq<byte>, bytes: nat, addr: u64, len: u64, asWritten: bool)
    requires Lawful(isa) && bytes <= |buf|
    requires Analyze(isa, buf, bytes, bytes + len, addr, asWritten).Accepted?
    ensures Shaped(isa, FnOf(addr, len, Analyze(isa, buf, bytes, bytes + len, addr, asWritten)))
  {
    hide Analyze, Reads, Shaped;
    AcceptedReads(isa, buf, bytes, addr, len, asWritten);
    ReadsShaped(isa, buf, bytes, FnOf(addr, len, Analyze(isa, buf, bytes, bytes + len, addr, asWritten)),
                Sweep(isa, buf, bytes, bytes + len).instrs, asWritten);
  }

  lemma ShapedSlots(isa: Isa, fn: Fn)
    requires Shaped(isa, fn)
    ensures SlotsAgree(fn) && fn.Slots() >= 2
  {
    hide SetShaped;
    forall j | 0 <= j < |fn.epilogues|
      ensures |fn.epilogues[j].instrs| == fn.Slots()
    {
      assert Mirrors(fn.prologue.instrs, fn.epilogues[j].instrs);
    }
  }

  lemma StaysFit(isa: Isa, tfs: seq<Transformable>, tf: Transformable)
    requires TablesFit(FnsOf(tfs), OrdersOf(tfs))
    requires Shaped(isa, tf.fn) && tf.order[..] == Identity(tf.fn.Slots())
    ensures TablesFit(FnsOf(tfs + [tf]), OrdersOf(tfs + [tf]))
  {
    hide Shaped, SlotsAgree, IsPerm, OrdersOf;
    ShapedSlots(isa, tf.fn);
    var fns, orders := FnsOf(tfs + [tf]), OrdersOf(tfs + [tf]);
    assert fns == FnsOf(tfs) + [tf.fn];
    assert orders == OrdersOf(tfs) + [tf.order[..]];
  }

  /** The table that tf->order starts as. */
  method IdentityTable(n: nat) returns (order: array<int>)
    ensures fresh(order) && order[..] == Identity(n)
  {
    order := new int[n];
    for i := 0 to n
      invariant forall k :: 0 <= k < i ==> order[k] == k
    {
      order[i] := i;
    }
  }

  /** No two functions share a slot table. */
  ghost predicate OwnTables(tfs: seq<Transformable>) {
    forall i, j :: 0 <= i < j < |tfs| ==> tfs[i].order != tfs[j].order
  }

  class Transform {
    const isa: Isa

    /** Whether the scan adds each run's length a second time, as src/transform.c:370 does. */
    const asWritten: bool

    var transformables: seq<Transformable>

    constructor (isa: Isa, asWritten: bool)
      requires Lawful(isa)
      ensures Valid() && transformables == [] && this.isa == isa && this.asWritten == asWritten
    {
      this.isa, this.asWritten := isa, asWritten;
      transformables := [];
    }

    ghost predicate Valid()
      reads this, Tables(transformables)
    {
      && Lawful(isa)
      && (forall k :: 0 <= k < |transformables| ==> Shaped(isa, transformables[k].fn))
      && TablesFit(FnsOf(transformables), OrdersOf(transformables))
      && OwnTables(transformables)
    }

    /** Accept the function of len bytes at addr, whose bytes start at index bytes of the buffer, if
        Analysis says so. base is the address of the buffer in the memory of this process, where
        the end of the function is computed. */
    method AddFunction(addr: u64, len: u64, buffer: array<byte>, base: u64, bytes: nat) returns (rc: Rc)
      requires Valid() && bytes <= buffer.Length && base + buffer.Length < WORD
      modifies this`transformables
      ensures Valid()
      ensures var found := Analyze(isa, buffer[..], bytes, EndIndex(base, bytes, len), addr, asWritten);
        if found.Accepted? then
          rc == Success && EndIndex(base, bytes, len) == bytes + len <= buffer.Length
            && Added(old(transformables), transformables, FnOf(addr, len, found))
        else
          rc == ETransform && transformables == old(transformables)
      ensures transformables != old(transformables) ==> fresh(transformables[|transformables| - 1].order)
    {
      hide Analyze, Shaped, IsPerm, SlotsAgree, OrdersOf, NoneEmpty;
      var found := ScanFunction(isa, buffer[..], bytes, EndIndex(base, bytes, len), addr, asWritten);
      assert OrdersOf(transformables) == old(OrdersOf(transformables));
      if found.Rejected? {
        return ETransform;
      }
      AcceptedInside(isa, buffer[..], base, bytes, len, addr, asWritten);
      AcceptedShaped(isa, buffer[..], bytes, addr, len, asWritten);
      var order := IdentityTable(|found.prologue.instrs|);
      var tf := new Transformable(FnOf(addr, len, found), order);
      assert OrdersOf(transformables) == old(OrdersOf(transformables));
      StaysFit(isa, transformables, tf);
      assert forall k :: 0 <= k < |transformables| ==> transformables[k].order != order;
      ghost var orders := OrdersOf(transformables + [tf]);
      transformables := transformables + [tf];
      assert OrdersOf(transformables) == orders;
      rc := Success;
    }

    /** The body of the loop of transform_permute_all, for function k. */
    method PermuteNext(text: Window, buffer: array<byte>, rand: nat -> nat, ghost from: nat, at: nat, k: nat,
                       ghost fns: seq<Fn>, ghost orders: seq<seq<int>>, ghost orders': seq<seq<int>>)
      returns (rc: Rc, next: nat)
      requires OwnTables(transformables) && k < |transformables|
      requires fns == FnsOf(transformables) && TablesFit(fns, orders)
      requires orders' == Reshuffled(orders, rand, from, |orders|) && at == DrawnBefore(orders, from, k)
      requires PartlyShuffled(transformables, orders, orders', k)
      modifies buffer, transformables[k].order
      ensures PartlyShuffled(transformables, orders, orders', k + 1)
      ensures next == DrawnBefore(orders, from, k + 1) && TablesFit(fns, orders')
      ensures var place := Locate(text.orig, text.data, text.length, fns[k].addr);
        (rc, buffer[..]) == Written(isa, old(buffer[..]), place, fns[k], orders'[k])
    {
      hide Written, Reshuffled, DrawnBefore, Shuffled, Draws, IsPerm, OrdersOf, SlotsAgree, Locate, Shaped;
      ReshuffledFits(fns, orders, rand, from);
      DrawnNext(orders, from, k);
      assert orders'[k] == ReshuffledTable(orders, rand, from, k);
      var tf := transformables[k];
      var bytes, left := text.View(tf.fn.addr);
      var fw := new Window(tf.fn.addr, bytes, tf.fn.len);
      rc, next := Permute(isa, tf, fw, buffer, rand, at);
    }

    /** The loop of transform_permute_all: the first n tables become those of orders', and their
        functions are written by them. */
    method PermuteEach(text: Window, buffer: array<byte>, rand: nat -> nat, from: nat,
                       ghost fns: seq<Fn>, ghost orders: seq<seq<int>>, ghost orders': seq<seq<int>>)
      returns (rc: Rc, next: nat, ghost n: nat)
      requires fns == FnsOf(transformables) && OwnTables(transformables)
      requires NoneEmpty(orders) && TablesFit(fns, orders) && TablesFit(fns, orders')
      requires orders' == Reshuffled(orders, rand, from, |orders|)
      requires PartlyShuffled(transformables, orders, orders', 0)
      modifies buffer, Tables(transformables)
      ensures (rc, buffer[..]) == WrittenAll(isa, old(buffer[..]), text.orig, text.data, text.length, fns, orders', 0)
      ensures n == Begun(isa, old(buffer[..]), text.orig, text.data, text.length, fns, orders', 0)
      ensures PartlyShuffled(transformables, orders, orders', n) && next == DrawnBefore(orders, from, n)
    {
      hide Written, WrittenAll, Begun, Reshuffled, DrawnBefore, TablesFit, NoneEmpty, OwnTables, Locate;
      DrawnNext(orders, from, 0);
      next, rc := from, Success;
      var k := 0;
      while k < |transformables|
        invariant k <= |transformables| && rc == Success
        invariant next == DrawnBefore(orders, from, k)
        invariant PartlyShuffled(transformables, orders, orders', k)
        invariant WrittenAll(isa, buffer[..], text.orig, text.data, text.length, fns, orders', k)
               == WrittenAll(isa, old(buffer[..]), text.orig, text.data, text.length, fns, orders', 0)
        invariant Begun(isa, buffer[..], text.orig, text.data, text.length, fns, orders', k)
               == Begun(isa, old(buffer[..]), text.orig, text.data, text.length, fns, orders', 0)
      {
        WrittenNext(isa, buffer[..], text.orig, text.data, text.length, fns, orders', k);
        rc, next := PermuteNext(text, buffer, rand, from, next, k, fns, orders, orders');
        k := k + 1;
        if rc != Success {
          n := k;
          return;
        }
      }
      n := k;
      WrittenNone(isa, buffer[..], text.orig, text.data, text.length, fns, orders');
    }

    /** Permute every accepted function. */
    method PermuteAll(text: Window, buffer: array<byte>, rand: nat -> nat, from: nat) returns (rc: Rc, next: nat)
      requires Valid()
      modifies buffer, Tables(transformables)
      ensures Valid()
      ensures var r := PermutedAll(isa, old(buffer[..]), text.orig, text.data, text.length,
                                   FnsOf(transformables), old(OrdersOf(transformables)), rand, from);
        Outcome(rc, buffer[..], OrdersOf(transformables), next) == r
    {
      hide WrittenAll, Begun, Reshuffled, DrawnBefore, TablesFit, NoneEmpty, OwnTables, OrdersOf, Shaped;
      ghost var fns, orders := FnsOf(transformables), OrdersOf(transformables);
      FitNonEmpty(fns, orders);
      ghost var orders' := Reshuffled(orders, rand, from, |orders|);
      ReshuffledFits(fns, orders, rand, from);
      ghost var n;
      rc, next, n := PermuteEach(text, buffer, rand, from, fns, orders, orders');
      FirstTablesFit(fns, orders, orders', n);
      assert OrdersOf(transformables) == orders'[..n] + orders[n..];
    }
  }
}
