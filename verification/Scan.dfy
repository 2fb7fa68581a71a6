/** The linear sweep of src/transform.c: next_set and the runs it delivers. */
module Scan {
  import opened Words
  import opened Instrs
  import opened Codes

  /** Contiguous instructions with the addresses recorded for them. */
  datatype InstrSet = InstrSet(start: u64, end: u64, instrs: seq<Instr>)

  /** What decoding from one position to another meets: the instructions up to there, or up to
      the first bytes that do not decode. */
  datatype Swept = Swept(instrs: seq<Instr>, ok: bool)

  ghost function Sweep(isa: Isa, buf: seq<byte>, w: nat, max: int): (r: Swept)
    requires Lawful(isa) && w <= |buf|
    ensures AllKnown(isa, r.instrs)
    ensures w + |Flat(r.instrs)| <= |buf|
    decreases |buf| - w
  {
    if w >= max then Swept([], true)
    else if isa.decode(buf[w..]).None? then Swept([], false)
    else
      var i := isa.decode(buf[w..]).value;
      Decoded(isa, buf[w..]);
      var rest := Sweep(isa, buf, w + |i.raw|, max);
      assert ([i] + rest.instrs)[1..] == rest.instrs;
      Swept([i] + rest.instrs, rest.ok)
  }

  /** The swept bytes are the bytes of the instructions met. The sweep goes on up to the end and no
      further, and breaks off exactly at bytes before the end that do not decode. */
  lemma {:induction false} SweptBytes(isa: Isa, buf: seq<byte>, w: nat, max: int)
    requires Lawful(isa) && w <= |buf|
    ensures var r := Sweep(isa, buf, w, max);
      var e := w + |Flat(r.instrs)|;
      && buf[w..e] == Flat(r.instrs)
      && (if r.ok then e >= max else e < max && isa.decode(buf[e..]).None?)
      && forall k :: 0 <= k < |r.instrs| ==> w + |Flat(r.instrs[..k])| < max
    decreases |buf| - w
  {
    hide Flat, Sweep;
    SweepUnfold(isa, buf, w, max);
    if w < max && isa.decode(buf[w..]).Some? {
      var i := isa.decode(buf[w..]).value;
      var m := w + |i.raw|;
      SweptBytes(isa, buf, m, max);
      var all, rest := Sweep(isa, buf, w, max).instrs, Sweep(isa, buf, m, max).instrs;
      assert buf[w..m + |Flat(rest)|] == buf[w..m] + buf[m..m + |Flat(rest)|];
      forall k | 0 <= k < |all|
        ensures w + |Flat(all[..k])| < max
      {
        FlatFirst(all, k);
        assert k > 0 ==> all[1..k] == rest[..k - 1];
      }
    }
  }

  lemma FlatFirst(l: seq<Instr>, k: nat)
    requires k < |l|
    ensures |Flat(l[..k])| == if k == 0 then 0 else |l[0].raw| + |Flat(l[1..k])|
  {
    assert k > 0 ==> l[..k][0] == l[0] && l[..k][1..] == l[1..k];
  }

  lemma SweepUnfold(isa: Isa, buf: seq<byte>, w: nat, max: int)
    requires Lawful(isa) && w <= |buf|
    ensures var r := Sweep(isa, buf, w, max);
      if w < max && isa.decode(buf[w..]).Some? then
        var i := isa.decode(buf[w..]).value;
        var m := w + |i.raw|;
        && Known(isa, i) && w < m <= |buf| && buf[w..m] == i.raw
        && r == Swept([i] + Sweep(isa, buf, m, max).instrs, Sweep(isa, buf, m, max).ok)
        && Flat(r.instrs) == i.raw + Flat(Sweep(isa, buf, m, max).instrs)
      else
        r == Swept([], w >= max) && Flat(r.instrs) == []
  {
    if w < max && isa.decode(buf[w..]).Some? {
      var i := isa.decode(buf[w..]).value;
      Decoded(isa, buf[w..]);
      var rest := Sweep(isa, buf, w + |i.raw|, max).instrs;
      assert ([i] + rest)[1..] == rest;
    }
  }

  /** Bytes written from known instructions are swept as those instructions. */
  lemma {:induction false} SweepFlat(isa: Isa, buf: seq<byte>, w: nat, l: seq<Instr>)
    requires Lawful(isa) && AllKnown(isa, l)
    requires w + |Flat(l)| <= |buf| && buf[w..w + |Flat(l)|] == Flat(l)
    ensures Sweep(isa, buf, w, w + |Flat(l)|) == Swept(l, true)
    decreases |l|
  {
    if l != [] {
      var i, m := l[0], w + |l[0].raw|;
      assert Known(isa, i);
      assert i.raw <= buf[w..] by {
        assert buf[w..m] == buf[w..w + |Flat(l)|][..|i.raw|];
      }
      DecodesAgain(isa, i, buf[w..]);
      assert buf[m..m + |Flat(l[1..])|] == buf[w..w + |Flat(l)|][|i.raw|..];
      SweepFlat(isa, buf, m, l[1..]);
      assert l == [i] + l[1..];
    }
  }

  /** The first position from k on that the test accepts. */
  function SkipTo(l: seq<Instr>, k: nat, test: Instr -> bool): (i: nat)
    requires k <= |l|
    ensures k <= i <= |l|
    ensures forall j :: k <= j < i ==> !test(l[j])
    ensures i < |l| ==> test(l[i])
    decreases |l| - k
  {
    if k == |l| || test(l[k]) then k else SkipTo(l, k + 1, test)
  }

  /** The first position from k on that the test does not accept. */
  function RunEnd(l: seq<Instr>, k: nat, test: Instr -> bool): (i: nat)
    requires k <= |l|
    ensures k <= i <= |l|
    ensures forall j :: k <= j < i ==> test(l[j])
    ensures i < |l| ==> !test(l[i])
    decreases |l| - k
  {
    if k == |l| || !test(l[k]) then k else RunEnd(l, k + 1, test)
  }

  /** The instruction that ends a run is consumed with it. */
  function PastRun(l: seq<Instr>, b: nat): (n: nat)
    requires b <= |l|
    ensures b <= n <= |l|
  {
    if b < |l| then b + 1 else b
  }

  /** A position in the bytes, seen as an address. */
  function AddrAt(orig: u64, l: seq<Instr>, k: nat): u64
    requires k <= |l|
  {
    (orig + |Flat(l[..k])|) % WORD
  }

  function SetAt(orig: u64, l: seq<Instr>, a: nat, b: nat): InstrSet
    requires a <= b <= |l|
  {
    InstrSet(AddrAt(orig, l, a), AddrAt(orig, l, b), l[a..b])
  }

  lemma AddrStep(orig: u64, l: seq<Instr>, k: nat)
    requires k < |l|
    ensures |Flat(l[..k + 1])| == |Flat(l[..k])| + |l[k].raw|
    ensures (AddrAt(orig, l, k) + |l[k].raw|) % WORD == AddrAt(orig, l, k + 1)
  {
    FlatSplit(l[..k + 1], k);
    assert l[..k + 1][..k] == l[..k] && l[..k + 1][k..] == [l[k]];
    FlatOne(l[k]);
  }

  /** Where next_set stands when it has decoded the first n instructions ahead of it. */
  ghost predicate At(isa: Isa, buf: seq<byte>, max: int, from: nat, orig: u64, r: Swept,
                     n: nat, walk: nat, orig': u64)
    requires Lawful(isa)
  {
    && n <= |r.instrs|
    && walk == from + |Flat(r.instrs[..n])| <= |buf|
    && orig' == AddrAt(orig, r.instrs, n)
    && Sweep(isa, buf, walk, max) == Swept(r.instrs[n..], r.ok)
  }

  lemma AtStart(isa: Isa, buf: seq<byte>, max: int, walk: nat, orig: u64)
    requires Lawful(isa) && walk <= |buf|
    ensures At(isa, buf, max, walk, orig, Sweep(isa, buf, walk, max), 0, walk, orig)
  {
    var l := Sweep(isa, buf, walk, max).instrs;
    assert l[0..] == l && l[..0] == [];
  }

  lemma AtStep(isa: Isa, buf: seq<byte>, max: int, from: nat, orig: u64, r: Swept,
               n: nat, walk: nat, orig': u64)
    requires Lawful(isa)
    requires At(isa, buf, max, from, orig, r, n, walk, orig') && walk < max
    ensures isa.decode(buf[walk..]).None? <==> n == |r.instrs|
    ensures n == |r.instrs| ==> !r.ok
    ensures n < |r.instrs| ==>
      var i := r.instrs[n];
      && isa.decode(buf[walk..]) == Some(i) && 0 < |i.raw|
      && At(isa, buf, max, from, orig, r, n + 1, walk + |i.raw|, (orig' + |i.raw|) % WORD)
  {
    if isa.decode(buf[walk..]).Some? {
      Decoded(isa, buf[walk..]);
      var l := r.instrs;
      assert n < |l|;
      assert l[n..][0] == l[n] && l[n..][1..] == l[n + 1..];
      AddrStep(orig, l, n);
    }
  }

  lemma AtEnd(isa: Isa, buf: seq<byte>, max: int, from: nat, orig: u64, r: Swept,
              n: nat, walk: nat, orig': u64)
    requires Lawful(isa)
    requires At(isa, buf, max, from, orig, r, n, walk, orig') && walk >= max
    ensures n == |r.instrs| && r.ok
  {
    assert |r.instrs[n..]| == 0;
  }

  /** The set collected when the first n instructions are done and more may follow. */
  ghost predicate Collected(orig: u64, l: seq<Instr>, test: Instr -> bool, n: nat, set_: InstrSet)
    requires n <= |l|
  {
    var a := SkipTo(l, 0, test);
    if set_.instrs == [] then
      SkipTo(l, n, test) == a && set_.start == set_.end == AddrAt(orig, l, n)
    else
      a < n && RunEnd(l, n, test) == RunEnd(l, a, test) && set_ == SetAt(orig, l, a, n)
  }

  lemma CollectStep(orig: u64, l: seq<Instr>, test: Instr -> bool, n: nat, set_: InstrSet)
    requires n < |l| && Collected(orig, l, test, n, set_)
    ensures var end := AddrAt(orig, l, n + 1);
      if test(l[n]) then
        Collected(orig, l, test, n + 1, InstrSet(set_.start, end, set_.instrs + [l[n]]))
      else if set_.instrs == [] then
        Collected(orig, l, test, n + 1, InstrSet(end, end, []))
      else
        n == RunEnd(l, SkipTo(l, 0, test), test)
  {
    var a := SkipTo(l, 0, test);
    if test(l[n]) {
      if set_.instrs == [] {
        assert a == n;
        assert l[a..n + 1] == [l[n]];
      } else {
        assert l[a..n + 1] == l[a..n] + [l[n]];
      }
    }
  }

  /** What one call of next_set delivers, in terms of the instructions ahead of it. */
  ghost predicate Delivered(isa: Isa, buf: seq<byte>, max: int, from: nat, orig: u64, r: Swept,
                            test: Instr -> bool, walk: nat, orig': u64, set_: InstrSet)
    requires Lawful(isa)
  {
    var a := SkipTo(r.instrs, 0, test);
    var b := RunEnd(r.instrs, a, test);
    && set_ == SetAt(orig, r.instrs, a, b)
    && At(isa, buf, max, from, orig, r, PastRun(r.instrs, b), walk, orig')
  }

  /** next_set fails exactly when undecodable bytes come before the end of the run. */
  ghost predicate Fails(r: Swept, test: Instr -> bool) {
    RunEnd(r.instrs, SkipTo(r.instrs, 0, test), test) == |r.instrs| && !r.ok
  }

  lemma Finished(orig: u64, r: Swept, test: Instr -> bool, n: nat, set_: InstrSet)
    requires n == |r.instrs| && Collected(orig, r.instrs, test, n, set_)
    ensures var a := SkipTo(r.instrs, 0, test);
      RunEnd(r.instrs, a, test) == n && set_ == SetAt(orig, r.instrs, a, n)
  {
    assert set_.instrs == [] ==> r.instrs[n..n] == [];
  }

  lemma Broken(orig: u64, l: seq<Instr>, test: Instr -> bool, n: nat, set_: InstrSet)
    requires n < |l| && !test(l[n]) && Collected(orig, l, test, n, set_) && set_.instrs != []
    ensures var a := SkipTo(l, 0, test);
      RunEnd(l, a, test) == n && set_ == SetAt(orig, l, a, n)
  {
  }

  method NextSet(isa: Isa, buf: seq<byte>, walk: nat, max: int, orig: u64, test: Instr -> bool)
    returns (rc: Rc, walk': nat, orig': u64, set_: InstrSet)
    requires Lawful(isa) && walk <= |buf|
    ensures var r := Sweep(isa, buf, walk, max);
      && rc == (if Fails(r, test) then ETransform else Success)
      && (rc == Success ==> Delivered(isa, buf, max, walk, orig, r, test, walk', orig', set_))
  {
    hide Sweep, SkipTo, RunEnd, Flat;
    ghost var r := Sweep(isa, buf, walk, max);
    ghost var n := 0;
    walk', orig' := walk, orig;
    var start, end, instrs: seq<Instr> := orig, orig, [];
    set_ := InstrSet(start, end, instrs);
    AtStart(isa, buf, max, walk, orig);
    while walk' < max
      invariant At(isa, buf, max, walk, orig, r, n, walk', orig')
      invariant Collected(orig, r.instrs, test, n, InstrSet(start, end, instrs))
      decreases |buf| - walk'
    {
      AtStep(isa, buf, max, walk, orig, r, n, walk', orig');
      var decoded := isa.decode(buf[walk'..]);
      if decoded.None? {
        Finished(orig, r, test, n, InstrSet(start, end, instrs));
        rc := ETransform;
        return;
      }
      var instr := decoded.value;
      CollectStep(orig, r.instrs, test, n, InstrSet(start, end, instrs));
      walk' := walk' + |instr.raw|;
      orig' := (orig' + |instr.raw|) % WORD;
      if test(instr) {
        end := orig';
        instrs := instrs + [instr];
        n := n + 1;
        continue;
      }
      if |instrs| > 0 {
        set_ := InstrSet(start, end, instrs);
        Broken(orig, r.instrs, test, n, set_);
        return Success, walk', orig', set_;
      }
      start, end := orig', orig';
      n := n + 1;
    }
    set_ := InstrSet(start, end, instrs);
    AtEnd(isa, buf, max, walk, orig, r, n, walk', orig');
    Finished(orig, r, test, n, set_);
    rc := Success;
  }
}
