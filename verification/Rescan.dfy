/** Scanning permuted text again: the sweep stays in step, every run is found where it was, and
    every recorded epilogue is accepted again. */
module Rescan {
  import opened Words
  import opened Instrs
  import opened Orders
  import opened Patches
  import opened Scan
  import opened Analysis
  import opened Layout
  import opened Image
  import opened Meaning

  /** Patches in address order that replace instructions by others of the same total length. */
  ghost predicate Refits(l: seq<Instr>, ips: seq<Patch<Instr>>) {
    && Fits(ips, |l|)
    && (forall i, j :: 0 <= i < j < |ips| ==> ips[i].at + |ips[i].body| <= ips[j].at)
    && (forall k :: 0 <= k < |ips| ==>
         |Flat(ips[k].body)| == |Flat(l[ips[k].at..ips[k].at + |ips[k].body|])|)
  }

  lemma RefitsPrefix(l: seq<Instr>, ips: seq<Patch<Instr>>)
    requires Refits(l, ips) && ips != []
    ensures Refits(l, ips[..|ips| - 1]) && AllClear(ips)
  {
    var n := |ips| - 1;
    assert forall k :: 0 <= k < n ==> ips[..n][k] == ips[k];
  }

  lemma BeforeLast(l: seq<Instr>, ips: seq<Patch<Instr>>, x: nat)
    requires Refits(l, ips) && ips != [] && ips[|ips| - 1].at <= x < |l|
    ensures Fits(ips[..|ips| - 1], |l|)
    ensures Apply(l, ips[..|ips| - 1])[x] == l[x]
  {
    hide Flat, Apply;
    RefitsPrefix(l, ips);
    var n := |ips| - 1;
    forall k | 0 <= k < n
      ensures !ips[..n][k].Covers(x)
    {
      assert ips[k].at + |ips[k].body| <= ips[n].at;
    }
    Outside(l, ips[..n], x);
  }

  /** The part that the last patch replaces is still the original one, and so is all after it. */
  lemma LastUntouched(l: seq<Instr>, ips: seq<Patch<Instr>>)
    requires Refits(l, ips) && ips != []
    ensures Fits(ips[..|ips| - 1], |l|)
    ensures var m, p := Apply(l, ips[..|ips| - 1]), ips[|ips| - 1];
      && m[p.at..] == l[p.at..]
      && m[p.at..p.at + |p.body|] == l[p.at..p.at + |p.body|]
  {
    hide Apply, Flat;
    RefitsPrefix(l, ips);
    var m, p := Apply(l, ips[..|ips| - 1]), ips[|ips| - 1];
    forall x | p.at <= x < |l|
      ensures m[x] == l[x]
    {
      BeforeLast(l, ips, x);
    }
    TailsAgree(l, m, p.at, p.at + |p.body|);
  }

  lemma TailsAgree<T>(l: seq<T>, m: seq<T>, a: nat, b: nat)
    requires |l| == |m| && a <= b <= |l|
    requires forall x :: a <= x < |l| ==> m[x] == l[x]
    ensures m[a..] == l[a..] && m[a..b] == l[a..b]
  {
  }

  lemma FlatSplice(l: seq<Instr>, p: Patch<Instr>)
    requires p.at + |p.body| <= |l|
    requires |Flat(p.body)| == |Flat(l[p.at..p.at + |p.body|])|
    ensures |Flat(l[..p.at])| + |Flat(p.body)| <= |Flat(l)|
    ensures Flat(Splice(l, p)) == Splice(Flat(l), Patch(|Flat(l[..p.at])|, Flat(p.body)))
  {
    hide Flat;
    var a, b := p.at, p.at + |p.body|;
    FlatParts(l, a, b);
    FlatAppend(l[..a] + p.body, l[b..]);
    FlatAppend(l[..a], p.body);
  }

  /** The byte patch that an instruction patch amounts to. */
  function BytePatch(l: seq<Instr>, p: Patch<Instr>): Patch<byte>
    requires p.at <= |l|
  {
    Patch(|Flat(l[..p.at])|, Flat(p.body))
  }

  ghost predicate Lowered(l: seq<Instr>, ips: seq<Patch<Instr>>, bps: seq<Patch<byte>>)
    requires Fits(ips, |l|)
  {
    |bps| == |ips| && forall k :: 0 <= k < |ips| ==> bps[k] == BytePatch(l, ips[k])
  }

  /** Patching instructions and then taking the bytes is taking the bytes and then patching. */
  lemma {:induction false} FlatApply(l: seq<Instr>, ips: seq<Patch<Instr>>, bps: seq<Patch<byte>>)
    requires Refits(l, ips) && Lowered(l, ips, bps)
    ensures Fits(bps, |Flat(l)|)
    ensures Flat(Apply(l, ips)) == Apply(Flat(l), bps)
    decreases |ips|
  {
    hide Flat, Apply, Splice;
    if ips == [] {
      ApplyNone(l);
      ApplyNone(Flat(l));
    } else {
      var n := |ips| - 1;
      RefitsPrefix(l, ips);
      assert forall k :: 0 <= k < n ==> bps[..n][k] == bps[k] && ips[..n][k] == ips[k];
      FlatApply(l, ips[..n], bps[..n]);
      LastUntouched(l, ips);
      var m, p := Apply(l, ips[..n]), ips[n];
      SuffixSame(l, m, p.at);
      FlatSplice(m, p);
      assert bps[n] == Patch(|Flat(m[..p.at])|, Flat(p.body));
      assert Fits(bps, |Flat(l)|);
      ApplyLast(l, ips);
      ApplyLast(Flat(l), bps);
    }
  }

  /** Lists of one byte length that agree from a on have the same byte length before a. */
  lemma SuffixSame(l: seq<Instr>, m: seq<Instr>, a: nat)
    requires |l| == |m| && a <= |l| && m[a..] == l[a..] && |Flat(l)| == |Flat(m)|
    ensures |Flat(l[..a])| == |Flat(m[..a])|
  {
    hide Flat;
    FlatSplit(l, a);
    FlatSplit(m, a);
  }

  /** No patch straddles position b. */
  ghost predicate Boundary<T>(ips: seq<Patch<T>>, b: nat) {
    forall k :: 0 <= k < |ips| ==> ips[k].at + |ips[k].body| <= b || b <= ips[k].at
  }

  /** The byte length before a boundary does not change. */
  lemma {:induction false} BoundaryKept(l: seq<Instr>, ips: seq<Patch<Instr>>, b: nat)
    requires Refits(l, ips) && Boundary(ips, b) && b <= |l|
    ensures |Flat(Apply(l, ips)[..b])| == |Flat(l[..b])|
    decreases |ips|
  {
    hide Flat, Apply, Splice;
    if ips == [] {
      ApplyNone(l);
    } else {
      var n := |ips| - 1;
      RefitsPrefix(l, ips);
      assert forall k :: 0 <= k < n ==> ips[..n][k] == ips[k];
      BoundaryKept(l, ips[..n], b);
      LastUntouched(l, ips);
      ApplyLast(l, ips);
      SplicePrefix(Apply(l, ips[..n]), ips[n], b);
    }
  }

  lemma SplicePrefix(m: seq<Instr>, p: Patch<Instr>, b: nat)
    requires p.at + |p.body| <= |m| && b <= |m| && (p.at + |p.body| <= b || b <= p.at)
    requires |Flat(p.body)| == |Flat(m[p.at..p.at + |p.body|])|
    ensures |Flat(Splice(m, p)[..b])| == |Flat(m[..b])|
  {
    hide Flat;
    if b <= p.at {
      assert Splice(m, p)[..b] == m[..b];
    } else {
      assert Splice(m, p)[..b] == Splice(m[..b], p);
      assert m[..b][p.at..p.at + |p.body|] == m[p.at..p.at + |p.body|];
      FlatSplice(m[..b], p);
    }
  }

  /** A function as accepted, without drift before a recorded set. */
  ghost predicate Scanned(isa: Isa, base: seq<byte>, s: Site, l: seq<Instr>, asWritten: bool) {
    && SoundAt(isa, base, s) && Reads(isa, base, s.at, s.fn, l, asWritten)
    && (asWritten ==> OnlyFirst(l))
  }

  /** Set j permuted, as a patch of the function's instructions. */
  ghost function RunPatch(s: Site, l: seq<Instr>, o: seq<int>, j: nat): (p: Patch<Instr>)
    requires OrderFits(s.fn, o) && j < |s.fn.Sets()| && |s.fn.Sets()[j].instrs| == s.fn.Slots()
    requires j <= |EpilogueHits(l)|
  {
    Patch(RunOf(l, j).lo, Permuted(s.fn, o, j))
  }

  /** A run patch replaces its run by the same number of instructions of the same total length. */
  lemma RunPatchFits(isa: Isa, base: seq<byte>, s: Site, l: seq<Instr>, asWritten: bool, o: seq<int>, j: nat)
    requires Scanned(isa, base, s, l, asWritten) && OrderFits(s.fn, o) && j < |s.fn.Sets()|
    ensures |s.fn.Sets()[j].instrs| == s.fn.Slots() && j <= |EpilogueHits(l)|
    ensures var p, r := RunPatch(s, l, o, j), RunOf(l, j);
      && p.at == r.lo && p.at + |p.body| == r.hi <= |l|
      && |Flat(p.body)| == |Flat(l[r.lo..r.hi])|
      && s.fn.Sets()[j] == SetAt(s.fn.addr, l, r.lo, r.hi)
  {
    hide Flat, RunOf, Permuted, EpilogueHits, Reads, AddrAt;
    SlotCount(isa, s.fn, j);
    SetRun(isa, base, s.at, s.fn, l, asWritten, j);
    PermutedKnown(isa, s.fn, o, j);
  }

  ghost function RunPatches(isa: Isa, base: seq<byte>, s: Site, l: seq<Instr>, asWritten: bool, o: seq<int>, n: nat)
    : (ips: seq<Patch<Instr>>)
    requires Scanned(isa, base, s, l, asWritten) && OrderFits(s.fn, o) && n <= |s.fn.Sets()|
    ensures |ips| == n
  {
    if n == 0 then []
    else
      RunPatchFits(isa, base, s, l, asWritten, o, n - 1);
      RunPatches(isa, base, s, l, asWritten, o, n - 1) + [RunPatch(s, l, o, n - 1)]
  }

  lemma {:induction false} RunPatchAt(isa: Isa, base: seq<byte>, s: Site, l: seq<Instr>, asWritten: bool, o: seq<int>,
                                      n: nat, j: nat)
    requires Scanned(isa, base, s, l, asWritten) && OrderFits(s.fn, o) && j < n <= |s.fn.Sets()|
    ensures |s.fn.Sets()[j].instrs| == s.fn.Slots() && j <= |EpilogueHits(l)|
    ensures RunPatches(isa, base, s, l, asWritten, o, n)[j] == RunPatch(s, l, o, j)
    decreases n
  {
    hide RunPatch, Scanned;
    RunPatchFits(isa, base, s, l, asWritten, o, j);
    if j + 1 < n {
      RunPatchAt(isa, base, s, l, asWritten, o, n - 1, j);
    }
  }

  lemma RunPatchesRefit(isa: Isa, base: seq<byte>, s: Site, l: seq<Instr>, asWritten: bool, o: seq<int>)
    requires Scanned(isa, base, s, l, asWritten) && OrderFits(s.fn, o)
    ensures Refits(l, RunPatches(isa, base, s, l, asWritten, o, |s.fn.Sets()|))
  {
    hide RunPatch, RunPatches, Flat, RunOf, EpilogueHits, Scanned;
    var n := |s.fn.Sets()|;
    var ips := RunPatches(isa, base, s, l, asWritten, o, n);
    forall k | 0 <= k < n
      ensures ips[k].at + |ips[k].body| <= |l|
      ensures |Flat(ips[k].body)| == |Flat(l[ips[k].at..ips[k].at + |ips[k].body|])|
    {
      RunPatchAt(isa, base, s, l, asWritten, o, n, k);
      RunPatchFits(isa, base, s, l, asWritten, o, k);
    }
    forall i, j | 0 <= i < j < n
      ensures ips[i].at + |ips[i].body| <= ips[j].at
    {
      RunPatchAt(isa, base, s, l, asWritten, o, n, i);
      RunPatchAt(isa, base, s, l, asWritten, o, n, j);
      RunPatchFits(isa, base, s, l, asWritten, o, i);
      RunPatchFits(isa, base, s, l, asWritten, o, j);
      RunsApart(l, i, j);
    }
  }

  /** The function's instructions after permuting. */
  ghost function Relisted(isa: Isa, base: seq<byte>, s: Site, l: seq<Instr>, asWritten: bool, o: seq<int>)
    : (m: seq<Instr>)
    requires Scanned(isa, base, s, l, asWritten) && OrderFits(s.fn, o)
    ensures |m| == |l|
  {
    RunPatchesRefit(isa, base, s, l, asWritten, o);
    Apply(l, RunPatches(isa, base, s, l, asWritten, o, |s.fn.Sets()|))
  }

  ghost predicate InRun(l: seq<Instr>, j: nat, i: int) {
    j <= |EpilogueHits(l)| && RunOf(l, j).lo <= i < RunOf(l, j).hi
  }

  /** In a recorded run stand the set's permuted instructions. */
  lemma RelistedRun(isa: Isa, base: seq<byte>, s: Site, l: seq<Instr>, asWritten: bool, o: seq<int>, j: nat)
    requires Scanned(isa, base, s, l, asWritten) && OrderFits(s.fn, o) && j < |s.fn.Sets()|
    ensures |s.fn.Sets()[j].instrs| == s.fn.Slots() && j <= |EpilogueHits(l)|
    ensures Relisted(isa, base, s, l, asWritten, o)[RunOf(l, j).lo..RunOf(l, j).hi] == Permuted(s.fn, o, j)
  {
    hide RunPatches, Flat, RunOf, Permuted, EpilogueHits, Scanned, Apply;
    var n := |s.fn.Sets()|;
    RunPatchesRefit(isa, base, s, l, asWritten, o);
    RunPatchAt(isa, base, s, l, asWritten, o, n, j);
    RunPatchFits(isa, base, s, l, asWritten, o, j);
    ReadBack(l, RunPatches(isa, base, s, l, asWritten, o, n), j);
  }

  /** Everywhere else stands the original instruction. */
  lemma RelistedRest(isa: Isa, base: seq<byte>, s: Site, l: seq<Instr>, asWritten: bool, o: seq<int>, i: nat)
    requires Scanned(isa, base, s, l, asWritten) && OrderFits(s.fn, o) && i < |l|
    requires forall j :: 0 <= j < |s.fn.Sets()| ==> !InRun(l, j, i)
    ensures Relisted(isa, base, s, l, asWritten, o)[i] == l[i]
  {
    hide RunPatch, RunPatches, Flat, RunOf, Permuted, EpilogueHits, Scanned, Apply;
    var n := |s.fn.Sets()|;
    RunPatchesRefit(isa, base, s, l, asWritten, o);
    var ips := RunPatches(isa, base, s, l, asWritten, o, n);
    forall k | 0 <= k < n
      ensures !ips[k].Covers(i)
    {
      RunPatchAt(isa, base, s, l, asWritten, o, n, k);
      RunPatchFits(isa, base, s, l, asWritten, o, k);
      assert !InRun(l, k, i);
    }
    Outside(l, ips, i);
  }

  /** p puts the permuted bytes of set j where the set was recorded. */
  ghost predicate SetBytes(fn: Fn, o: seq<int>, j: nat, p: Patch<byte>)
    requires OrderFits(fn, o)
  {
    && j < |fn.Sets()| && |fn.Sets()[j].instrs| == fn.Slots()
    && fn.addr + p.at == fn.Sets()[j].start && fn.addr + p.at + |p.body| == fn.Sets()[j].end
    && p.body == Flat(Permuted(fn, o, j))
  }

  lemma RunOffset(isa: Isa, base: seq<byte>, s: Site, l: seq<Instr>, asWritten: bool, o: seq<int>, j: nat)
    requires Scanned(isa, base, s, l, asWritten) && OrderFits(s.fn, o) && j < |s.fn.Sets()|
    ensures |s.fn.Sets()[j].instrs| == s.fn.Slots() && j <= |EpilogueHits(l)|
    ensures SetBytes(s.fn, o, j, BytePatch(l, RunPatch(s, l, o, j)))
  {
    hide Flat, RunOf, Permuted, EpilogueHits, AddrAt;
    RunPatchFits(isa, base, s, l, asWritten, o, j);
    SetInPlace(base, s.at, l, s.fn, RunOf(l, j).lo, RunOf(l, j).hi);
    FlatMonotone(l, RunOf(l, j).lo, RunOf(l, j).hi);
  }

  /** A byte of a function that no own set covers is in no set at all. */
  lemma NoOtherSet(isa: Isa, base: seq<byte>, sites: seq<Site>, k: nat, x: nat)
    requires AllSound(isa, base, sites) && k < |sites|
    requires sites[k].at <= x < sites[k].at + sites[k].fn.len
    requires forall j :: 0 <= j < |sites[k].fn.Sets()| ==> !InSet(sites[k], j, x)
    ensures !InSomeSet(sites, x)
  {
    forall i, j | 0 <= i < |sites| && 0 <= j < |sites[i].fn.Sets()|
      ensures !InSet(sites[i], j, x)
    {
      assert SoundAt(isa, base, sites[i]);
      assert InPlace(base, sites[i].at, sites[i].fn, sites[i].fn.Sets()[j]);
      assert i != k ==> !(sites[i].at <= x < sites[i].at + sites[i].fn.len);
    }
  }

  ghost function BytePatches(l: seq<Instr>, ips: seq<Patch<Instr>>): (bps: seq<Patch<byte>>)
    requires Fits(ips, |l|)
    ensures Lowered(l, ips, bps)
  {
    seq(|ips|, k requires 0 <= k < |ips| => Patch(|Flat(l[..ips[k].at])|, Flat(ips[k].body)))
  }

  /** A byte of the permuted function in a recorded set. */
  lemma SetByte(isa: Isa, base: seq<byte>, sites: seq<Site>, orders: seq<seq<int>>, k: nat, j: nat,
                p: Patch<byte>, x: nat)
    requires AllSound(isa, base, sites) && OrdersFit(sites, orders) && k < |sites|
    requires SetBytes(sites[k].fn, orders[k], j, p) && p.Covers(x)
    ensures sites[k].at + x < |base|
    ensures TextFor(isa, base, sites, orders)[sites[k].at + x] == p.body[x - p.at]
  {
    hide Flat, Permuted, TextFor, IsPerm;
    SetHolds(isa, base, sites, orders, k, j);
    var T, at := TextFor(isa, base, sites, orders), sites[k].at;
    assert T[at + p.at..at + p.at + |p.body|][x - p.at] == T[at + x];
  }

  /** A byte of the permuted function outside its recorded sets. */
  lemma RestByte(isa: Isa, base: seq<byte>, sites: seq<Site>, orders: seq<seq<int>>, k: nat,
                 bps: seq<Patch<byte>>, x: nat)
    requires AllSound(isa, base, sites) && OrdersFit(sites, orders) && k < |sites| && x < sites[k].fn.len
    requires |bps| == |sites[k].fn.Sets()|
    requires forall j :: 0 <= j < |bps| ==> SetBytes(sites[k].fn, orders[k], j, bps[j])
    requires !Covered(bps, x)
    ensures sites[k].at + x < |base|
    ensures TextFor(isa, base, sites, orders)[sites[k].at + x] == base[sites[k].at + x]
  {
    hide Flat, Permuted, TextFor, IsPerm;
    var s := sites[k];
    assert SoundAt(isa, base, s);
    var y := s.at + x;
    forall j | 0 <= j < |s.fn.Sets()|
      ensures !InSet(s, j, y)
    {
      assert SetBytes(s.fn, orders[k], j, bps[j]);
      assert bps[j].Covers(x) <==> InSet(s, j, y);
    }
    NoOtherSet(isa, base, sites, k, y);
    RestHolds(isa, base, sites, orders, y);
  }

  lemma BytesApart(l: seq<Instr>, ips: seq<Patch<Instr>>, bps: seq<Patch<byte>>)
    requires Refits(l, ips) && Lowered(l, ips, bps)
    ensures AllClear(bps)
  {
    hide Flat;
    forall i, j | 0 <= i < j < |bps|
      ensures Clear(bps[i], bps[j])
    {
      var a, b := ips[i].at, ips[i].at + |ips[i].body|;
      FlatMonotone(l, a, b);
      FlatMonotone(l[..ips[j].at], b, ips[j].at);
      assert l[..ips[j].at][..b] == l[..b];
    }
  }

  /** The permuted bytes of a function are the bytes of its rearranged instructions. */
  lemma TextRelisted(isa: Isa, base: seq<byte>, sites: seq<Site>, orders: seq<seq<int>>, k: nat,
                     l: seq<Instr>, asWritten: bool)
    requires AllSound(isa, base, sites) && OrdersFit(sites, orders) && k < |sites|
    requires Scanned(isa, base, sites[k], l, asWritten)
    ensures var s := sites[k];
      var m := Relisted(isa, base, s, l, asWritten, orders[k]);
      && |Flat(m)| == s.fn.len && s.at + s.fn.len <= |base|
      && TextFor(isa, base, sites, orders)[s.at..s.at + s.fn.len] == Flat(m)
  {
    hide Flat, RunOf, Permuted, EpilogueHits, TextFor, Apply, RunPatch, BytePatch, RunPatches, IsPerm;
    var s, o := sites[k], orders[k];
    RunPatchesRefit(isa, base, s, l, asWritten, o);
    var ips := RunPatches(isa, base, s, l, asWritten, o, |s.fn.Sets()|);
    var bps := BytePatches(l, ips);
    FlatApply(l, ips, bps);
    BytesApart(l, ips, bps);
    forall j | 0 <= j < |bps|
      ensures SetBytes(s.fn, o, j, bps[j])
    {
      RunPatchAt(isa, base, s, l, asWritten, o, |s.fn.Sets()|, j);
      RunOffset(isa, base, s, l, asWritten, o, j);
    }
    ScannedBytes(isa, base, s, l, asWritten);
    var T := TextFor(isa, base, sites, orders);
    forall x | 0 <= x < s.fn.len
      ensures T[s.at + x] == Apply(Flat(l), bps)[x]
    {
      ByteRelisted(isa, base, sites, orders, k, Flat(l), bps, x);
    }
  }

  lemma ScannedBytes(isa: Isa, base: seq<byte>, s: Site, l: seq<Instr>, asWritten: bool)
    requires Scanned(isa, base, s, l, asWritten)
    ensures |Flat(l)| == s.fn.len && s.at + s.fn.len <= |base| && base[s.at..s.at + s.fn.len] == Flat(l)
  {
  }

  lemma ByteRelisted(isa: Isa, base: seq<byte>, sites: seq<Site>, orders: seq<seq<int>>, k: nat,
                     own: seq<byte>, bps: seq<Patch<byte>>, x: nat)
    requires AllSound(isa, base, sites) && OrdersFit(sites, orders) && k < |sites| && x < sites[k].fn.len
    requires |own| == sites[k].fn.len && sites[k].at + |own| <= |base|
    requires base[sites[k].at..sites[k].at + |own|] == own
    requires |bps| == |sites[k].fn.Sets()| && Fits(bps, |own|) && AllClear(bps)
    requires forall j :: 0 <= j < |bps| ==> SetBytes(sites[k].fn, orders[k], j, bps[j])
    ensures TextFor(isa, base, sites, orders)[sites[k].at + x] == Apply(own, bps)[x]
  {
    hide Flat, Permuted, TextFor, IsPerm, Apply, SoundAt, SetBytes;
    if Covered(bps, x) {
      var j :| 0 <= j < |bps| && bps[j].Covers(x);
      SetByte(isa, base, sites, orders, k, j, bps[j], x);
      ByteInside(own, bps, j, x);
    } else {
      RestByte(isa, base, sites, orders, k, bps, x);
      Outside(own, bps, x);
      assert base[sites[k].at..sites[k].at + |own|][x] == base[sites[k].at + x];
    }
  }

  /** Every instruction of a recorded set passes the test that the set was collected with. */
  lemma SetPasses(isa: Isa, fn: Fn, j: nat, i: nat)
    requires Shaped(isa, fn) && j < |fn.Sets()| && i < |fn.Sets()[j].instrs|
    requires j > 0 ==> InEpilogue(fn.Sets()[j].instrs[i])
    ensures InPrologue(fn.Sets()[j].instrs[i]) == (j == 0)
    ensures InEpilogue(fn.Sets()[j].instrs[i]) == (j > 0)
  {
    assert j == 0 ==> InPrologue(fn.prologue.instrs[i]);
  }

  lemma EpiloguePasses(isa: Isa, base: seq<byte>, s: Site, l: seq<Instr>, asWritten: bool, j: nat, i: nat)
    requires Scanned(isa, base, s, l, asWritten) && j < |s.fn.Sets()| && i < |s.fn.Sets()[j].instrs|
    ensures j > 0 ==> InEpilogue(s.fn.Sets()[j].instrs[i])
  {
    hide Flat, Reads, EpilogueHits, EpilogueRuns, Runs, AddrAt;
    SetRun(isa, base, s.at, s.fn, l, asWritten, j);
    if j > 0 {
      var r := RunOf(l, j);
      HitIsRun(l, j);
      RunsAreMaximal(l, AfterPrologue(l), InEpilogue, r);
      assert Passes(l, InEpilogue, r.lo + i);
    }
  }

  lemma HitIsRun(l: seq<Instr>, j: nat)
    requires 0 < j <= |EpilogueHits(l)|
    ensures RunOf(l, j) in Runs(l, AfterPrologue(l), InEpilogue)
  {
    hide Runs, Hits;
  }

  /** A permuted set passes the same test. */
  lemma PermutedPasses(isa: Isa, base: seq<byte>, s: Site, l: seq<Instr>, asWritten: bool, o: seq<int>, j: nat, p: nat)
    requires Scanned(isa, base, s, l, asWritten) && OrderFits(s.fn, o) && j < |s.fn.Sets()| && p < s.fn.Slots()
    ensures |s.fn.Sets()[j].instrs| == s.fn.Slots()
    ensures InPrologue(Permuted(s.fn, o, j)[p]) == (j == 0)
    ensures InEpilogue(Permuted(s.fn, o, j)[p]) == (j > 0)
  {
    hide Flat, Reads, EpilogueHits, Shaped, Placed, Mirror;
    SlotCount(isa, s.fn, j);
    MirrorPerm(o);
    var q := OrderFor(o, j);
    var i := Slot(q, p);
    assert Place(s.fn.Sets()[j].instrs, q)[q[i]] == s.fn.Sets()[j].instrs[i];
    EpiloguePasses(isa, base, s, l, asWritten, j, i);
    SetPasses(isa, s.fn, j, i);
  }

  /** Position by position the rearranged instructions pass the tests that the original ones
      pass. */
  lemma TestsAgree(isa: Isa, base: seq<byte>, s: Site, l: seq<Instr>, asWritten: bool, o: seq<int>, i: nat)
    requires Scanned(isa, base, s, l, asWritten) && OrderFits(s.fn, o) && i < |l|
    ensures var m := Relisted(isa, base, s, l, asWritten, o);
      InPrologue(m[i]) == InPrologue(l[i]) && InEpilogue(m[i]) == InEpilogue(l[i])
  {
    hide Flat, Reads, EpilogueHits, Shaped, Placed, RunOf, Relisted, Permuted, IsPerm, AddrAt, Scanned;
    var m := Relisted(isa, base, s, l, asWritten, o);
    if j :| 0 <= j < |s.fn.Sets()| && InRun(l, j, i) {
      var r := RunOf(l, j);
      RunPatchFits(isa, base, s, l, asWritten, o, j);
      RelistedRun(isa, base, s, l, asWritten, o, j);
      assert m[i] == m[r.lo..r.hi][i - r.lo] == Permuted(s.fn, o, j)[i - r.lo];
      assert l[i] == s.fn.Sets()[j].instrs[i - r.lo];
      PermutedPasses(isa, base, s, l, asWritten, o, j, i - r.lo);
      EpiloguePasses(isa, base, s, l, asWritten, j, i - r.lo);
      ScannedShaped(isa, base, s, l, asWritten);
      SetPasses(isa, s.fn, j, i - r.lo);
    } else {
      RelistedRest(isa, base, s, l, asWritten, o, i);
    }
  }

  lemma ScannedShaped(isa: Isa, base: seq<byte>, s: Site, l: seq<Instr>, asWritten: bool)
    requires Scanned(isa, base, s, l, asWritten)
    ensures Shaped(isa, s.fn)
  {
  }

  /** The runs of the permuted function are the runs of the original one. */
  lemma SameRuns(isa: Isa, base: seq<byte>, s: Site, l: seq<Instr>, asWritten: bool, o: seq<int>)
    requires Scanned(isa, base, s, l, asWritten) && OrderFits(s.fn, o)
    ensures var m := Relisted(isa, base, s, l, asWritten, o);
      && PrologueRun(m) == PrologueRun(l) && AfterPrologue(m) == AfterPrologue(l)
      && EpilogueRuns(m) == EpilogueRuns(l)
  {
    hide Flat, Relisted, SkipTo, RunEnd, Runs, Scanned, IsPerm;
    var m := Relisted(isa, base, s, l, asWritten, o);
    forall i | 0 <= i < |l|
      ensures InPrologue(m[i]) == InPrologue(l[i]) && InEpilogue(m[i]) == InEpilogue(l[i])
    {
      TestsAgree(isa, base, s, l, asWritten, o, i);
    }
    EndsAgree(l, m, 0, InPrologue);
    EndsAgree(l, m, SkipTo(l, 0, InPrologue), InPrologue);
    RunsAgree(l, m, AfterPrologue(l), InEpilogue);
  }

  /** Recorded runs do not straddle the ends of any run. */
  lemma RunsClear(l: seq<Instr>, i: nat, j: nat)
    requires i < |EpilogueRuns(l)| && j <= |EpilogueHits(l)|
    ensures var q, r := RunOf(l, j), EpilogueRuns(l)[i];
      q == r || q.hi <= r.lo || r.hi <= q.lo
  {
    hide Runs, Hits, SkipTo, RunEnd;
    RunsSearched(l);
    var runs := EpilogueRuns(l);
    assert Searched(l, runs);
    if j > 0 {
      var h := EpilogueHits(l)[j - 1];
      assert h < i || h == i || i < h;
    }
  }

  /** Every run keeps its place: the bytes before its first instruction and before its end are as
      many as before. */
  lemma RunKeeps(isa: Isa, base: seq<byte>, s: Site, l: seq<Instr>, asWritten: bool, o: seq<int>, r: Run)
    requires Scanned(isa, base, s, l, asWritten) && OrderFits(s.fn, o)
    requires r in EpilogueRuns(l) || r == PrologueRun(l)
    ensures var m := Relisted(isa, base, s, l, asWritten, o);
      && r.lo <= r.hi <= |l|
      && AddrAt(s.fn.addr, m, r.lo) == AddrAt(s.fn.addr, l, r.lo)
      && AddrAt(s.fn.addr, m, r.hi) == AddrAt(s.fn.addr, l, r.hi)
  {
    hide Flat, RunPatches, RunPatch, RunOf, EpilogueHits, EpilogueRuns, Scanned, IsPerm, Apply, PrologueRun;
    var n := |s.fn.Sets()|;
    RunPatchesRefit(isa, base, s, l, asWritten, o);
    var ips := RunPatches(isa, base, s, l, asWritten, o, n);
    RunInside(l, r);
    forall k | 0 <= k < n
      ensures ips[k].at + |ips[k].body| <= r.lo || r.lo <= ips[k].at
      ensures ips[k].at + |ips[k].body| <= r.hi || r.hi <= ips[k].at
    {
      RunPatchAt(isa, base, s, l, asWritten, o, n, k);
      RunPatchFits(isa, base, s, l, asWritten, o, k);
      RunClear(l, r, k);
    }
    BoundaryKept(l, ips, r.lo);
    BoundaryKept(l, ips, r.hi);
  }

  lemma RunInside(l: seq<Instr>, r: Run)
    requires r in EpilogueRuns(l) || r == PrologueRun(l)
    ensures r.lo <= r.hi <= |l|
  {
    hide Runs, SkipTo, RunEnd;
  }

  lemma RunClear(l: seq<Instr>, r: Run, j: nat)
    requires r in EpilogueRuns(l) || r == PrologueRun(l)
    requires j <= |EpilogueHits(l)|
    ensures var q := RunOf(l, j);
      q == r || q.hi <= r.lo || r.hi <= q.lo
  {
    hide Runs, Hits, SkipTo, RunEnd, EpilogueHits, EpilogueRuns, PrologueRun;
    if r == PrologueRun(l) {
      if j > 0 {
        RunsApart(l, 0, j);
      }
    } else {
      var i :| 0 <= i < |EpilogueRuns(l)| && EpilogueRuns(l)[i] == r;
      RunsClear(l, i, j);
    }
  }

  /** A run that is not recorded keeps its instructions. */
  lemma UnrecordedKeeps(isa: Isa, base: seq<byte>, s: Site, l: seq<Instr>, asWritten: bool, o: seq<int>, i: nat)
    requires Scanned(isa, base, s, l, asWritten) && OrderFits(s.fn, o)
    requires i < |EpilogueRuns(l)| && i !in EpilogueHits(l)
    ensures var m, r := Relisted(isa, base, s, l, asWritten, o), EpilogueRuns(l)[i];
      m[r.lo..r.hi] == l[r.lo..r.hi]
  {
    hide Flat, Relisted, RunOf, Hits, Runs, Scanned, IsPerm, SkipTo, RunEnd;
    var m, r := Relisted(isa, base, s, l, asWritten, o), EpilogueRuns(l)[i];
    forall x | r.lo <= x < r.hi
      ensures m[x] == l[x]
    {
      forall j | 0 <= j < |s.fn.Sets()|
        ensures !InRun(l, j, x)
      {
        if j <= |EpilogueHits(l)| {
          OtherRun(l, i, j);
        }
      }
      RelistedRest(isa, base, s, l, asWritten, o, x);
    }
  }

  lemma OtherRun(l: seq<Instr>, i: nat, j: nat)
    requires i < |EpilogueRuns(l)| && i !in EpilogueHits(l) && j <= |EpilogueHits(l)|
    ensures var q, r := RunOf(l, j), EpilogueRuns(l)[i];
      q.hi <= r.lo || r.hi <= q.lo
  {
    hide Runs, Hits, SkipTo, RunEnd;
    RunsSearched(l);
    var runs := EpilogueRuns(l);
    assert Searched(l, runs);
    if j > 0 {
      var h := EpilogueHits(l)[j - 1];
      assert h in EpilogueHits(l);
      assert h < i || i < h;
    }
  }

  /** Every recorded epilogue matches the permuted prologue again. */
  lemma AcceptedAgain(isa: Isa, base: seq<byte>, s: Site, l: seq<Instr>, asWritten: bool, o: seq<int>, j: nat)
    requires Scanned(isa, base, s, l, asWritten) && OrderFits(s.fn, o) && 0 < j < |s.fn.Sets()|
    ensures j <= |EpilogueHits(l)|
    ensures EpilogueHits(l)[j - 1] in EpilogueHits(Relisted(isa, base, s, l, asWritten, o))
  {
    hide Flat, Relisted, Runs, Scanned, IsPerm, SkipTo, RunEnd, Mirrors, Permuted;
    var m := Relisted(isa, base, s, l, asWritten, o);
    SameRuns(isa, base, s, l, asWritten, o);
    RelistedRun(isa, base, s, l, asWritten, o, 0);
    RelistedRun(isa, base, s, l, asWritten, o, j);
    ScannedShaped(isa, base, s, l, asWritten);
    PermutedMirrors(isa, s.fn, o, j);
  }

  ghost predicate SamePlaces(addr: u64, l: seq<Instr>, m: seq<Instr>, runs: seq<Run>)
    requires |l| == |m| && InBounds(l, runs)
  {
    forall i :: 0 <= i < |runs| ==>
      && AddrAt(addr, m, runs[i].lo) == AddrAt(addr, l, runs[i].lo)
      && AddrAt(addr, m, runs[i].hi) == AddrAt(addr, l, runs[i].hi)
  }

  /** What a second scan of a function finds: l are the original instructions, m the ones swept
      from the permuted text. */
  ghost predicate FoundAgain(fn: Fn, o: seq<int>, l: seq<Instr>, m: seq<Instr>)
    requires OrderFits(fn, o) && |l| == |m|
  {
    && EpilogueRuns(m) == EpilogueRuns(l) && SamePlaces(fn.addr, l, m, EpilogueRuns(l))
    && (forall h :: h in EpilogueHits(l) ==> h in EpilogueHits(m))
    && (forall j :: 0 <= j < |fn.Sets()| ==> HoldsSet(fn, o, l, m, j))
    && (forall i :: 0 <= i < |EpilogueRuns(l)| && i !in EpilogueHits(l) ==> KeepsRun(l, m, EpilogueRuns(l)[i]))
  }

  /** The run of set j holds the set's instructions in their new order. */
  ghost predicate HoldsSet(fn: Fn, o: seq<int>, l: seq<Instr>, m: seq<Instr>, j: nat)
    requires OrderFits(fn, o) && |l| == |m|
  {
    && j < |fn.Sets()| && j <= |EpilogueHits(l)| && |fn.Sets()[j].instrs| == fn.Slots()
    && m[RunOf(l, j).lo..RunOf(l, j).hi] == Permuted(fn, o, j)
  }

  ghost predicate KeepsRun(l: seq<Instr>, m: seq<Instr>, r: Run) {
    r.lo <= r.hi <= |l| && |l| == |m| && m[r.lo..r.hi] == l[r.lo..r.hi]
  }

  lemma RunsFoundAgain(isa: Isa, base: seq<byte>, s: Site, l: seq<Instr>, asWritten: bool, o: seq<int>)
    requires Scanned(isa, base, s, l, asWritten) && OrderFits(s.fn, o)
    ensures FoundAgain(s.fn, o, l, Relisted(isa, base, s, l, asWritten, o))
  {
    hide Flat, Relisted, Runs, Scanned, IsPerm, SkipTo, RunEnd, Permuted, Hits, EpilogueRuns, EpilogueHits, AddrAt;
    var m := Relisted(isa, base, s, l, asWritten, o);
    SameRuns(isa, base, s, l, asWritten, o);
    RunsSearched(l);
    var runs := EpilogueRuns(l);
    forall i | 0 <= i < |runs|
      ensures AddrAt(s.fn.addr, m, runs[i].lo) == AddrAt(s.fn.addr, l, runs[i].lo)
      ensures AddrAt(s.fn.addr, m, runs[i].hi) == AddrAt(s.fn.addr, l, runs[i].hi)
      ensures i !in EpilogueHits(l) ==> KeepsRun(l, m, runs[i])
    {
      RunKeeps(isa, base, s, l, asWritten, o, runs[i]);
      if i !in EpilogueHits(l) {
        UnrecordedKeeps(isa, base, s, l, asWritten, o, i);
      }
    }
    forall j | 0 <= j < |s.fn.Sets()|
      ensures HoldsSet(s.fn, o, l, m, j)
    {
      RelistedRun(isa, base, s, l, asWritten, o, j);
    }
    forall h | h in EpilogueHits(l)
      ensures h in EpilogueHits(m)
    {
      var j :| 0 <= j < |EpilogueHits(l)| && EpilogueHits(l)[j] == h;
      HitsCount(isa, base, s, l, asWritten);
      AcceptedAgain(isa, base, s, l, asWritten, o, j + 1);
    }
  }

  lemma HitsCount(isa: Isa, base: seq<byte>, s: Site, l: seq<Instr>, asWritten: bool)
    requires Scanned(isa, base, s, l, asWritten)
    ensures |EpilogueHits(l)| == |s.fn.epilogues| > 0
  {
    hide Flat, Runs, SkipTo, RunEnd, Hits, Placed, Shaped, SetFor;
  }

  /** The second scan accepts the function and finds its prologue where it was, its pushes in the
      new order. */
  lemma PrologueAgain(isa: Isa, base: seq<byte>, s: Site, l: seq<Instr>, asWritten: bool, o: seq<int>)
    requires Scanned(isa, base, s, l, asWritten) && OrderFits(s.fn, o)
    ensures var m := Relisted(isa, base, s, l, asWritten, o);
      && PrologueRun(m) == PrologueRun(l) && PrologueRun(m).hi - PrologueRun(m).lo >= 2
      && EpilogueHits(m) != []
      && SetAt(s.fn.addr, m, PrologueRun(m).lo, PrologueRun(m).hi)
         == InstrSet(s.fn.prologue.start, s.fn.prologue.end, Permuted(s.fn, o, 0))
  {
    hide Flat, Relisted, Runs, IsPerm, SkipTo, RunEnd, Permuted, Hits, EpilogueRuns, EpilogueHits, AddrAt,
         Placed, Shaped;
    SameRuns(isa, base, s, l, asWritten, o);
    HitsCount(isa, base, s, l, asWritten);
    AcceptedAgain(isa, base, s, l, asWritten, o, 1);
    RelistedRun(isa, base, s, l, asWritten, o, 0);
    RunKeeps(isa, base, s, l, asWritten, o, PrologueRun(l));
  }

  /** Set j of the function, rearranged, between the same addresses. */
  ghost predicate IsPermutedSet(fn: Fn, o: seq<int>, j: nat, x: InstrSet) {
    && OrderFits(fn, o) && j < |fn.Sets()| && |fn.Sets()[j].instrs| == fn.Slots()
    && x == InstrSet(fn.Sets()[j].start, fn.Sets()[j].end, Permuted(fn, o, j))
  }

  ghost predicate Among(fn: Fn, o: seq<int>, j: nat, sets: seq<InstrSet>) {
    exists x :: x in sets && IsPermutedSet(fn, o, j, x)
  }

  /** The epilogues that a scan of the instructions l records. */
  ghost function RecordOf(addr: u64, l: seq<Instr>, asWritten: bool): seq<InstrSet> {
    HitsBound(l);
    RunsSearched(l);
    Record(addr, l, EpilogueRuns(l), EpilogueHits(l), asWritten)
  }

  lemma HitsBound(l: seq<Instr>)
    ensures forall k :: 0 <= k < |EpilogueHits(l)| ==> EpilogueHits(l)[k] < |EpilogueRuns(l)|
  {
    hide Runs, Hits;
  }

  lemma Undrifted(addr: u64, l: seq<Instr>, runs: seq<Run>, i: nat, asWritten: bool)
    requires InBounds(l, runs) && i < |runs| && (asWritten ==> i == 0)
    ensures SetFor(addr, l, runs, i, asWritten) == SetAt(addr, l, runs[i].lo, runs[i].hi)
  {
    hide AddrAt;
  }

  lemma Recorded(addr: u64, l: seq<Instr>, runs: seq<Run>, hits: seq<nat>, i: nat, asWritten: bool)
    requires InBounds(l, runs) && (forall k :: 0 <= k < |hits| ==> hits[k] < |runs|) && i in hits
    ensures i < |runs| && SetFor(addr, l, runs, i, asWritten) in Record(addr, l, runs, hits, asWritten)
  {
    var k :| 0 <= k < |hits| && hits[k] == i;
    assert Record(addr, l, runs, hits, asWritten)[k] == SetFor(addr, l, runs, i, asWritten);
  }

  /** The second scan records the epilogue again, its pops in the mirrored order. */
  lemma EpilogueAgain(isa: Isa, base: seq<byte>, s: Site, l: seq<Instr>, asWritten: bool, o: seq<int>, j: nat)
    requires Scanned(isa, base, s, l, asWritten) && OrderFits(s.fn, o) && 0 < j < |s.fn.Sets()|
    ensures Among(s.fn, o, j, RecordOf(s.fn.addr, Relisted(isa, base, s, l, asWritten, o), asWritten))
  {
    hide Flat, Relisted, Runs, IsPerm, SkipTo, RunEnd, Permuted, Hits, EpilogueRuns, EpilogueHits, AddrAt,
         SoundAt, Reads, OnlyFirst, Record, SetFor;
    var m := Relisted(isa, base, s, l, asWritten, o);
    SameRuns(isa, base, s, l, asWritten, o);
    RunsSearched(m);
    AcceptedAgain(isa, base, s, l, asWritten, o, j);
    HitsBound(l);
    HitsBound(m);
    var h := EpilogueHits(l)[j - 1];
    var r := EpilogueRuns(l)[h];
    OnlyRecorded(isa, base, s, l, asWritten);
    SetRun(isa, base, s.at, s.fn, l, asWritten, j);
    RelistedRun(isa, base, s, l, asWritten, o, j);
    RunKeeps(isa, base, s, l, asWritten, o, r);
    Undrifted(s.fn.addr, m, EpilogueRuns(m), h, asWritten);
    Recorded(s.fn.addr, m, EpilogueRuns(m), EpilogueHits(m), h, asWritten);
    assert IsPermutedSet(s.fn, o, j, SetFor(s.fn.addr, m, EpilogueRuns(m), h, asWritten));
  }

  lemma OnlyRecorded(isa: Isa, base: seq<byte>, s: Site, l: seq<Instr>, asWritten: bool)
    requires Scanned(isa, base, s, l, asWritten)
    ensures asWritten ==> EpilogueHits(l) == [0]
  {
    hide SoundAt, EpilogueHits, OnlyFirst;
    OnlyFirstHits(l);
  }

  lemma RelistedKnown(isa: Isa, base: seq<byte>, s: Site, l: seq<Instr>, asWritten: bool, o: seq<int>)
    requires Scanned(isa, base, s, l, asWritten) && OrderFits(s.fn, o)
    ensures AllKnown(isa, Relisted(isa, base, s, l, asWritten, o))
  {
    hide Flat, Relisted, RunOf, EpilogueHits, Permuted, IsPerm;
    var m := Relisted(isa, base, s, l, asWritten, o);
    forall i | 0 <= i < |m|
      ensures Known(isa, m[i])
    {
      if j :| 0 <= j < |s.fn.Sets()| && InRun(l, j, i) {
        RelistedRun(isa, base, s, l, asWritten, o, j);
        PermutedKnown(isa, s.fn, o, j);
        assert m[i] == m[RunOf(l, j).lo..RunOf(l, j).hi][i - RunOf(l, j).lo];
      } else {
        RelistedRest(isa, base, s, l, asWritten, o, i);
      }
    }
  }

  /** The sweep of text T stays in step and ends at the same byte; every run of candidates is
      found again between the same addresses; the prologue is found where it was, with its pushes
      in the order o; every recorded epilogue is recorded where it was, with its pops in the mirrored
      order, and runs that were not recorded have kept their instructions; the function is accepted
      again. */
  ghost predicate ScansAgain(isa: Isa, T: seq<byte>, s: Site, o: seq<int>, l: seq<Instr>, asWritten: bool)
    requires Lawful(isa)
  {
    && s.at <= |T| && OrderFits(s.fn, o)
    && var r := Sweep(isa, T, s.at, s.at + s.fn.len);
       var again := Analyze(isa, T, s.at, s.at + s.fn.len, s.fn.addr, asWritten);
       && r.ok && |Flat(r.instrs)| == s.fn.len && |r.instrs| == |l|
       && FoundAgain(s.fn, o, l, r.instrs)
       && again.Accepted?
       && IsPermutedSet(s.fn, o, 0, again.prologue)
       && forall j :: 0 < j < |s.fn.Sets()| ==> Among(s.fn, o, j, again.epilogues)
  }

  /** Scanning the text again is stable, whatever the slot tables. */
  lemma RescanStable(isa: Isa, base: seq<byte>, sites: seq<Site>, orders: seq<seq<int>>, k: nat,
                     l: seq<Instr>, asWritten: bool)
    requires Lawful(isa) && AllSound(isa, base, sites) && OrdersFit(sites, orders) && k < |sites|
    requires Scanned(isa, base, sites[k], l, asWritten)
    ensures ScansAgain(isa, TextFor(isa, base, sites, orders), sites[k], orders[k], l, asWritten)
  {
    hide Flat, Relisted, Runs, Scanned, IsPerm, SkipTo, RunEnd, Permuted, TextFor, Sweep, Hits, Record, FoundAgain;
    var s, o := sites[k], orders[k];
    var T, m := TextFor(isa, base, sites, orders), Relisted(isa, base, s, l, asWritten, o);
    TextRelisted(isa, base, sites, orders, k, l, asWritten);
    RelistedKnown(isa, base, s, l, asWritten, o);
    SweepFlat(isa, T, s.at, m);
    RunsFoundAgain(isa, base, s, l, asWritten, o);
    PrologueAgain(isa, base, s, l, asWritten, o);
    var again := Analyze(isa, T, s.at, s.at + s.fn.len, s.fn.addr, asWritten);
    assert again.Accepted? && again.epilogues == RecordOf(s.fn.addr, m, asWritten);
    forall j | 0 < j < |s.fn.Sets()|
      ensures Among(s.fn, o, j, RecordOf(s.fn.addr, m, asWritten))
    {
      EpilogueAgain(isa, base, s, l, asWritten, o, j);
    }
  }

  lemma OwnBytesOf(isa: Isa, base: seq<byte>, s: Site, l: seq<Instr>, asWritten: bool, i: nat)
    requires Scanned(isa, base, s, l, asWritten) && i < |l|
    ensures var a, b := s.at + |Flat(l[..i])|, s.at + |Flat(l[..i + 1])|;
      a + |l[i].raw| == b <= s.at + s.fn.len <= |base| && base[a..b] == l[i].raw
  {
    hide Flat, Scanned;
    ScannedBytes(isa, base, s, l, asWritten);
    FlatParts(l, i, i + 1);
    assert l[i..i + 1] == [l[i]];
    FlatOne(l[i]);
    var a, b := |Flat(l[..i])|, |Flat(l[..i + 1])|;
    SubSlice(base, s.at, |Flat(l)|, a, b);
    MiddlePart(Flat(l[..i]), Flat(l[i..i + 1]), Flat(l[i + 1..]));
  }

  /** The bytes of an instruction in no recorded run are in no recorded set. */
  lemma InNoSet(isa: Isa, base: seq<byte>, s: Site, l: seq<Instr>, asWritten: bool, i: nat, j: nat, x: nat)
    requires Scanned(isa, base, s, l, asWritten) && i < |l| && j < |s.fn.Sets()| && !InRun(l, j, i)
    requires s.at + |Flat(l[..i])| <= x < s.at + |Flat(l[..i + 1])|
    ensures !InSet(s, j, x)
  {
    hide Flat, RunOf, OnlyFirst, EpilogueHits, IsSetOf, SoundAt;
    assert s.fn.addr + s.fn.len < WORD by { SiteFits(isa, base, s); }
    RunSetIs(isa, base, s.at, s.fn, l, asWritten, j);
    assert IsSetOf(s.fn.addr, l, RunOf(l, j), s.fn.Sets()[j]);
    SetEnds(s.fn.addr, l, RunOf(l, j), s.fn.Sets()[j]);
    var r := RunOf(l, j);
    if i < r.lo {
      FlatMonotone(l, i + 1, r.lo);
    } else {
      FlatMonotone(l, r.hi, i);
    }
  }

  lemma SiteFits(isa: Isa, base: seq<byte>, s: Site)
    requires SoundAt(isa, base, s)
    ensures s.fn.addr + s.fn.len < WORD
  {
  }

  lemma SetEnds(addr: u64, l: seq<Instr>, r: Run, x: InstrSet)
    requires IsSetOf(addr, l, r, x)
    ensures r.lo <= r.hi <= |l| && x.start == addr + |Flat(l[..r.lo])| && x.end == addr + |Flat(l[..r.hi])|
  {
  }

  /** Every instruction in no recorded run stands where it stood, whatever the slot tables. */
  lemma OthersStay(isa: Isa, base: seq<byte>, sites: seq<Site>, orders: seq<seq<int>>, k: nat,
                   l: seq<Instr>, asWritten: bool, i: nat)
    requires Lawful(isa) && AllSound(isa, base, sites) && OrdersFit(sites, orders) && k < |sites|
    requires Scanned(isa, base, sites[k], l, asWritten) && i < |l|
    requires forall j :: 0 <= j < |sites[k].fn.Sets()| ==> !InRun(l, j, i)
    ensures var a := sites[k].at + |Flat(l[..i])|;
      && a + |l[i].raw| <= |base|
      && TextFor(isa, base, sites, orders)[a..a + |l[i].raw|] == l[i].raw
      && isa.decode(TextFor(isa, base, sites, orders)[a..]) == Some(l[i])
  {
    hide Flat, Scanned, TextFor, InRun, IsPerm, Shaped, InSet, InSomeSet;
    var s, T := sites[k], TextFor(isa, base, sites, orders);
    OwnBytesOf(isa, base, s, l, asWritten, i);
    var a, b := s.at + |Flat(l[..i])|, s.at + |Flat(l[..i + 1])|;
    forall x | a <= x < b
      ensures T[x] == base[x]
    {
      forall j | 0 <= j < |s.fn.Sets()|
        ensures !InSet(s, j, x)
      {
        InNoSet(isa, base, s, l, asWritten, i, j, x);
      }
      NoOtherSet(isa, base, sites, k, x);
      RestHolds(isa, base, sites, orders, x);
    }
    assert T[a..b] == base[a..b];
    assert Known(isa, l[i]) by { ScannedKnown(isa, base, s, l, asWritten); }
    assert T[a..][..|l[i].raw|] == T[a..b];
    DecodesAgain(isa, l[i], T[a..]);
  }

  lemma ScannedKnown(isa: Isa, base: seq<byte>, s: Site, l: seq<Instr>, asWritten: bool)
    requires Scanned(isa, base, s, l, asWritten)
    ensures AllKnown(isa, l) && |EpilogueHits(l)| == |s.fn.epilogues|
  {
    HitsCount(isa, base, s, l, asWritten);
  }

  /** A push or pop of rbp, register 5, stands where it stood, whatever the slot tables. */
  lemma RbpStays(isa: Isa, base: seq<byte>, sites: seq<Site>, orders: seq<seq<int>>, k: nat,
                 l: seq<Instr>, asWritten: bool, i: nat)
    requires Lawful(isa) && AllSound(isa, base, sites) && OrdersFit(sites, orders) && k < |sites|
    requires Scanned(isa, base, sites[k], l, asWritten) && i < |l| && (l[i].kind == Push(5) || l[i].kind == Pop(5))
    ensures var a := sites[k].at + |Flat(l[..i])|;
      && a + |l[i].raw| <= |base|
      && TextFor(isa, base, sites, orders)[a..a + |l[i].raw|] == l[i].raw
      && isa.decode(TextFor(isa, base, sites, orders)[a..]) == Some(l[i])
  {
    hide Flat, Scanned, TextFor, IsPerm, Shaped, RunOf, EpilogueHits;
    ScannedKnown(isa, base, sites[k], l, asWritten);
    forall j | 0 <= j < |sites[k].fn.Sets()|
      ensures !InRun(l, j, i)
    {
      if InRun(l, j, i) {
        RbpNotRecorded(l, j, i);
      }
    }
    OthersStay(isa, base, sites, orders, k, l, asWritten, i);
  }
}
