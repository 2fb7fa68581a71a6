/** What randomizing does to the text of accepted functions whose sets are in place, once and
    over whole runs. */
module Randomize {
  import opened Words
  import opened Instrs
  import opened Orders
  import opened Codes
  import opened Patches
  import opened Layout
  import opened Windows
  import opened Encode
  import opened Image
  import opened Transform

  lemma LocateInside(addr: u64, at: nat, len: u64, start: u64)
    requires addr <= start < addr + len < WORD
    ensures Locate(addr, Some(at), len, start) == Some(at + (start - addr))
  {
  }

  /** Writing one set that is in place is one patch. */
  lemma SetWritten(isa: Isa, base: seq<byte>, text: seq<byte>, s: Site, o: seq<int>, j: nat)
    requires SoundAt(isa, base, s) && OrderFits(s.fn, o) && j < |s.fn.Sets()| && |text| == |base|
    ensures IsPerm(OrderFor(o, j)) && |s.fn.Sets()[j].instrs| == |o|
    ensures SetPatch(isa, base, s, o, j).at + |SetPatch(isa, base, s, o, j).body| <= |text|
    ensures var x := s.fn.Sets()[j];
      var place := Locate(s.fn.addr, Some(s.at), s.fn.len, x.start);
      Encoded(isa, text, place, Place(x.instrs, OrderFor(o, j)), x.start, x.end)
        == (Success, Splice(text, SetPatch(isa, base, s, o, j)))
  {
    hide Flat, Splice, Encoded, Place, Locate, IsPerm;
    var x := s.fn.Sets()[j];
    MirrorPerm(o);
    SlotCount(isa, s.fn, j);
    PermutedKnown(isa, s.fn, o, j);
    PatchRange(isa, base, s, o, j);
    assert InPlace(base, s.at, s.fn, x);
    var at, l := s.at + (x.start - s.fn.addr), Permuted(s.fn, o, j);
    LocateInside(s.fn.addr, s.at, s.fn.len, x.start);
    assert l == Place(x.instrs, OrderFor(o, j)) && SetPatch(isa, base, s, o, j) == Patch(at, Flat(l));
    ExactRefill(isa, text, at, l, x.start, x.end);
  }

  lemma ApplyFirst<T>(s: seq<T>, p: Patch<T>, ps: seq<Patch<T>>)
    requires Fits([p] + ps, |s|)
    ensures p.at + |p.body| <= |s| && Fits(ps, |s|)
    ensures Apply(s, [p] + ps) == Apply(Splice(s, p), ps)
  {
    hide Splice;
    assert ([p] + ps)[0] == p;
    assert forall k :: 0 <= k < |ps| ==> ps[k] == ([p] + ps)[k + 1];
    Compose(s, [p], ps);
    assert [p][..0] == [];
    assert Apply(s, [p]) == Splice(s, p);
  }

  lemma {:induction false} EpiloguesWritten(isa: Isa, base: seq<byte>, text: seq<byte>, s: Site, o: seq<int>, j: nat)
    requires SoundAt(isa, base, s) && OrderFits(s.fn, o) && j <= |s.fn.epilogues| && |text| == |base|
    requires IsPerm(Mirror(o)) && SlotsAgree(s.fn)
    ensures Fits(SetPatches(isa, base, s, o, j + 1), |text|)
    ensures WrittenSets(isa, text, Some(s.at), s.fn, s.fn.epilogues[j..], Mirror(o))
         == (Success, Apply(text, SetPatches(isa, base, s, o, j + 1)))
    decreases |s.fn.epilogues| - j
  {
    hide Flat, Splice, Encoded, Place, WrittenSets, Apply, SetPatch, SoundAt, Mirror, Locate;
    SetPatchesApart(isa, base, s, o, j + 1);
    if j == |s.fn.epilogues| {
      assert s.fn.epilogues[j..] == [];
      NoSetWritten(isa, text, Some(s.at), s.fn, Mirror(o));
      ApplyNone(text);
    } else {
      var p := SetPatch(isa, base, s, o, j + 1);
      SetWritten(isa, base, text, s, o, j + 1);
      NextSetWritten(isa, text, Some(s.at), s.fn, s.fn.epilogues, j, Mirror(o));
      EpiloguesWritten(isa, base, Splice(text, p), s, o, j + 1);
      ApplyFirst(text, p, SetPatches(isa, base, s, o, j + 2));
    }
  }

  /** Writing a function whose sets are in place succeeds and is exactly its patches. */
  lemma FunctionWritten(isa: Isa, base: seq<byte>, text: seq<byte>, s: Site, o: seq<int>)
    requires SoundAt(isa, base, s) && OrderFits(s.fn, o) && |text| == |base|
    ensures SlotsAgree(s.fn) && Fits(SetPatches(isa, base, s, o, 0), |text|)
    ensures Written(isa, text, Some(s.at), s.fn, o)
         == (Success, Apply(text, SetPatches(isa, base, s, o, 0)))
  {
    hide Flat, Splice, Encoded, Place, WrittenSets, Apply, SetPatch, Locate, Mirror;
    ShapedSlots(isa, s.fn);
    MirrorPerm(o);
    SetWritten(isa, base, text, s, o, 0);
    WrittenOne(isa, text, Some(s.at), s.fn, s.fn.prologue, o);
    var p := SetPatch(isa, base, s, o, 0);
    EpiloguesWritten(isa, base, Splice(text, p), s, o, 0);
    assert s.fn.epilogues[0..] == s.fn.epilogues;
    SetPatchesApart(isa, base, s, o, 0);
    ApplyFirst(text, p, SetPatches(isa, base, s, o, 1));
  }

  function FnsAt(sites: seq<Site>): (fns: seq<Fn>)
    ensures |fns| == |sites| && forall k :: 0 <= k < |sites| ==> fns[k] == sites[k].fn
  {
    seq(|sites|, k requires 0 <= k < |sites| => sites[k].fn)
  }

  /** The text window finds every function at its place. */
  ghost predicate Located(sites: seq<Site>, orig: u64, data: Option<nat>, length: u64) {
    forall k :: 0 <= k < |sites| ==> Locate(orig, data, length, sites[k].fn.addr) == Some(sites[k].at)
  }

  lemma TablesFitSites(isa: Isa, base: seq<byte>, sites: seq<Site>, orders: seq<seq<int>>)
    requires AllSound(isa, base, sites)
    ensures OrdersFit(sites, orders) <==> TablesFit(FnsAt(sites), orders)
  {
    hide IsPerm, Placed;
    forall k | 0 <= k < |sites|
      ensures SlotsAgree(sites[k].fn) && sites[k].fn.Slots() >= 2
    {
      ShapedSlots(isa, sites[k].fn);
    }
  }

  lemma {:induction false} FunctionsWritten(isa: Isa, base: seq<byte>, text: seq<byte>, sites: seq<Site>,
                                            orders: seq<seq<int>>, orig: u64, data: Option<nat>, length: u64, k: nat)
    requires AllSound(isa, base, sites) && OrdersFit(sites, orders) && TablesFit(FnsAt(sites), orders)
    requires Located(sites, orig, data, length) && |text| == |base| && k <= |sites|
    ensures Fits(AllPatches(isa, base, sites, orders, k), |text|)
    ensures WrittenAll(isa, text, orig, data, length, FnsAt(sites), orders, k)
         == (Success, Apply(text, AllPatches(isa, base, sites, orders, k)))
    decreases |sites| - k
  {
    hide Written, Apply, SetPatches, Locate, SoundAt, OrderFits, Place, FnsAt;
    AllPatchesApart(isa, base, sites, orders, k);
    if k == |sites| {
      ApplyNone(text);
    } else {
      var own := SetPatches(isa, base, sites[k], orders[k], 0);
      FunctionWritten(isa, base, text, sites[k], orders[k]);
      FunctionsWritten(isa, base, Apply(text, own), sites, orders, orig, data, length, k + 1);
      Compose(text, own, AllPatches(isa, base, sites, orders, k + 1));
    }
  }

  /** One randomization of sound functions succeeds, whatever rand() returns, and leaves exactly
      the text that belongs to the new tables. */
  lemma RandomizeOnce(isa: Isa, base: seq<byte>, sites: seq<Site>, orders: seq<seq<int>>,
                      orig: u64, data: Option<nat>, length: u64, rand: nat -> nat, from: nat)
    requires AllSound(isa, base, sites) && OrdersFit(sites, orders) && Located(sites, orig, data, length)
    ensures TablesFit(FnsAt(sites), orders)
    ensures var r := PermutedAll(isa, TextFor(isa, base, sites, orders), orig, data, length,
                                 FnsAt(sites), orders, rand, from);
      r.rc == Success && OrdersFit(sites, r.orders) && r.text == TextFor(isa, base, sites, r.orders)
  {
    hide WrittenAll, Apply, AllPatches, SoundAt, Reshuffled, DrawnBefore, Locate;
    TablesFitSites(isa, base, sites, orders);
    var text := TextFor(isa, base, sites, orders);
    var orders' := Reshuffled(orders, rand, from, |orders|);
    ReshuffledFits(FnsAt(sites), orders, rand, from);
    TablesFitSites(isa, base, sites, orders');
    FunctionsWritten(isa, base, text, sites, orders', orig, data, length, 0);
    PermuteAgain(isa, base, sites, orders, orders');
    assert orders'[..|sites|] + orders[|sites|..] == orders';
  }

  /** The outcome of n randomizations in a row, each working on what the last one left. */
  ghost function AfterRuns(isa: Isa, text: seq<byte>, orig: u64, data: Option<nat>, length: u64,
                           fns: seq<Fn>, orders: seq<seq<int>>, rand: nat -> nat, from: nat, n: nat): (r: Outcome)
    requires TablesFit(fns, orders)
    ensures TablesFit(fns, r.orders) && |r.text| == |text|
    decreases n
  {
    if n == 0 then Outcome(Success, text, orders, from)
    else
      var r := AfterRuns(isa, text, orig, data, length, fns, orders, rand, from, n - 1);
      if r.rc != Success then r
      else PermutedAll(isa, r.text, orig, data, length, fns, r.orders, rand, r.next)
  }

  lemma {:induction false} RunsLeave(isa: Isa, base: seq<byte>, sites: seq<Site>, orders: seq<seq<int>>,
                                     orig: u64, data: Option<nat>, length: u64, rand: nat -> nat, from: nat, n: nat)
    requires AllSound(isa, base, sites) && OrdersFit(sites, orders) && Located(sites, orig, data, length)
    ensures TablesFit(FnsAt(sites), orders)
    ensures var r := AfterRuns(isa, TextFor(isa, base, sites, orders), orig, data, length,
                               FnsAt(sites), orders, rand, from, n);
      r.rc == Success && OrdersFit(sites, r.orders) && r.text == TextFor(isa, base, sites, r.orders)
    decreases n
  {
    hide PermutedAll, TextFor, AllSound, OrdersFit, TablesFit;
    TablesFitSites(isa, base, sites, orders);
    if n > 0 {
      RunsLeave(isa, base, sites, orders, orig, data, length, rand, from, n - 1);
      var r := AfterRuns(isa, TextFor(isa, base, sites, orders), orig, data, length,
                         FnsAt(sites), orders, rand, from, n - 1);
      RandomizeOnce(isa, base, sites, r.orders, orig, data, length, rand, r.next);
    }
  }

  /** The bytes of set j of a function are its instructions rearranged by o. */
  ghost predicate SetIs(text: seq<byte>, s: Site, o: seq<int>, j: nat)
    requires OrderFits(s.fn, o) && j < |s.fn.Sets()|
  {
    var x := s.fn.Sets()[j];
    && |x.instrs| == s.fn.Slots()
    && s.fn.addr <= x.start <= x.end && s.at + (x.end - s.fn.addr) <= |text|
    && text[s.at + (x.start - s.fn.addr)..s.at + (x.end - s.fn.addr)] == Flat(Permuted(s.fn, o, j))
  }

  /** The invariant of every run. After any number of randomizations with any values of rand():
      no call has failed, every table is a slot table, every prologue holds exactly its original
      pushes arranged by its table, every epilogue its pops arranged by the mirrored table, and
      every other byte is the original one. */
  lemma EveryRun(isa: Isa, base: seq<byte>, sites: seq<Site>,
                 orig: u64, data: Option<nat>, length: u64, rand: nat -> nat, from: nat, n: nat)
    requires AllSound(isa, base, sites) && Located(sites, orig, data, length)
    ensures TablesFit(FnsAt(sites), Identities(sites))
    ensures var r := AfterRuns(isa, base, orig, data, length, FnsAt(sites), Identities(sites), rand, from, n);
      && r.rc == Success && OrdersFit(sites, r.orders)
      && r.text == TextFor(isa, base, sites, r.orders)
      && (forall k, j :: 0 <= k < |sites| && 0 <= j < |sites[k].fn.Sets()| ==> SetIs(r.text, sites[k], r.orders[k], j))
      && (forall x :: 0 <= x < |base| && !InSomeSet(sites, x) ==> r.text[x] == base[x])
  {
    hide AfterRuns, TextFor, AllSound, TablesFit, Permuted, Flat, InSomeSet, IsPerm;
    var ids := Identities(sites);
    IdentityText(isa, base, sites);
    RunsLeave(isa, base, sites, ids, orig, data, length, rand, from, n);
    var r := AfterRuns(isa, base, orig, data, length, FnsAt(sites), ids, rand, from, n);
    forall k, j | 0 <= k < |sites| && 0 <= j < |sites[k].fn.Sets()|
      ensures SetIs(r.text, sites[k], r.orders[k], j)
    {
      SetHolds(isa, base, sites, r.orders, k, j);
    }
    forall x | 0 <= x < |base| && !InSomeSet(sites, x)
      ensures r.text[x] == base[x]
    {
      RestHolds(isa, base, sites, r.orders, x);
    }
  }

  /** A byte of set j of function k depends on that function's table only. */
  lemma SetByteOwn(isa: Isa, base: seq<byte>, sites: seq<Site>, orders: seq<seq<int>>, orders': seq<seq<int>>,
                   k: nat, j: nat, x: nat)
    requires AllSound(isa, base, sites) && OrdersFit(sites, orders) && OrdersFit(sites, orders')
    requires k < |sites| && orders[k] == orders'[k] && InSet(sites[k], j, x) && x < |base|
    ensures TextFor(isa, base, sites, orders)[x] == TextFor(isa, base, sites, orders')[x]
  {
    hide TextFor, Permuted, Flat, IsPerm, SoundAt, AllSound;
    SetHolds(isa, base, sites, orders, k, j);
    SetHolds(isa, base, sites, orders', k, j);
    var s, t := TextFor(isa, base, sites, orders), TextFor(isa, base, sites, orders');
    var lo, hi := sites[k].at + (sites[k].fn.Sets()[j].start - sites[k].fn.addr),
                  sites[k].at + (sites[k].fn.Sets()[j].end - sites[k].fn.addr);
    assert s[x] == s[lo..hi][x - lo] && t[x] == t[lo..hi][x - lo];
  }

  /** Functions do not interfere: the bytes in the range of a function depend on its own table
      only. */
  lemma OwnBytes(isa: Isa, base: seq<byte>, sites: seq<Site>, orders: seq<seq<int>>, orders': seq<seq<int>>,
                 k: nat, x: nat)
    requires AllSound(isa, base, sites) && OrdersFit(sites, orders) && OrdersFit(sites, orders')
    requires k < |sites| && orders[k] == orders'[k]
    requires x < |base| && sites[k].at <= x < sites[k].at + sites[k].fn.len
    ensures TextFor(isa, base, sites, orders)[x] == TextFor(isa, base, sites, orders')[x]
  {
    hide TextFor, Flat, IsPerm, Shaped;
    if InSomeSet(sites, x) {
      var i, j :| 0 <= i < |sites| && 0 <= j < |sites[i].fn.Sets()| && InSet(sites[i], j, x);
      assert InPlace(base, sites[i].at, sites[i].fn, sites[i].fn.Sets()[j]);
      assert sites[i].at <= x < sites[i].at + sites[i].fn.len;
      assert i == k;
      SetByteOwn(isa, base, sites, orders, orders', k, j, x);
    } else {
      RestHolds(isa, base, sites, orders, x);
      RestHolds(isa, base, sites, orders', x);
    }
  }
}
