/** The text after permuting functions, in closed form: the original text overwritten by one patch
    for each recorded set. */
module Image {
  import opened Instrs
  import opened Orders
  import opened Patches
  import opened Analysis
  import opened Layout

  /** An accepted function and the place of its first byte in the code buffer. */
  datatype Site = Site(at: nat, fn: Fn)

  /** The order that set j of a function with slot table o is written in. */
  function OrderFor(o: seq<int>, j: nat): seq<int> {
    if j == 0 then o else Mirror(o)
  }

  ghost predicate OrderFits(fn: Fn, o: seq<int>) {
    IsPerm(o) && |o| == fn.Slots()
  }

  ghost predicate SoundAt(isa: Isa, base: seq<byte>, s: Site) {
    Shaped(isa, s.fn) && Placed(base, s.at, s.fn)
  }

  /** Function ranges do not overlap in the buffer. */
  ghost predicate Separate(sites: seq<Site>) {
    forall i, j :: 0 <= i < j < |sites| ==>
      sites[i].at + sites[i].fn.len <= sites[j].at || sites[j].at + sites[j].fn.len <= sites[i].at
  }

  ghost predicate AllSound(isa: Isa, base: seq<byte>, sites: seq<Site>) {
    Separate(sites) && forall k :: 0 <= k < |sites| ==> SoundAt(isa, base, sites[k])
  }

  ghost predicate OrdersFit(sites: seq<Site>, orders: seq<seq<int>>) {
    && |orders| == |sites|
    && forall k :: 0 <= k < |sites| ==> OrderFits(sites[k].fn, orders[k])
  }

  /** Set j of a function, permuted. */
  ghost function Permuted(fn: Fn, o: seq<int>, j: nat): (l: seq<Instr>)
    requires OrderFits(fn, o) && j < |fn.Sets()| && |fn.Sets()[j].instrs| == fn.Slots()
    ensures |l| == fn.Slots()
  {
    MirrorPerm(o);
    Place(fn.Sets()[j].instrs, OrderFor(o, j))
  }

  /** Instruction i of the prologue stands in slot o[i], and so does the instruction of an epilogue that
      is as far from the end as i is from the start, counted from the end. */
  lemma PermutedAt(fn: Fn, o: seq<int>, j: nat, i: nat)
    requires OrderFits(fn, o) && j < |fn.Sets()| && |fn.Sets()[j].instrs| == fn.Slots() && i < fn.Slots()
    ensures var n := fn.Slots();
      && 0 <= o[i] < n
      && (j == 0 ==> Permuted(fn, o, j)[o[i]] == fn.Sets()[j].instrs[i])
      && (j > 0 ==> Permuted(fn, o, j)[n - 1 - o[i]] == fn.Sets()[j].instrs[n - 1 - i])
  {
    MirrorPerm(o);
    var m := Mirror(o);
    assert m[|o| - 1 - i] == |o| - 1 - o[i];
  }

  ghost function SetPatch(isa: Isa, base: seq<byte>, s: Site, o: seq<int>, j: nat): (p: Patch<byte>)
    requires SoundAt(isa, base, s) && OrderFits(s.fn, o) && j < |s.fn.Sets()|
  {
    assert InPlace(base, s.at, s.fn, s.fn.Sets()[j]);
    SlotCount(isa, s.fn, j);
    Patch(s.at + (s.fn.Sets()[j].start - s.fn.addr), Flat(Permuted(s.fn, o, j)))
  }

  /** All sets of a function have as many instructions as its prologue. */
  lemma SlotCount(isa: Isa, fn: Fn, j: nat)
    requires Shaped(isa, fn) && j < |fn.Sets()|
    ensures |fn.Sets()[j].instrs| == fn.Slots()
  {
    if j > 0 {
      assert Mirrors(fn.prologue.instrs, fn.epilogues[j - 1].instrs);
    }
  }

  lemma PermutedKnown(isa: Isa, fn: Fn, o: seq<int>, j: nat)
    requires Shaped(isa, fn) && OrderFits(fn, o) && j < |fn.Sets()|
    ensures |fn.Sets()[j].instrs| == fn.Slots()
    ensures AllKnown(isa, Permuted(fn, o, j)) && |Permuted(fn, o, j)| == fn.Slots()
    ensures |Flat(Permuted(fn, o, j))| == |Flat(fn.Sets()[j].instrs)| > 0
  {
    hide Flat;
    SlotCount(isa, fn, j);
    MirrorPerm(o);
    var l, q := fn.Sets()[j].instrs, OrderFor(o, j);
    var r := Place(l, q);
    assert SetShaped(isa, fn.Sets()[j]);
    forall p | 0 <= p < |r|
      ensures Known(isa, r[p])
    {
      assert r[q[Slot(q, p)]] == l[Slot(q, p)];
    }
    FlatPlaced(l, q, r);
    FlatNonEmpty(isa, l);
  }

  /** A set's patch covers the set's own bytes, whatever the order. */
  lemma PatchRange(isa: Isa, base: seq<byte>, s: Site, o: seq<int>, j: nat)
    requires SoundAt(isa, base, s) && OrderFits(s.fn, o) && j < |s.fn.Sets()|
    ensures var p := SetPatch(isa, base, s, o, j);
      && s.at <= p.at && p.at == s.at + (s.fn.Sets()[j].start - s.fn.addr)
      && p.at + |p.body| == s.at + (s.fn.Sets()[j].end - s.fn.addr) <= s.at + s.fn.len
  {
    hide Flat;
    PermutedKnown(isa, s.fn, o, j);
    assert InPlace(base, s.at, s.fn, s.fn.Sets()[j]);
  }

  /** The patches of sets j and following. */
  ghost function SetPatches(isa: Isa, base: seq<byte>, s: Site, o: seq<int>, j: nat): (ps: seq<Patch<byte>>)
    requires SoundAt(isa, base, s) && OrderFits(s.fn, o) && j <= |s.fn.Sets()|
    ensures |ps| == |s.fn.Sets()| - j
    decreases |s.fn.Sets()| - j
  {
    if j == |s.fn.Sets()| then []
    else [SetPatch(isa, base, s, o, j)] + SetPatches(isa, base, s, o, j + 1)
  }

  lemma {:induction false} PatchAt(isa: Isa, base: seq<byte>, s: Site, o: seq<int>, j: nat, k: nat)
    requires SoundAt(isa, base, s) && OrderFits(s.fn, o) && j + k < |s.fn.Sets()|
    ensures SetPatches(isa, base, s, o, j)[k] == SetPatch(isa, base, s, o, j + k)
    decreases k
  {
    hide SetPatch;
    if k > 0 {
      PatchAt(isa, base, s, o, j + 1, k - 1);
    }
  }

  ghost predicate Within(p: Patch<byte>, s: Site) {
    s.at <= p.at && p.at + |p.body| <= s.at + s.fn.len
  }

  /** The patches of one function stay in its range and do not overlap. */
  lemma SetPatchesApart(isa: Isa, base: seq<byte>, s: Site, o: seq<int>, j: nat)
    requires SoundAt(isa, base, s) && OrderFits(s.fn, o) && j <= |s.fn.Sets()|
    ensures var ps := SetPatches(isa, base, s, o, j);
      AllClear(ps) && Fits(ps, |base|) && forall k :: 0 <= k < |ps| ==> Within(ps[k], s)
  {
    hide Flat, SetPatches, SetPatch;
    var ps := SetPatches(isa, base, s, o, j);
    forall k | 0 <= k < |ps|
      ensures Within(ps[k], s)
    {
      PatchAt(isa, base, s, o, j, k);
      PatchRange(isa, base, s, o, j + k);
    }
    forall a, b | 0 <= a < b < |ps|
      ensures Clear(ps[a], ps[b])
    {
      PatchAt(isa, base, s, o, j, a);
      PatchAt(isa, base, s, o, j, b);
      PatchRange(isa, base, s, o, j + a);
      PatchRange(isa, base, s, o, j + b);
      assert s.fn.Sets()[j + a].end <= s.fn.Sets()[j + b].start;
    }
  }

  /** The patches of functions k and following. */
  ghost function AllPatches(isa: Isa, base: seq<byte>, sites: seq<Site>, orders: seq<seq<int>>, k: nat)
    : (ps: seq<Patch<byte>>)
    requires AllSound(isa, base, sites) && OrdersFit(sites, orders) && k <= |sites|
    decreases |sites| - k
  {
    if k == |sites| then []
    else SetPatches(isa, base, sites[k], orders[k], 0) + AllPatches(isa, base, sites, orders, k + 1)
  }

  ghost predicate WithinSome(p: Patch<byte>, sites: seq<Site>, k: nat) {
    exists i :: k <= i < |sites| && Within(p, sites[i])
  }

  lemma JoinApart(own: seq<Patch<byte>>, rest: seq<Patch<byte>>, sites: seq<Site>, k: nat)
    requires Separate(sites) && k < |sites| && AllClear(own) && AllClear(rest)
    requires forall a :: 0 <= a < |own| ==> Within(own[a], sites[k])
    requires forall b :: 0 <= b < |rest| ==> WithinSome(rest[b], sites, k + 1)
    ensures AllClear(own + rest)
    ensures forall m :: 0 <= m < |own + rest| ==> WithinSome((own + rest)[m], sites, k)
  {
    var ps := own + rest;
    forall a, b | 0 <= a < b < |ps|
      ensures Clear(ps[a], ps[b])
    {
      if a < |own| <= b {
        assert Within(own[a], sites[k]) && WithinSome(rest[b - |own|], sites, k + 1);
      }
    }
    forall m | 0 <= m < |ps|
      ensures WithinSome(ps[m], sites, k)
    {
      if m < |own| {
        assert Within(own[m], sites[k]);
      } else {
        assert WithinSome(rest[m - |own|], sites, k + 1);
      }
    }
  }

  /** All patches together fit, do not overlap, and each stays in the range of a function. */
  lemma {:induction false} AllPatchesApart(isa: Isa, base: seq<byte>, sites: seq<Site>,
                                           orders: seq<seq<int>>, k: nat)
    requires AllSound(isa, base, sites) && OrdersFit(sites, orders) && k <= |sites|
    ensures var ps := AllPatches(isa, base, sites, orders, k);
      && AllClear(ps) && Fits(ps, |base|)
      && forall m :: 0 <= m < |ps| ==> WithinSome(ps[m], sites, k)
    decreases |sites| - k
  {
    hide SetPatches, SoundAt, OrderFits;
    if k < |sites| {
      var own := SetPatches(isa, base, sites[k], orders[k], 0);
      var rest := AllPatches(isa, base, sites, orders, k + 1);
      assert AllPatches(isa, base, sites, orders, k) == own + rest;
      hide AllPatches;
      SetPatchesApart(isa, base, sites[k], orders[k], 0);
      AllPatchesApart(isa, base, sites, orders, k + 1);
      JoinApart(own, rest, sites, k);
      assert Fits(own + rest, |base|);
    }
  }

  /** The text that belongs to given slot tables. */
  ghost function TextFor(isa: Isa, base: seq<byte>, sites: seq<Site>, orders: seq<seq<int>>): (t: seq<byte>)
    requires AllSound(isa, base, sites) && OrdersFit(sites, orders)
    ensures |t| == |base|
  {
    AllPatchesApart(isa, base, sites, orders, 0);
    Apply(base, AllPatches(isa, base, sites, orders, 0))
  }

  lemma SetLayout(isa: Isa, base: seq<byte>, s: Site, o: seq<int>, o': seq<int>)
    requires SoundAt(isa, base, s) && OrderFits(s.fn, o) && OrderFits(s.fn, o')
    ensures SameLayout(SetPatches(isa, base, s, o, 0), SetPatches(isa, base, s, o', 0))
  {
    hide SetPatches, SetPatch, SoundAt, OrderFits;
    forall k | 0 <= k < |s.fn.Sets()|
      ensures SetPatches(isa, base, s, o, 0)[k].at == SetPatches(isa, base, s, o', 0)[k].at
      ensures |SetPatches(isa, base, s, o, 0)[k].body| == |SetPatches(isa, base, s, o', 0)[k].body|
    {
      PatchAt(isa, base, s, o, 0, k);
      PatchAt(isa, base, s, o', 0, k);
      PatchRange(isa, base, s, o, k);
      PatchRange(isa, base, s, o', k);
    }
  }

  lemma {:induction false} AllLayout(isa: Isa, base: seq<byte>, sites: seq<Site>,
                                     orders: seq<seq<int>>, orders': seq<seq<int>>, k: nat)
    requires AllSound(isa, base, sites) && k <= |sites|
    requires OrdersFit(sites, orders) && OrdersFit(sites, orders')
    ensures SameLayout(AllPatches(isa, base, sites, orders, k), AllPatches(isa, base, sites, orders', k))
    decreases |sites| - k
  {
    hide SetPatches, SoundAt, OrderFits;
    if k < |sites| {
      SetLayout(isa, base, sites[k], orders[k], orders'[k]);
      AllLayout(isa, base, sites, orders, orders', k + 1);
    }
  }

  /** Permuting a permuted text gives the text of the new tables alone: nothing accumulates. */
  lemma PermuteAgain(isa: Isa, base: seq<byte>, sites: seq<Site>, orders: seq<seq<int>>, orders': seq<seq<int>>)
    requires AllSound(isa, base, sites) && OrdersFit(sites, orders) && OrdersFit(sites, orders')
    ensures Fits(AllPatches(isa, base, sites, orders', 0), |base|)
    ensures Apply(TextFor(isa, base, sites, orders), AllPatches(isa, base, sites, orders', 0))
         == TextFor(isa, base, sites, orders')
  {
    AllPatchesApart(isa, base, sites, orders, 0);
    AllLayout(isa, base, sites, orders, orders', 0);
    Overwrite(base, AllPatches(isa, base, sites, orders, 0), AllPatches(isa, base, sites, orders', 0));
  }

  /** Every patch of the list belongs to a set of a function. */
  ghost predicate IsSetPatch(isa: Isa, base: seq<byte>, sites: seq<Site>, orders: seq<seq<int>>,
                             p: Patch<byte>, k: nat, j: nat)
    requires AllSound(isa, base, sites) && OrdersFit(sites, orders)
  {
    k < |sites| && j < |sites[k].fn.Sets()| && p == SetPatch(isa, base, sites[k], orders[k], j)
  }

  lemma {:induction false} PatchOwner(isa: Isa, base: seq<byte>, sites: seq<Site>, orders: seq<seq<int>>,
                                      from: nat, m: nat) returns (k: nat, j: nat)
    requires AllSound(isa, base, sites) && OrdersFit(sites, orders) && from <= |sites|
    requires m < |AllPatches(isa, base, sites, orders, from)|
    ensures from <= k
    ensures IsSetPatch(isa, base, sites, orders, AllPatches(isa, base, sites, orders, from)[m], k, j)
    decreases |sites| - from
  {
    hide SetPatches, SetPatch, SoundAt, OrderFits;
    var own := SetPatches(isa, base, sites[from], orders[from], 0);
    if m < |own| {
      PatchAt(isa, base, sites[from], orders[from], 0, m);
      k, j := from, m;
    } else {
      k, j := PatchOwner(isa, base, sites, orders, from + 1, m - |own|);
    }
  }

  /** Every set of every function has its patch in the list. */
  lemma {:induction false} PatchIndex(isa: Isa, base: seq<byte>, sites: seq<Site>, orders: seq<seq<int>>,
                                      from: nat, k: nat, j: nat) returns (m: nat)
    requires AllSound(isa, base, sites) && OrdersFit(sites, orders)
    requires from <= k < |sites| && j < |sites[k].fn.Sets()|
    ensures m < |AllPatches(isa, base, sites, orders, from)|
    ensures AllPatches(isa, base, sites, orders, from)[m] == SetPatch(isa, base, sites[k], orders[k], j)
    decreases |sites| - from
  {
    hide SetPatches, SetPatch, SoundAt, OrderFits;
    var own := SetPatches(isa, base, sites[from], orders[from], 0);
    if from == k {
      PatchAt(isa, base, sites[k], orders[k], 0, j);
      m := j;
    } else {
      m := PatchIndex(isa, base, sites, orders, from + 1, k, j);
      m := |own| + m;
    }
  }

  /** Each recorded set holds its own instructions, rearranged by the function's table: the
      prologue by the table itself, each epilogue by its mirror. */
  lemma SetHolds(isa: Isa, base: seq<byte>, sites: seq<Site>, orders: seq<seq<int>>, k: nat, j: nat)
    requires AllSound(isa, base, sites) && OrdersFit(sites, orders)
    requires k < |sites| && j < |sites[k].fn.Sets()|
    ensures var s := sites[k];
      var x := s.fn.Sets()[j];
      && |x.instrs| == s.fn.Slots()
      && s.fn.addr <= x.start <= x.end <= s.fn.addr + s.fn.len && s.at + s.fn.len <= |base|
      && TextFor(isa, base, sites, orders)[s.at + (x.start - s.fn.addr)..s.at + (x.end - s.fn.addr)]
         == Flat(Permuted(s.fn, orders[k], j))
  {
    hide SetPatches, AllPatches, Flat, Permuted;
    SlotCount(isa, sites[k].fn, j);
    AllPatchesApart(isa, base, sites, orders, 0);
    var m := PatchIndex(isa, base, sites, orders, 0, k, j);
    PatchRange(isa, base, sites[k], orders[k], j);
    assert InPlace(base, sites[k].at, sites[k].fn, sites[k].fn.Sets()[j]);
    ReadBack(base, AllPatches(isa, base, sites, orders, 0), m);
  }

  /** The byte at x belongs to set j of the function at s. */
  predicate InSet(s: Site, j: nat, x: int) {
    && j < |s.fn.Sets()|
    && s.at + (s.fn.Sets()[j].start - s.fn.addr) <= x < s.at + (s.fn.Sets()[j].end - s.fn.addr)
  }

  ghost predicate InSomeSet(sites: seq<Site>, x: int) {
    exists k, j :: 0 <= k < |sites| && 0 <= j < |sites[k].fn.Sets()| && InSet(sites[k], j, x)
  }

  /** Bytes outside the recorded sets are never changed. */
  lemma RestHolds(isa: Isa, base: seq<byte>, sites: seq<Site>, orders: seq<seq<int>>, x: nat)
    requires AllSound(isa, base, sites) && OrdersFit(sites, orders)
    requires x < |base| && !InSomeSet(sites, x)
    ensures TextFor(isa, base, sites, orders)[x] == base[x]
  {
    hide SetPatches, SetPatch, AllPatches, SoundAt, OrderFits;
    AllPatchesApart(isa, base, sites, orders, 0);
    var ps := AllPatches(isa, base, sites, orders, 0);
    forall m | 0 <= m < |ps|
      ensures !ps[m].Covers(x)
    {
      var k, j := PatchOwner(isa, base, sites, orders, 0, m);
      PatchRange(isa, base, sites[k], orders[k], j);
      assert !InSet(sites[k], j, x);
    }
    Outside(base, ps, x);
  }

  ghost predicate Listed(sites: seq<Site>, orders: seq<seq<int>>, s: Site, o: seq<int>)
    requires |sites| == |orders|
  {
    exists k :: 0 <= k < |sites| && sites[k] == s && orders[k] == o
  }

  /** The same functions with the same tables, listed in another order. */
  ghost predicate Reordered(sites: seq<Site>, orders: seq<seq<int>>, sites': seq<Site>, orders': seq<seq<int>>) {
    && |sites| == |orders| && |sites'| == |orders'|
    && (forall k :: 0 <= k < |sites| ==> Listed(sites', orders', sites[k], orders[k]))
    && (forall k :: 0 <= k < |sites'| ==> Listed(sites, orders, sites'[k], orders'[k]))
  }

  /** Each patch of one listing is a patch of the other. */
  lemma PatchesMove(isa: Isa, base: seq<byte>, sites: seq<Site>, orders: seq<seq<int>>,
                    sites': seq<Site>, orders': seq<seq<int>>, m: nat)
    requires AllSound(isa, base, sites) && OrdersFit(sites, orders)
    requires AllSound(isa, base, sites') && OrdersFit(sites', orders')
    requires Reordered(sites, orders, sites', orders')
    requires m < |AllPatches(isa, base, sites, orders, 0)|
    ensures AllPatches(isa, base, sites, orders, 0)[m] in AllPatches(isa, base, sites', orders', 0)
  {
    hide SetPatches, SetPatch, AllPatches, SoundAt, OrderFits, AllSound, OrdersFit;
    var k, j := PatchOwner(isa, base, sites, orders, 0, m);
    assert Listed(sites', orders', sites[k], orders[k]);
    var k' :| 0 <= k' < |sites'| && sites'[k'] == sites[k] && orders'[k'] == orders[k];
    var m' := PatchIndex(isa, base, sites', orders', 0, k', j);
  }

  /** The text does not depend on the order in which the functions are permuted. */
  lemma ListOrderFree(isa: Isa, base: seq<byte>, sites: seq<Site>, orders: seq<seq<int>>,
                      sites': seq<Site>, orders': seq<seq<int>>)
    requires AllSound(isa, base, sites) && OrdersFit(sites, orders)
    requires AllSound(isa, base, sites') && OrdersFit(sites', orders')
    requires Reordered(sites, orders, sites', orders')
    ensures TextFor(isa, base, sites, orders) == TextFor(isa, base, sites', orders')
  {
    hide AllPatches, AllSound, OrdersFit, Reordered;
    var ps, ps' := AllPatches(isa, base, sites, orders, 0), AllPatches(isa, base, sites', orders', 0);
    AllPatchesApart(isa, base, sites, orders, 0);
    AllPatchesApart(isa, base, sites', orders', 0);
    forall m | 0 <= m < |ps|
      ensures ps[m] in ps'
    {
      PatchesMove(isa, base, sites, orders, sites', orders', m);
    }
    assert Reordered(sites', orders', sites, orders) by {
      ReorderedBack(sites, orders, sites', orders');
    }
    forall m | 0 <= m < |ps'|
      ensures ps'[m] in ps
    {
      PatchesMove(isa, base, sites', orders', sites, orders, m);
    }
    OrderFree(base, ps, ps');
  }

  lemma ReorderedBack(sites: seq<Site>, orders: seq<seq<int>>, sites': seq<Site>, orders': seq<seq<int>>)
    requires Reordered(sites, orders, sites', orders')
    ensures Reordered(sites', orders', sites, orders)
  {
  }

  ghost function Identities(sites: seq<Site>): (orders: seq<seq<int>>)
    ensures OrdersFit(sites, orders)
  {
    seq(|sites|, k requires 0 <= k < |sites| => Identity(sites[k].fn.Slots()))
  }

  /** The tables that functions are accepted with give the original text. */
  lemma IdentityText(isa: Isa, base: seq<byte>, sites: seq<Site>)
    requires AllSound(isa, base, sites)
    ensures TextFor(isa, base, sites, Identities(sites)) == base
  {
    hide SetPatches, AllPatches;
    var orders := Identities(sites);
    AllPatchesApart(isa, base, sites, orders, 0);
    var ps := AllPatches(isa, base, sites, orders, 0);
    forall m | 0 <= m < |ps|
      ensures base[ps[m].at..ps[m].at + |ps[m].body|] == ps[m].body
    {
      var k, j := PatchOwner(isa, base, sites, orders, 0, m);
      IdentityPatch(isa, base, sites[k], j);
    }
    Idle(base, ps);
  }

  lemma IdentityPermuted(fn: Fn, j: nat)
    requires j < |fn.Sets()| && |fn.Sets()[j].instrs| == fn.Slots()
    ensures Permuted(fn, Identity(fn.Slots()), j) == fn.Sets()[j].instrs
  {
    var o := Identity(fn.Slots());
    assert Mirror(o) == o;
    PlaceIdentity(fn.Sets()[j].instrs);
  }

  lemma IdentityPatch(isa: Isa, base: seq<byte>, s: Site, j: nat)
    requires SoundAt(isa, base, s) && j < |s.fn.Sets()|
    ensures var o := Identity(s.fn.Slots());
      var p := SetPatch(isa, base, s, o, j);
      p.at + |p.body| <= |base| && base[p.at..p.at + |p.body|] == p.body
  {
    hide Flat, Permuted;
    PatchRange(isa, base, s, Identity(s.fn.Slots()), j);
    SlotCount(isa, s.fn, j);
    assert InPlace(base, s.at, s.fn, s.fn.Sets()[j]);
    IdentityPermuted(s.fn, j);
  }
}
