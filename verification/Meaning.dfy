/** From bytes to meaning: what the permuted text decodes to, and that executing it is executing
    the original text. */
module Meaning {
  import opened Words
  import opened Instrs
  import opened Orders
  import opened Scan
  import opened Analysis
  import opened Layout
  import opened Image
  import opened Transform
  import opened Randomize
  import opened Machine
  import opened Calls

  lemma PlacedAt<T>(s: seq<T>, o: seq<int>, i: nat)
    requires IsPerm(o) && |o| == |s| && i < |s|
    ensures 0 <= o[i] < |s| && Place(s, o)[o[i]] == s[i]
  {
  }

  lemma MirrorAt(o: seq<int>, k: nat)
    requires k < |o|
    ensures Mirror(o)[k] == |o| - 1 - o[|o| - 1 - k]
  {
  }

  lemma MirrorsAt(l: seq<Instr>, e: seq<Instr>, k: nat)
    requires Mirrors(l, e) && k < |l|
    ensures |e| == |l| && e[k].kind.Pop? && l[|l| - 1 - k].kind.Push? && RegOf(e[k]) == RegOf(l[|l| - 1 - k])
  {
  }

  lemma MirrorEntry(l: seq<Instr>, e: seq<Instr>, o: seq<int>, p: nat)
    requires Mirrors(l, e) && IsPerm(o) && IsPerm(Mirror(o)) && |o| == |l| && p < |l|
    ensures Place(e, Mirror(o))[p].kind.Pop?
    ensures Place(l, o)[|l| - 1 - p].kind.Push?
    ensures RegOf(Place(e, Mirror(o))[p]) == RegOf(Place(l, o)[|l| - 1 - p])
  {
    hide Place, Slot, IsPerm, Mirror, Mirrors, RegOf;
    MirrorsAt(l, e, 0);
    var k := Slot(Mirror(o), p);
    MirrorsAt(l, e, k);
    MirrorAt(o, k);
    PlacedAt(e, Mirror(o), k);
    PlacedAt(l, o, |l| - 1 - k);
  }

  /** Mirrored pops stay mirrored when the pushes are placed by a table and the pops by its
      mirror. */
  lemma PlacedMirrors(l: seq<Instr>, e: seq<Instr>, o: seq<int>)
    requires Mirrors(l, e) && IsPerm(o) && |o| == |l|
    ensures IsPerm(Mirror(o)) && Mirrors(Place(l, o), Place(e, Mirror(o)))
  {
    hide IsPerm, Mirror, Place, RegOf;
    MirrorPerm(o);
    var pro, epi, n := Place(l, o), Place(e, Mirror(o)), |l|;
    forall p | 0 <= p < n
      ensures epi[p].kind.Pop? && pro[n - 1 - p].kind.Push? && RegOf(epi[p]) == RegOf(pro[n - 1 - p])
    {
      MirrorEntry(l, e, o, p);
    }
    forall p | 0 <= p < n
      ensures pro[p].kind.Push?
    {
      MirrorEntry(l, e, o, n - 1 - p);
    }
  }

  /** A permuted epilogue is the exact register reverse of the permuted prologue. */
  lemma PermutedMirrors(isa: Isa, fn: Fn, o: seq<int>, j: nat)
    requires Shaped(isa, fn) && OrderFits(fn, o) && 0 < j < |fn.Sets()|
    ensures |fn.Sets()[j].instrs| == fn.Slots()
    ensures Mirrors(Permuted(fn, o, 0), Permuted(fn, o, j))
  {
    hide Flat, SetShaped, Mirrors, Place, Mirror, IsPerm;
    SlotCount(isa, fn, j);
    assert Mirrors(fn.prologue.instrs, fn.epilogues[j - 1].instrs);
    PlacedMirrors(fn.prologue.instrs, fn.Sets()[j].instrs, o);
  }

  /** The permuted prologue saves the same registers. */
  lemma PermutedSaves(fn: Fn, o: seq<int>, r: Reg)
    requires OrderFits(fn, o) && Pushes(fn.prologue.instrs)
    ensures Pushes(Permuted(fn, o, 0))
    ensures Saves(Permuted(fn, o, 0), r) <==> Saves(fn.prologue.instrs, r)
  {
    var l := fn.prologue.instrs;
    var m := Place(l, o);
    assert Permuted(fn, o, 0) == m;
    forall p | 0 <= p < |m|
      ensures m[p].kind.Push? && m[p] == l[Slot(o, p)]
    {
      assert m[o[Slot(o, p)]] == l[Slot(o, p)];
    }
    if Saves(l, r) {
      var k :| 0 <= k < |l| && RegOf(l[k]) == r;
      assert RegOf(m[o[k]]) == r;
    }
    if Saves(m, r) {
      var p :| 0 <= p < |m| && RegOf(m[p]) == r;
      assert RegOf(l[Slot(o, p)]) == r;
    }
  }

  /** The instructions that set j of a function decodes to in a text. */
  ghost function SetCode(isa: Isa, text: seq<byte>, s: Site, j: nat): seq<Instr>
    requires Lawful(isa) && j < |s.fn.Sets()|
  {
    var x := s.fn.Sets()[j];
    var from := s.at + (x.start - s.fn.addr);
    if 0 <= from <= |text| then Sweep(isa, text, from, from + (x.end - x.start)).instrs else []
  }

  /** In the text that belongs to given tables every recorded set decodes to its own
      instructions rearranged. */
  lemma DecodesPermuted(isa: Isa, base: seq<byte>, sites: seq<Site>, orders: seq<seq<int>>, k: nat, j: nat)
    requires Lawful(isa) && AllSound(isa, base, sites) && OrdersFit(sites, orders)
    requires k < |sites| && j < |sites[k].fn.Sets()|
    ensures var s := sites[k];
      && |s.fn.Sets()[j].instrs| == s.fn.Slots()
      && SetCode(isa, TextFor(isa, base, sites, orders), s, j) == Permuted(s.fn, orders[k], j)
  {
    hide Flat, TextFor, Permuted, Sweep;
    var s := sites[k];
    SetHolds(isa, base, sites, orders, k, j);
    PermutedKnown(isa, s.fn, orders[k], j);
    assert InPlace(base, s.at, s.fn, s.fn.Sets()[j]);
    SweepFlat(isa, TextFor(isa, base, sites, orders), s.at + (s.fn.Sets()[j].start - s.fn.addr),
              Permuted(s.fn, orders[k], j));
  }

  /** The first n epilogues of a function as a text has them. */
  ghost function EpilogueCode(isa: Isa, text: seq<byte>, s: Site, n: nat): (r: seq<seq<Instr>>)
    requires Lawful(isa) && n <= |s.fn.epilogues|
    ensures |r| == n
    ensures forall k :: 0 <= k < n ==> r[k] == SetCode(isa, text, s, k + 1)
  {
    if n == 0 then [] else EpilogueCode(isa, text, s, n - 1) + [SetCode(isa, text, s, n)]
  }

  ghost function Prologues(isa: Isa, text: seq<byte>, sites: seq<Site>, n: nat): (r: seq<seq<Instr>>)
    requires Lawful(isa) && n <= |sites|
    ensures |r| == n && forall k :: 0 <= k < n ==> r[k] == SetCode(isa, text, sites[k], 0)
  {
    if n == 0 then [] else Prologues(isa, text, sites, n - 1) + [SetCode(isa, text, sites[n - 1], 0)]
  }

  ghost function Epilogues(isa: Isa, text: seq<byte>, sites: seq<Site>, n: nat): (r: seq<seq<seq<Instr>>>)
    requires Lawful(isa) && n <= |sites|
    ensures |r| == n
    ensures forall k :: 0 <= k < n ==> r[k] == EpilogueCode(isa, text, sites[k], |sites[k].fn.epilogues|)
  {
    if n == 0 then []
    else
      var s := sites[n - 1];
      Epilogues(isa, text, sites, n - 1) + [EpilogueCode(isa, text, s, |s.fn.epilogues|)]
  }

  /** The program that a text decodes to at the recorded sets. */
  ghost function ProgramOf(isa: Isa, text: seq<byte>, sites: seq<Site>): Program
    requires Lawful(isa)
  {
    Program(Prologues(isa, text, sites, |sites|), Epilogues(isa, text, sites, |sites|))
  }

  ghost predicate EpilogueIs(fn: Fn, o: seq<int>, epi: seq<Instr>, k: nat)
    requires OrderFits(fn, o)
  {
    && k + 1 < |fn.Sets()| && |fn.Sets()[k + 1].instrs| == fn.Slots()
    && epi == Permuted(fn, o, k + 1)
  }

  ghost predicate CodeIs(fn: Fn, o: seq<int>, pro: seq<Instr>, epis: seq<seq<Instr>>)
    requires OrderFits(fn, o)
  {
    && pro == Permuted(fn, o, 0) && |epis| == |fn.epilogues|
    && forall k :: 0 <= k < |epis| ==> EpilogueIs(fn, o, epis[k], k)
  }

  lemma PermutedCode(isa: Isa, base: seq<byte>, sites: seq<Site>, orders: seq<seq<int>>, f: nat)
    requires Lawful(isa) && AllSound(isa, base, sites) && OrdersFit(sites, orders) && f < |sites|
    ensures var p := ProgramOf(isa, TextFor(isa, base, sites, orders), sites);
      CodeIs(sites[f].fn, orders[f], p.prologues[f], p.epilogues[f])
  {
    hide TextFor, Permuted, SetCode, SoundAt, Prologues, Epilogues, EpilogueCode;
    var p := ProgramOf(isa, TextFor(isa, base, sites, orders), sites);
    DecodesPermuted(isa, base, sites, orders, f, 0);
    var fn, epis := sites[f].fn, p.epilogues[f];
    forall k | 0 <= k < |epis|
      ensures EpilogueIs(fn, orders[f], epis[k], k)
    {
      DecodesPermuted(isa, base, sites, orders, f, k + 1);
    }
    assert p.prologues[f] == Permuted(fn, orders[f], 0);
    assert CodeIs(fn, orders[f], p.prologues[f], epis);
  }

  /** Permuted code is balanced and pushes the registers of the original prologue. */
  lemma CodeBalanced(isa: Isa, fn: Fn, o: seq<int>, pro: seq<Instr>, epis: seq<seq<Instr>>)
    requires Shaped(isa, fn) && OrderFits(fn, o) && CodeIs(fn, o, pro, epis)
    ensures Pushes(pro) && StackOnly(pro) && Pushes(fn.prologue.instrs) && |pro| == fn.Slots()
    ensures forall k :: 0 <= k < |epis| ==> Mirrors(pro, epis[k])
    ensures forall r: Reg :: Saves(pro, r) == Saves(fn.prologue.instrs, r)
  {
    hide Permuted, Mirrors, Saves;
    assert forall k :: 0 <= k < fn.Slots() ==> InPrologue(fn.prologue.instrs[k]);
    PermutedSaves(fn, o, RSP);
    forall r: Reg
      ensures Saves(pro, r) == Saves(fn.prologue.instrs, r)
    {
      PermutedSaves(fn, o, r);
    }
    forall k | 0 <= k < |epis|
      ensures Mirrors(pro, epis[k])
    {
      PermutedMirrors(isa, fn, o, k + 1);
    }
  }

  /** The programs of any two choices of tables are balanced and push the same registers: pushes
      in, mirrored pops out, at every recorded exit. */
  lemma PermutedAlike(isa: Isa, base: seq<byte>, sites: seq<Site>, orders: seq<seq<int>>, orders': seq<seq<int>>)
    requires Lawful(isa) && AllSound(isa, base, sites) && OrdersFit(sites, orders) && OrdersFit(sites, orders')
    ensures var p := ProgramOf(isa, TextFor(isa, base, sites, orders), sites);
      var q := ProgramOf(isa, TextFor(isa, base, sites, orders'), sites);
      Balanced(p) && Balanced(q) && Alike(p, q)
  {
    hide TextFor, Prologues, Epilogues, Shaped, Placed, Pushes, StackOnly, Saves, CodeIs, IsPerm;
    var p := ProgramOf(isa, TextFor(isa, base, sites, orders), sites);
    var q := ProgramOf(isa, TextFor(isa, base, sites, orders'), sites);
    forall f | 0 <= f < |sites|
      ensures StackOnly(p.prologues[f]) && StackOnly(q.prologues[f])
      ensures Pushes(p.prologues[f])
      ensures forall k :: 0 <= k < |p.epilogues[f]| ==> Mirrors(p.prologues[f], p.epilogues[f][k])
      ensures Pushes(q.prologues[f])
      ensures forall k :: 0 <= k < |q.epilogues[f]| ==> Mirrors(q.prologues[f], q.epilogues[f][k])
    {
      PermutedCode(isa, base, sites, orders, f);
      PermutedCode(isa, base, sites, orders', f);
      CodeBalanced(isa, sites[f].fn, orders[f], p.prologues[f], p.epilogues[f]);
      CodeBalanced(isa, sites[f].fn, orders'[f], q.prologues[f], q.epilogues[f]);
    }
    assert Balanced(p) && Balanced(q);
    forall f | 0 <= f < |sites|
      ensures |p.prologues[f]| == |q.prologues[f]| && |p.epilogues[f]| == |q.epilogues[f]|
      ensures forall r: Reg :: Saves(p.prologues[f], r) == Saves(q.prologues[f], r)
    {
      PermutedCode(isa, base, sites, orders, f);
      PermutedCode(isa, base, sites, orders', f);
      CodeBalanced(isa, sites[f].fn, orders[f], p.prologues[f], p.epilogues[f]);
      CodeBalanced(isa, sites[f].fn, orders'[f], q.prologues[f], q.epilogues[f]);
      SameExits(sites[f].fn, orders[f], orders'[f], p.prologues[f], p.epilogues[f], q.prologues[f], q.epilogues[f]);
    }
  }

  lemma SameExits(fn: Fn, o: seq<int>, o': seq<int>, pro: seq<Instr>, epis: seq<seq<Instr>>,
                  pro': seq<Instr>, epis': seq<seq<Instr>>)
    requires OrderFits(fn, o) && OrderFits(fn, o') && CodeIs(fn, o, pro, epis) && CodeIs(fn, o', pro', epis')
    ensures |epis| == |epis'|
  {
  }

  /** Meaning is preserved over whole runs. Take the original text of accepted functions and the
      text after any number of randomizations with any values of rand(), and any execution of
      nested calls, repeated and overlapping as calls may be, that obeys the hypotheses in the
      original. Executed on what the two texts decode to, it ends with the same registers, rsp
      among them, and the same memory outside dead save slots. */
  lemma RunsPreserveMeaning(isa: Isa, base: seq<byte>, sites: seq<Site>,
                            orig: u64, data: Option<nat>, length: u64, rand: nat -> nat, from: nat, n: nat,
                            acts: seq<Act>, s: State)
    requires Lawful(isa) && AllSound(isa, base, sites) && Located(sites, orig, data, length)
    requires AllObey(ProgramOf(isa, base, sites), acts, Config(s, iset{}), iset{})
    ensures TablesFit(FnsAt(sites), Identities(sites))
    ensures var text := AfterRuns(isa, base, orig, data, length, FnsAt(sites), Identities(sites), rand, from, n).text;
      var p, q := ProgramOf(isa, base, sites), ProgramOf(isa, text, sites);
      var r, u := RunActs(p, acts, Config(s, iset{})), RunActs(q, acts, Config(s, iset{}));
      u.st.regs == r.st.regs && forall a :: a !in r.dead ==> Load(u.st.mem, a) == Load(r.st.mem, a)
  {
    hide AfterRuns, TextFor, AllSound, Located, TablesFit, OrdersFit, ProgramOf, Balanced, Alike, RunActs, AllObey,
         InSomeSet, InSet, SetIs;
    EveryRun(isa, base, sites, orig, data, length, rand, from, n);
    var r := AfterRuns(isa, base, orig, data, length, FnsAt(sites), Identities(sites), rand, from, n);
    IdentityText(isa, base, sites);
    PermutedAlike(isa, base, sites, Identities(sites), r.orders);
    AllMatching(ProgramOf(isa, base, sites), ProgramOf(isa, r.text, sites), acts, Config(s, iset{}), s, iset{});
  }
}
