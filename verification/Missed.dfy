/** Exits that the scan as written misses, and what leaving through an exit does that is not permuted
    with its prologue. */
module Missed {
  import opened Words
  import opened Instrs
  import opened Orders
  import opened Patches
  import opened Scan
  import opened Analysis
  import opened Layout
  import opened Windows
  import opened Search
  import opened Encode
  import opened Image
  import opened Transform
  import opened Randomize
  import opened Machine

  lemma PlacedPushes(l: seq<Instr>, o: seq<int>)
    requires Pushes(l) && IsPerm(o) && |o| == |l|
    ensures Pushes(Place(l, o))
    ensures forall p :: 0 <= p < |l| ==> Place(l, o)[p] in l
  {
    var m := Place(l, o);
    forall p | 0 <= p < |m|
      ensures m[p].kind.Push? && m[p] in l
    {
      assert m[o[Slot(o, p)]] == l[Slot(o, p)];
    }
  }

  /** In regs, register RegOf(l[k]) has the value that RegOf(m[k]) has in s, and registers not in l
      the value that they have in s. */
  ghost predicate TakenFrom(l: seq<Instr>, m: seq<Instr>, s: State, regs: Regs)
    requires StackOnly(l) && StackOnly(m) && |l| == |m|
  {
    && (forall k :: 0 <= k < |l| ==> regs[RegOf(l[k])] == s.regs[RegOf(m[k])])
    && (forall r: Reg :: !Saves(l, r) ==> regs[r] == s.regs[r])
  }

  /** The registers of s, with register RegOf(l[k]) holding the value of RegOf(m[k]) instead. */
  ghost function Moved(l: seq<Instr>, m: seq<Instr>, s: State): (regs: Regs)
    requires StackOnly(l) && StackOnly(m) && |l| == |m| && DistinctRegs(l)
    ensures TakenFrom(l, m, s, regs)
    decreases |l|
  {
    if l == [] then s.regs
    else
      var n := |l| - 1;
      var before := Moved(l[..n], m[..n], s);
      MovedStep(l, m, s, before);
      before[RegOf(l[n]) := s.regs[RegOf(m[n])]]
  }

  lemma MovedStep(l: seq<Instr>, m: seq<Instr>, s: State, before: Regs)
    requires StackOnly(l) && StackOnly(m) && |l| == |m| && DistinctRegs(l) && l != []
    requires TakenFrom(l[..|l| - 1], m[..|m| - 1], s, before)
    ensures TakenFrom(l, m, s, before[RegOf(l[|l| - 1]) := s.regs[RegOf(m[|m| - 1])]])
  {
    hide Saves;
    var n := |l| - 1;
    forall k | 0 <= k < n
      ensures before[RegOf(l[k])] == s.regs[RegOf(m[k])] && RegOf(l[k]) != RegOf(l[n])
    {
      assert l[..n][k] == l[k] && m[..n][k] == m[k];
    }
    forall r: Reg
      ensures Saves(l, r) <==> Saves(l[..n], r) || r == RegOf(l[n])
    {
      SavesLast(l, r);
    }
  }

  /** Leaving through an exit that was not permuted with the prologue rearranges the saved registers
      by the table: each gets the value of the register whose push stands in its place. */
  lemma UnpermutedExit(pro: seq<Instr>, epi: seq<Instr>, o: seq<int>, s: State)
    requires Mirrors(pro, epi) && DistinctRegs(pro) && IsPerm(o) && |o| == |pro|
    ensures StackOnly(Place(pro, o))
    ensures TakenFrom(pro, Place(pro, o), s, Exec(epi, Exec(Place(pro, o), s)).regs)
  {
    hide Place, IsPerm, Exec, Mirrors, Holds, Moved, Saves, DistinctRegs, SaveSlots;
    MirroredPushes(pro, epi);
    PlacedPushes(pro, o);
    SavedRegs(pro);
    var m := Place(pro, o);
    var t, s' := Exec(m, s), State(Moved(pro, m, s), s.mem);
    AfterPushes(m, s);
    assert forall p :: 0 <= p < |m| ==> m[p] in pro && RegOf(m[p]) != RSP;
    MovedHolds(pro, m, s, s', t.mem);
    AfterPops(pro, epi, s', t);
  }

  /** What the pushes m stored is what the pushes pro would have stored with the registers moved. */
  lemma MovedHolds(pro: seq<Instr>, m: seq<Instr>, s: State, s': State, mem: map<int, int>)
    requires Pushes(pro) && Pushes(m) && |pro| == |m| && TakenFrom(pro, m, s, s'.regs) && Holds(m, s, mem)
    requires forall p :: 0 <= p < |m| ==> RegOf(m[p]) != RSP && RegOf(pro[p]) != RSP
    requires s'.regs[RSP] == s.regs[RSP]
    ensures Holds(pro, s', mem)
  {
    hide Saves, Stored;
    forall i | 0 <= i < |pro|
      ensures Load(mem, s'.regs[RSP] - 8 * (i + 1)) == Stored(pro, s', i)
    {
      assert Load(mem, s.regs[RSP] - 8 * (i + 1)) == Stored(m, s, i);
      StoredMoved(pro, m, s, s', i);
    }
  }

  lemma StoredMoved(pro: seq<Instr>, m: seq<Instr>, s: State, s': State, i: nat)
    requires i < |pro| == |m| && !pro[i].kind.Other? && !m[i].kind.Other?
    requires RegOf(pro[i]) != RSP && RegOf(m[i]) != RSP && s'.regs[RegOf(pro[i])] == s.regs[RegOf(m[i])]
    ensures Stored(pro, s', i) == Stored(m, s, i)
  {
  }

  lemma SavedRegs(l: seq<Instr>)
    requires StackOnly(l) && DistinctRegs(l)
    ensures !Saves(l, RSP)
    ensures forall p :: 0 <= p < |l| ==> RegOf(l[p]) != RSP
    ensures forall p :: 0 <= p < |l| ==> Saves(l, RegOf(l[p]))
  {
  }

  lemma MirroredPushes(pro: seq<Instr>, epi: seq<Instr>)
    requires Mirrors(pro, epi)
    ensures Pushes(pro) && StackOnly(epi)
  {
  }

  /** Executed from s, the pushes and pops leave the registers as they were. */
  ghost predicate Restores(pro: seq<Instr>, epi: seq<Instr>, s: State)
    requires StackOnly(pro) && StackOnly(epi)
  {
    Exec(epi, Exec(pro, s)).regs == s.regs
  }

  /** An exit that was not permuted restores the registers, from whatever state, if and only if the
      prologue was not permuted either. */
  lemma RightIffUnpermuted(pro: seq<Instr>, epi: seq<Instr>, o: seq<int>)
    requires Mirrors(pro, epi) && DistinctRegs(pro) && IsPerm(o) && |o| == |pro|
    ensures StackOnly(Place(pro, o)) && StackOnly(epi)
    ensures (forall s :: Restores(Place(pro, o), epi, s)) <==> o == Identity(|pro|)
  {
    hide Exec, IsPerm, Mirrors, Place, DistinctRegs, Restores;
    MirroredPushes(pro, epi);
    PlacedPushes(pro, o);
    if o == Identity(|pro|) {
      forall s: State
        ensures Restores(Place(pro, o), epi, s)
      {
        UnpermutedRight(pro, epi, s);
      }
    }
    if forall s: State :: Restores(Place(pro, o), epi, s) {
      WrongUnlessIdentity(pro, epi, o);
    }
  }

  lemma WrongUnlessIdentity(pro: seq<Instr>, epi: seq<Instr>, o: seq<int>)
    requires Mirrors(pro, epi) && DistinctRegs(pro) && IsPerm(o) && |o| == |pro|
    requires StackOnly(Place(pro, o)) && StackOnly(epi) && Restores(Place(pro, o), epi, Numbered)
    ensures o == Identity(|pro|)
  {
    hide Exec, IsPerm, Mirrors, Place, DistinctRegs;
    UnpermutedExit(pro, epi, o, Numbered);
    MirroredPushes(pro, epi);
    SameRegs(pro, o);
  }

  lemma UnpermutedRight(pro: seq<Instr>, epi: seq<Instr>, s: State)
    requires Mirrors(pro, epi) && DistinctRegs(pro)
    ensures StackOnly(Place(pro, Identity(|pro|))) && StackOnly(epi)
    ensures Restores(Place(pro, Identity(|pro|)), epi, s)
  {
    hide Exec, IsPerm, Mirrors, Place, Identity, DistinctRegs;
    MirroredPushes(pro, epi);
    PlaceIdentity(pro);
    UnpermutedExit(pro, epi, Identity(|pro|), s);
    var t := Exec(epi, Exec(pro, s));
    forall r: Reg
      ensures t.regs[r] == s.regs[r]
    {
      if Saves(pro, r) {
        var p :| 0 <= p < |pro| && RegOf(pro[p]) == r;
      }
    }
  }

  lemma SameRegs(pro: seq<Instr>, o: seq<int>)
    requires Pushes(pro) && DistinctRegs(pro) && IsPerm(o) && |o| == |pro| && StackOnly(Place(pro, o))
    requires forall p :: 0 <= p < |pro| ==> RegOf(pro[p]) == RegOf(Place(pro, o)[p])
    ensures o == Identity(|pro|)
  {
    forall i | 0 <= i < |o|
      ensures o[i] == i
    {
      assert Place(pro, o)[o[i]] == pro[i] && RegOf(pro[o[i]]) == RegOf(Place(pro, o)[o[i]]);
    }
  }

  /** Encoding goes forward: it leaves all bytes before its place alone, whatever its outcome. */
  lemma {:induction false} EncodedForward(isa: Isa, text: seq<byte>, at: Option<nat>, l: seq<Instr>,
                                          start: u64, end: u64, x: nat)
    requires x < |text| && (at.Some? ==> x < at.value)
    ensures Encoded(isa, text, at, l, start, end).1[x] == text[x]
    decreases |l|
  {
    if l != [] && at.Some? && isa.encode(l[0]).Some? {
      var code := isa.encode(l[0]).value;
      if at.value + |code| <= |text| && (start + |code|) % WORD <= end {
        EncodedForward(isa, Splice(text, Patch(at.value, code)), Some(at.value + |code|), l[1..],
                       (start + |code|) % WORD, end, x);
      }
    }
  }

  /** Writing set s of a function in the order o never changes byte x. */
  ghost predicate Spares(isa: Isa, size: nat, from: nat, fn: Fn, s: InstrSet, o: seq<int>, x: nat)
    requires x < size && IsPerm(o) && |o| == |s.instrs|
  {
    forall text :: |text| == size ==>
      Encoded(isa, text, Locate(fn.addr, Some(from), fn.len, s.start), Place(s.instrs, o), s.start, s.end).1[x]
        == text[x]
  }

  lemma {:induction false} WrittenSpares(isa: Isa, text: seq<byte>, from: nat, fn: Fn, sets: seq<InstrSet>, o: seq<int>,
                                         j: nat, x: nat)
    requires IsPerm(o) && j <= |sets| && x < |text|
    requires forall k :: 0 <= k < |sets| ==> |sets[k].instrs| == |o| && Spares(isa, |text|, from, fn, sets[k], o, x)
    ensures WrittenSets(isa, text, Some(from), fn, sets[j..], o).1[x] == text[x]
    decreases |sets| - j
  {
    hide Encoded, Place, Locate, WrittenSets;
    if j == |sets| {
      assert sets[j..] == [];
      NoSetWritten(isa, text, Some(from), fn, o);
    } else {
      NextSetWritten(isa, text, Some(from), fn, sets, j, o);
      var s := sets[j];
      assert Spares(isa, |text|, from, fn, s, o, x);
      var r := Encoded(isa, text, Locate(fn.addr, Some(from), fn.len, s.start), Place(s.instrs, o), s.start, s.end);
      WrittenSpares(isa, r.1, from, fn, sets, o, j + 1, x);
    }
  }

  /** A set recorded where its run is spares all bytes behind the run. */
  lemma RightSpares(isa: Isa, buf: seq<byte>, from: nat, fn: Fn, l: seq<Instr>, o: seq<int>, j: nat, r: Run, x: nat)
    requires Reads(isa, buf, from, fn, l, true) && Shaped(isa, fn) && OrderFits(fn, o) && fn.addr + fn.len < WORD
    requires j < |fn.Sets()| && r.lo <= r.hi <= |l| && fn.Sets()[j] == SetAt(fn.addr, l, r.lo, r.hi)
    requires from + |Flat(l[..r.hi])| <= x < |buf|
    ensures IsPerm(OrderFor(o, j)) && |fn.Sets()[j].instrs| == |o|
    ensures Spares(isa, |buf|, from, fn, fn.Sets()[j], OrderFor(o, j), x)
  {
    hide Flat, Encoded, Place, Locate, IsPerm, Shaped, Reads;
    var s := fn.Sets()[j];
    MirrorPerm(o);
    SlotCount(isa, fn, j);
    ReadsKnown(isa, buf, from, fn, l);
    SetInPlace(buf, from, l, fn, r.lo, r.hi);
    forall text: seq<byte> | |text| == |buf|
      ensures Encoded(isa, text, Locate(fn.addr, Some(from), fn.len, s.start),
                      Place(s.instrs, OrderFor(o, j)), s.start, s.end).1[x] == text[x]
    {
      RefillSpares(isa, text, from, fn, o, j, x);
    }
  }

  lemma RefillSpares(isa: Isa, text: seq<byte>, from: nat, fn: Fn, o: seq<int>, j: nat, x: nat)
    requires Shaped(isa, fn) && OrderFits(fn, o) && j < |fn.Sets()| && fn.addr + fn.len < WORD
    requires var s := fn.Sets()[j];
      && fn.addr <= s.start && s.start + |Flat(s.instrs)| == s.end <= fn.addr + fn.len
      && from + (s.end - fn.addr) <= x < |text|
    ensures IsPerm(OrderFor(o, j)) && |fn.Sets()[j].instrs| == |o|
    ensures var s := fn.Sets()[j];
      var place := Locate(fn.addr, Some(from), fn.len, s.start);
      Encoded(isa, text, place, Place(s.instrs, OrderFor(o, j)), s.start, s.end).1[x] == text[x]
  {
    hide Flat, Splice, Encoded, Place, Locate, IsPerm, Shaped;
    MirrorPerm(o);
    PermutedKnown(isa, fn, o, j);
    var s, m := fn.Sets()[j], Permuted(fn, o, j);
    LocateInside(fn.addr, from, fn.len, s.start);
    var at := from + (s.start - fn.addr);
    ExactRefill(isa, text, at, m, s.start, s.end);
    SplicedBefore(text, at, Flat(m), x);
  }

  lemma SplicedBefore(text: seq<byte>, at: nat, body: seq<byte>, x: nat)
    requires at + |body| <= x < |text|
    ensures Splice(text, Patch(at, body))[x] == text[x]
  {
  }

  lemma {:induction false} DriftGrows(l: seq<Instr>, runs: seq<Run>, i: nat, j: nat)
    requires InBounds(l, runs) && i <= j <= |runs|
    ensures Drift(l, runs, i) <= Drift(l, runs, j)
  {
    if i < j {
      DriftGrows(l, runs, i, j - 1);
    }
  }

  lemma DriftedPlace(addr: u64, len: u64, from: nat, d: nat, off: nat)
    requires addr + len < WORD && 2 * len < WORD && d <= len && off <= len
    ensures var place := Locate(addr, Some(from), len, ((addr + d) % WORD + off) % WORD);
      place.Some? ==> place.value == from + d + off
  {
  }

  lemma DriftedStart(isa: Isa, from: nat, addr: u64, l: seq<Instr>, h: nat)
    requires AllKnown(isa, l) && addr + |Flat(l)| < WORD && 2 * |Flat(l)| < WORD && h < |EpilogueRuns(l)|
    ensures var runs := EpilogueRuns(l);
      var place := Locate(addr, Some(from), |Flat(l)|, SetFor(addr, l, runs, h, true).start);
      place.Some? ==> place.value == from + Drift(l, runs, h) + |Flat(l[..runs[h].lo])|
  {
    hide Flat, Locate, Runs, SetFor, Drift, EpilogueRuns;
    var runs := EpilogueRuns(l);
    RunsSearched(l);
    StartOf(addr, l, runs, h, true);
    DriftBounds(isa, l, runs, h);
    DriftStart(l, runs);
    FlatMonotone(l, runs[h].lo, |l|);
    assert l[..|l|] == l;
    DriftedPlace(addr, |Flat(l)|, from, Drift(l, runs, h), |Flat(l[..runs[h].lo])|);
  }

  /** A set recorded as written for run h spares the bytes before its drifted place. */
  lemma DriftedSpares(isa: Isa, size: nat, from: nat, fn: Fn, l: seq<Instr>, o: seq<int>, h: nat, x: nat)
    requires AllKnown(isa, l) && |Flat(l)| == fn.len && fn.addr + fn.len < WORD && 2 * fn.len < WORD
    requires h < |EpilogueRuns(l)| && x < size
    requires x < from + Drift(l, EpilogueRuns(l), h) + |Flat(l[..EpilogueRuns(l)[h].lo])|
    requires IsPerm(o) && |o| == |SetFor(fn.addr, l, EpilogueRuns(l), h, true).instrs|
    ensures Spares(isa, size, from, fn, SetFor(fn.addr, l, EpilogueRuns(l), h, true), o, x)
  {
    hide Flat, Encoded, Place, Locate, IsPerm, Runs, SetFor, Drift, EpilogueRuns;
    RunsSearched(l);
    DriftedStart(isa, from, fn.addr, l, h);
    var s := SetFor(fn.addr, l, EpilogueRuns(l), h, true);
    var place := Locate(fn.addr, Some(from), fn.len, s.start);
    forall text: seq<byte> | |text| == size
      ensures Encoded(isa, text, place, Place(s.instrs, o), s.start, s.end).1[x] == text[x]
    {
      EncodedForward(isa, text, place, Place(s.instrs, o), s.start, s.end, x);
    }
  }

  lemma LaterHits(l: seq<Instr>)
    requires EpilogueHits(l) != [] && !OnlyFirst(l)
    ensures var hits := EpilogueHits(l);
      && (hits[0] == 0 ==> |hits| > 1 && hits[1] > 0)
      && (forall k :: 0 <= k < |hits| ==> hits[k] < |EpilogueRuns(l)|)
      && (forall h :: h in hits && h != 0 ==> hits[0] <= h && (hits[0] == 0 ==> hits[1] <= h))
  {
    hide OnlyFirst, Runs, Mirrors;
    OnlyFirstHits(l);
    var hits := EpilogueHits(l);
    forall h | h in hits && h != 0
      ensures hits[0] <= h && (hits[0] == 0 ==> hits[1] <= h)
    {
      var k :| 0 <= k < |hits| && hits[k] == h;
    }
  }

  /** The run of pops that the scan as written misses: the first one recorded that is not the first
      run. */
  ghost function MissedRun(l: seq<Instr>): (i: nat)
    requires EpilogueHits(l) != [] && !OnlyFirst(l)
    ensures 0 < i < |EpilogueRuns(l)| && i in EpilogueHits(l)
    ensures forall h :: h in EpilogueHits(l) && h != 0 ==> i <= h
  {
    LaterHits(l);
    var hits := EpilogueHits(l);
    if hits[0] > 0 then hits[0] else hits[1]
  }

  /** The bytes with which a run starts, as many as the scan has drifted before it. */
  ghost predicate InMissed(l: seq<Instr>, from: nat, i: nat, x: nat)
    requires i < |EpilogueRuns(l)|
  {
    var lo := from + |Flat(l[..EpilogueRuns(l)[i].lo])|;
    lo <= x < lo + Drift(l, EpilogueRuns(l), i)
  }

  lemma PrologueSpares(isa: Isa, buf: seq<byte>, from: nat, fn: Fn, l: seq<Instr>, o: seq<int>, x: nat)
    requires Reads(isa, buf, from, fn, l, true) && OrderFits(fn, o) && !OnlyFirst(l) && fn.addr + fn.len < WORD
    requires InMissed(l, from, MissedRun(l), x) && x < |buf|
    ensures Spares(isa, |buf|, from, fn, fn.prologue, o, x)
  {
    hide Flat, Runs, Hits, Record, Spares, IsPerm, SetAt, Shaped, PrologueRun, OnlyFirst, MissedRun, SetFor;
    ReadsShaped(isa, buf, from, fn, l, true);
    RunsSearched(l);
    var p := PrologueRun(l);
    FlatMonotone(l, p.hi, EpilogueRuns(l)[MissedRun(l)].lo);
    RightSpares(isa, buf, from, fn, l, o, 0, p, x);
  }

  lemma EpilogueSpares(isa: Isa, buf: seq<byte>, from: nat, fn: Fn, l: seq<Instr>, o: seq<int>, k: nat, x: nat)
    requires Reads(isa, buf, from, fn, l, true) && OrderFits(fn, o) && !OnlyFirst(l)
    requires fn.addr + fn.len < WORD && 2 * fn.len < WORD
    requires k < |fn.epilogues| && InMissed(l, from, MissedRun(l), x) && x < |buf|
    ensures IsPerm(Mirror(o)) && |fn.epilogues[k].instrs| == |o|
    ensures Spares(isa, |buf|, from, fn, fn.epilogues[k], Mirror(o), x)
  {
    hide Flat, Runs, Hits, Spares, IsPerm, SetAt, PrologueRun, OnlyFirst, MissedRun, SetFor, Reads, Shaped,
         EpilogueRuns, EpilogueHits, Drift;
    ReadsKnown(isa, buf, from, fn, l);
    ReadsShaped(isa, buf, from, fn, l, true);
    MirrorPerm(o);
    SlotCount(isa, fn, k + 1);
    RunsSearched(l);
    var runs, i := EpilogueRuns(l), MissedRun(l);
    var h := EpilogueRun(isa, buf, from, fn, l, true, k);
    assert h == EpilogueHits(l)[k] && h in EpilogueHits(l);
    if h == 0 {
      DriftStart(l, runs);
      SetForAt(fn.addr, l, runs, 0, true);
      FlatMonotone(l, runs[0].hi, runs[i].lo);
      RightSpares(isa, buf, from, fn, l, o, k + 1, runs[0], x);
    } else {
      DriftGrows(l, runs, i, h);
      LaterLo(l, i, h);
      DriftedSpares(isa, |buf|, from, fn, l, Mirror(o), h, x);
    }
  }

  lemma LaterLo(l: seq<Instr>, i: nat, h: nat)
    requires i <= h < |EpilogueRuns(l)|
    ensures |Flat(l[..EpilogueRuns(l)[i].lo])| <= |Flat(l[..EpilogueRuns(l)[h].lo])|
  {
    hide Flat, EpilogueRuns;
    RunsSearched(l);
    FlatMonotone(l, EpilogueRuns(l)[i].lo, EpilogueRuns(l)[h].lo);
  }

  lemma ReadsKnown(isa: Isa, buf: seq<byte>, from: nat, fn: Fn, l: seq<Instr>)
    requires Reads(isa, buf, from, fn, l, true)
    ensures AllKnown(isa, l) && EpilogueHits(l) != [] && |Flat(l)| == fn.len
    ensures from + fn.len <= |buf| && buf[from..from + fn.len] == Flat(l)
  {
  }

  lemma MissedUndoes(isa: Isa, l: seq<Instr>)
    requires AllKnown(isa, l) && EpilogueHits(l) != [] && !OnlyFirst(l)
    ensures var i := MissedRun(l);
      Undoes(l, PrologueRun(l), EpilogueRuns(l)[i]) && Drift(l, EpilogueRuns(l), i) > 0
  {
    hide Flat, Runs, Hits, PrologueRun, Undoes, MissedRun, OnlyFirst, EpilogueRuns, EpilogueHits, Drift;
    UndoingRuns(l);
    RunsSearched(l);
    DriftBounds(isa, l, EpilogueRuns(l), MissedRun(l));
  }

  /** Writing the function never changes byte x, by whatever table and whatever its outcome. */
  ghost predicate NeverWritten(isa: Isa, size: nat, from: nat, fn: Fn, x: nat)
    requires SlotsAgree(fn) && x < size
  {
    forall text, o :: |text| == size && OrderFits(fn, o) ==>
      Written(isa, text, Some(from), fn, o).1[x] == text[x]
  }

  /** Run i undoes the prologue, and still the bytes that it starts with, as many as the scan has
      drifted, are never written when the function is permuted. */
  ghost predicate Misses(isa: Isa, size: nat, from: nat, fn: Fn, l: seq<Instr>, i: nat)
    requires i < |EpilogueRuns(l)|
  {
    && Undoes(l, PrologueRun(l), EpilogueRuns(l)[i]) && Drift(l, EpilogueRuns(l), i) > 0
    && SlotsAgree(fn)
    && forall x: nat :: InMissed(l, from, i, x) && x < size ==> NeverWritten(isa, size, from, fn, x)
  }

  /** Every function that the scan as written reads wrongly has an exit that is not permuted with the
      prologue, however often the function is permuted and whatever the outcome. */
  lemma MissedExit(isa: Isa, buf: seq<byte>, from: nat, fn: Fn, l: seq<Instr>)
    requires Reads(isa, buf, from, fn, l, true) && !OnlyFirst(l)
    requires fn.addr + fn.len < WORD && 2 * fn.len < WORD
    ensures EpilogueHits(l) != [] && Misses(isa, |buf|, from, fn, l, MissedRun(l))
  {
    hide Flat, Shaped, Written, Undoes, MissedRun, OnlyFirst, EpilogueRuns, EpilogueHits, Drift, Reads, InMissed,
         SlotsAgree;
    ReadsKnown(isa, buf, from, fn, l);
    MissedUndoes(isa, l);
    ReadsShaped(isa, buf, from, fn, l, true);
    ShapedSlots(isa, fn);
    forall x: nat, text, o | InMissed(l, from, MissedRun(l), x) && x < |buf| == |text| && OrderFits(fn, o)
      ensures Written(isa, text, Some(from), fn, o).1[x] == text[x]
    {
      WrittenLeaves(isa, buf, from, fn, l, text, o, x);
    }
  }

  lemma WrittenLeaves(isa: Isa, buf: seq<byte>, from: nat, fn: Fn, l: seq<Instr>, text: seq<byte>, o: seq<int>, x: nat)
    requires Reads(isa, buf, from, fn, l, true) && !OnlyFirst(l)
    requires fn.addr + fn.len < WORD && 2 * fn.len < WORD
    requires |text| == |buf| && OrderFits(fn, o) && InMissed(l, from, MissedRun(l), x) && x < |buf|
    requires SlotsAgree(fn)
    ensures Written(isa, text, Some(from), fn, o).1[x] == text[x]
  {
    hide Flat, Spares, IsPerm, Reads, OnlyFirst, InMissed, MissedRun, WrittenSets, EpilogueHits;
    MirrorPerm(o);
    PrologueSpares(isa, buf, from, fn, l, o, x);
    WrittenSpares(isa, text, from, fn, [fn.prologue], o, 0, x);
    assert [fn.prologue][0..] == [fn.prologue];
    var r := WrittenSets(isa, text, Some(from), fn, [fn.prologue], o);
    forall k | 0 <= k < |fn.epilogues|
      ensures Spares(isa, |buf|, from, fn, fn.epilogues[k], Mirror(o), x)
    {
      EpilogueSpares(isa, buf, from, fn, l, o, k, x);
    }
    WrittenSpares(isa, r.1, from, fn, fn.epilogues, Mirror(o), 0, x);
    assert fn.epilogues[0..] == fn.epilogues;
  }

  /** The missed exit is no longer than the drift before it. */
  ghost predicate ShortMissed(l: seq<Instr>) {
    && EpilogueHits(l) != [] && !OnlyFirst(l)
    && Bytes(l, EpilogueRuns(l)[MissedRun(l)]) <= Drift(l, EpilogueRuns(l), MissedRun(l))
  }

  ghost function MissedPlace(l: seq<Instr>): (r: Run)
    requires EpilogueHits(l) != [] && !OnlyFirst(l)
    ensures r.lo < r.hi <= |l|
  {
    EpilogueRuns(l)[MissedRun(l)]
  }

  /** The text holds the instructions of run r where the function has them. */
  ghost predicate HoldsRun(text: seq<byte>, from: nat, l: seq<Instr>, r: Run) {
    && r.lo <= r.hi <= |l| && from + |Flat(l[..r.hi])| <= |text| && |Flat(l[..r.lo])| <= |Flat(l[..r.hi])|
    && text[from + |Flat(l[..r.lo])|..from + |Flat(l[..r.hi])|] == Flat(l[r.lo..r.hi])
  }

  /** What the bytes of run r decode to in a text. */
  ghost function CodeOf(isa: Isa, text: seq<byte>, from: nat, l: seq<Instr>, r: Run): seq<Instr>
    requires Lawful(isa) && r.lo <= r.hi <= |l|
  {
    var a, b := from + |Flat(l[..r.lo])|, from + |Flat(l[..r.hi])|;
    if a <= |text| then Sweep(isa, text, a, b).instrs else []
  }

  lemma ReadsHold(isa: Isa, buf: seq<byte>, from: nat, fn: Fn, l: seq<Instr>, r: Run)
    requires Reads(isa, buf, from, fn, l, true) && r.lo <= r.hi <= |l|
    ensures HoldsRun(buf, from, l, r)
  {
    hide Flat, Reads;
    ReadsKnown(isa, buf, from, fn, l);
    FlatMonotone(l, r.lo, r.hi);
    FlatParts(l, r.lo, r.hi);
    SubSlice(buf, from, |Flat(l)|, |Flat(l[..r.lo])|, |Flat(l[..r.hi])|);
    MiddlePart(Flat(l[..r.lo]), Flat(l[r.lo..r.hi]), Flat(l[r.hi..]));
  }

  lemma CodeIsFlat(isa: Isa, text: seq<byte>, from: nat, l: seq<Instr>, r: Run, code: seq<Instr>)
    requires Lawful(isa) && AllKnown(isa, code) && r.lo <= r.hi <= |l|
    requires |Flat(code)| == |Flat(l[r.lo..r.hi])| && from + |Flat(l[..r.hi])| <= |text|
    requires |Flat(l[..r.lo])| <= |Flat(l[..r.hi])|
    requires text[from + |Flat(l[..r.lo])|..from + |Flat(l[..r.hi])|] == Flat(code)
    ensures CodeOf(isa, text, from, l, r) == code
  {
    hide Flat;
    FlatParts(l, r.lo, r.hi);
    SweepFlat(isa, text, from + |Flat(l[..r.lo])|, code);
  }

  lemma RunKnown(isa: Isa, l: seq<Instr>, r: Run)
    requires AllKnown(isa, l) && r.lo <= r.hi <= |l|
    ensures AllKnown(isa, l[r.lo..r.hi])
  {
  }

  /** No epilogue is written over the prologue, wherever it was recorded. */
  lemma EpilogueSparesPrologue(isa: Isa, buf: seq<byte>, from: nat, fn: Fn, l: seq<Instr>, o: seq<int>, k: nat, x: nat)
    requires Reads(isa, buf, from, fn, l, true) && OrderFits(fn, o)
    requires fn.addr + fn.len < WORD && 2 * fn.len < WORD
    requires k < |fn.epilogues| && x < |buf| && x < from + |Flat(l[..PrologueRun(l).hi])|
    ensures IsPerm(Mirror(o)) && |fn.epilogues[k].instrs| == |o|
    ensures Spares(isa, |buf|, from, fn, fn.epilogues[k], Mirror(o), x)
  {
    hide Flat, Runs, Hits, Spares, IsPerm, SetAt, PrologueRun, SetFor, Reads, Shaped, EpilogueRuns, EpilogueHits, Drift;
    ReadsKnown(isa, buf, from, fn, l);
    ReadsShaped(isa, buf, from, fn, l, true);
    MirrorPerm(o);
    SlotCount(isa, fn, k + 1);
    RunsSearched(l);
    var h := EpilogueRun(isa, buf, from, fn, l, true, k);
    FlatMonotone(l, PrologueRun(l).hi, EpilogueRuns(l)[h].lo);
    DriftedSpares(isa, |buf|, from, fn, l, Mirror(o), h, x);
  }

  /** Writing the prologue leaves it in the new order, whatever the epilogues do afterwards. */
  lemma PrologueWritten(isa: Isa, buf: seq<byte>, from: nat, fn: Fn, l: seq<Instr>, text: seq<byte>, o: seq<int>)
    requires Lawful(isa) && Reads(isa, buf, from, fn, l, true) && OrderFits(fn, o) && SlotsAgree(fn)
    requires fn.addr + fn.len < WORD && 2 * fn.len < WORD && |text| == |buf|
    ensures var t := Written(isa, text, Some(from), fn, o).1;
      CodeOf(isa, t, from, l, PrologueRun(l)) == Place(fn.prologue.instrs, o)
  {
    hide Flat, Spares, IsPerm, Reads, WrittenSets, PrologueRun, Encoded, Splice, Locate, Place, CodeOf, Shaped;
    ReadsKnown(isa, buf, from, fn, l);
    ReadsShaped(isa, buf, from, fn, l, true);
    PrologueSet(isa, buf, from, fn, l);
    PermutedKnown(isa, fn, o, 0);
    MirrorPerm(o);
    var p, m := PrologueRun(l), Place(fn.prologue.instrs, o);
    assert Permuted(fn, o, 0) == m;
    FlatMonotone(l, p.lo, p.hi);
    SetInPlace(buf, from, l, fn, p.lo, p.hi);
    var a, b := from + |Flat(l[..p.lo])|, from + |Flat(l[..p.hi])|;
    LocateInside(fn.addr, from, fn.len, fn.prologue.start);
    WrittenOne(isa, text, Some(from), fn, fn.prologue, o);
    ExactRefill(isa, text, a, m, fn.prologue.start, fn.prologue.end);
    var t := Splice(text, Patch(a, Flat(m)));
    var t' := Written(isa, text, Some(from), fn, o).1;
    assert t' == WrittenSets(isa, t, Some(from), fn, fn.epilogues, Mirror(o)).1;
    SplicedThere(text, a, Flat(m));
    forall x | a <= x < b
      ensures t'[x] == t[x]
    {
      EpiloguesSpare(isa, buf, from, fn, l, t, o, x);
    }
    SameSlice(t, t', a, b);
    CodeIsFlat(isa, t', from, l, p, m);
  }

  lemma PrologueSet(isa: Isa, buf: seq<byte>, from: nat, fn: Fn, l: seq<Instr>)
    requires Reads(isa, buf, from, fn, l, true)
    ensures fn.prologue == SetAt(fn.addr, l, PrologueRun(l).lo, PrologueRun(l).hi)
    ensures fn.prologue.instrs == l[PrologueRun(l).lo..PrologueRun(l).hi]
  {
  }

  lemma SplicedThere(text: seq<byte>, at: nat, body: seq<byte>)
    requires at + |body| <= |text|
    ensures Splice(text, Patch(at, body))[at..at + |body|] == body
  {
  }

  lemma SameSlice<T>(s: seq<T>, t: seq<T>, a: nat, b: nat)
    requires |s| == |t| && a <= b <= |s| && forall x :: a <= x < b ==> t[x] == s[x]
    ensures t[a..b] == s[a..b]
  {
  }

  lemma EpiloguesSpare(isa: Isa, buf: seq<byte>, from: nat, fn: Fn, l: seq<Instr>, text: seq<byte>, o: seq<int>, x: nat)
    requires Reads(isa, buf, from, fn, l, true) && OrderFits(fn, o) && SlotsAgree(fn) && IsPerm(Mirror(o))
    requires fn.addr + fn.len < WORD && 2 * fn.len < WORD && |text| == |buf|
    requires x < |buf| && x < from + |Flat(l[..PrologueRun(l).hi])|
    ensures WrittenSets(isa, text, Some(from), fn, fn.epilogues, Mirror(o)).1[x] == text[x]
  {
    hide Flat, Spares, IsPerm, Reads, WrittenSets, PrologueRun;
    forall k | 0 <= k < |fn.epilogues|
      ensures Spares(isa, |buf|, from, fn, fn.epilogues[k], Mirror(o), x)
    {
      EpilogueSparesPrologue(isa, buf, from, fn, l, o, k, x);
    }
    WrittenSpares(isa, text, from, fn, fn.epilogues, Mirror(o), 0, x);
    assert fn.epilogues[0..] == fn.epilogues;
  }

  /** A missed exit no longer than the drift before it keeps all of its instructions. */
  lemma ExitStays(isa: Isa, buf: seq<byte>, from: nat, fn: Fn, l: seq<Instr>, text: seq<byte>, o: seq<int>)
    requires Reads(isa, buf, from, fn, l, true) && OrderFits(fn, o) && SlotsAgree(fn)
    requires fn.addr + fn.len < WORD && 2 * fn.len < WORD && |text| == |buf|
    requires ShortMissed(l) && HoldsRun(text, from, l, MissedPlace(l))
    ensures HoldsRun(Written(isa, text, Some(from), fn, o).1, from, l, MissedPlace(l))
  {
    hide Flat, Reads, OnlyFirst, EpilogueRuns, EpilogueHits, MissedRun, Drift, Written, IsPerm;
    var r := MissedPlace(l);
    FlatParts(l, r.lo, r.hi);
    var a, b := from + |Flat(l[..r.lo])|, from + |Flat(l[..r.hi])|;
    var t := Written(isa, text, Some(from), fn, o).1;
    forall x | a <= x < b
      ensures t[x] == text[x]
    {
      WrittenLeaves(isa, buf, from, fn, l, text, o, x);
    }
    SameSlice(text, t, a, b);
  }

  /** Drift makes functions wrong. In a function that the scan as written records wrongly, take the
      exit that it misses, no longer than the drift before it, in the bytes that were scanned or in what
      any permutations have made of them. Once more permuted by a table, its prologue is that of the
      table and the exit is what it was, so that leaving through it restores the registers from every
      state if and only if the table is the identity. */
  lemma MissedExitWrong(isa: Isa, buf: seq<byte>, from: nat, fn: Fn, l: seq<Instr>, text: seq<byte>, o: seq<int>)
    requires Lawful(isa) && Reads(isa, buf, from, fn, l, true) && OrderFits(fn, o)
    requires fn.addr + fn.len < WORD && 2 * fn.len < WORD && |text| == |buf|
    requires StackOnly(fn.prologue.instrs) && DistinctRegs(fn.prologue.instrs)
    requires ShortMissed(l) && (text == buf || HoldsRun(text, from, l, MissedPlace(l)))
    ensures var r := MissedPlace(l);
      && SlotsAgree(fn)
      && var t := Written(isa, text, Some(from), fn, o).1;
         var pro, epi := CodeOf(isa, t, from, l, PrologueRun(l)), CodeOf(isa, t, from, l, r);
         && HoldsRun(t, from, l, r)
         && pro == Place(fn.prologue.instrs, o) && epi == l[r.lo..r.hi] && StackOnly(pro) && StackOnly(epi)
         && ((forall s :: Restores(pro, epi, s)) <==> o == Identity(fn.Slots()))
  {
    hide Flat, Shaped, Written, MissedRun, OnlyFirst, EpilogueRuns, EpilogueHits, Drift, Reads, IsPerm, CodeOf, Place,
         Mirrors, DistinctRegs, Restores, PrologueRun, SlotsAgree, Undoes;
    ReadsKnown(isa, buf, from, fn, l);
    ReadsShaped(isa, buf, from, fn, l, true);
    ShapedSlots(isa, fn);
    MissedUndoes(isa, l);
    PrologueSet(isa, buf, from, fn, l);
    var r := MissedPlace(l);
    UndoesIs(l, PrologueRun(l), r);
    ReadsHold(isa, buf, from, fn, l, r);
    ExitStays(isa, buf, from, fn, l, text, o);
    PrologueWritten(isa, buf, from, fn, l, text, o);
    RunKnown(isa, l, r);
    CodeIsFlat(isa, Written(isa, text, Some(from), fn, o).1, from, l, r, l[r.lo..r.hi]);
    RightIffUnpermuted(fn.prologue.instrs, l[r.lo..r.hi], o);
  }
}
