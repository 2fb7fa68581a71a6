/** The search for epilogues in transform_add_function, proved to record what Analysis says. */
module Search {
  import opened Words
  import opened Instrs
  import opened Codes
  import opened Scan
  import opened Analysis

  /** Whether the pops of a candidate undo the pushes of the prologue. */
  method IsEpilogue(pro: seq<Instr>, epi: seq<Instr>) returns (b: bool)
    requires forall k :: 0 <= k < |pro| ==> pro[k].kind.Push?
    requires forall k :: 0 <= k < |epi| ==> epi[k].kind.Pop?
    ensures b <==> |pro| == |epi| && forall k :: 0 <= k < |epi| ==> epi[k].kind.reg == pro[|pro| - 1 - k].kind.reg
    ensures b <==> Mirrors(pro, epi)
  {
    if |pro| != |epi| {
      return false;
    }
    var regs := new Reg[|pro|];
    for i := 0 to |pro|
      invariant forall k :: 0 <= k < i ==> regs[k] == RegOf(pro[k])
    {
      regs[i] := RegOf(pro[i]);
    }
    var reg := |pro| - 1;
    for i := 0 to |epi|
      invariant reg == |pro| - 1 - i
      invariant forall k :: 0 <= k < i ==> RegOf(epi[k]) == RegOf(pro[|pro| - 1 - k])
    {
      if regs[reg] != RegOf(epi[i]) {
        assert RegOf(epi[i]) != RegOf(pro[|pro| - 1 - i]);
        return false;
      }
      reg := reg - 1;
    }
    return true;
  }

  lemma {:induction false} ShiftEnds(l: seq<Instr>, k: nat, j: nat, test: Instr -> bool)
    requires k + j <= |l|
    ensures SkipTo(l[k..], j, test) == SkipTo(l, k + j, test) - k
    ensures RunEnd(l[k..], j, test) == RunEnd(l, k + j, test) - k
    decreases |l| - k - j
  {
    if k + j < |l| {
      ShiftEnds(l, k, j + 1, test);
    }
  }

  lemma ShiftAddr(orig: u64, l: seq<Instr>, k: nat, a: nat)
    requires k <= a <= |l|
    ensures AddrAt(AddrAt(orig, l, k), l[k..], a - k) == AddrAt(orig, l, a)
    ensures |Flat(l[..a])| == |Flat(l[..k])| + |Flat(l[k..][..a - k])|
  {
    hide Flat;
    FlatParts(l, k, a);
    assert l[k..][..a - k] == l[k..a];
  }

  lemma ShiftSet(orig: u64, l: seq<Instr>, k: nat, a: nat, b: nat)
    requires k <= a <= b <= |l|
    ensures SetAt(AddrAt(orig, l, k), l[k..], a - k, b - k) == SetAt(orig, l, a, b)
  {
    ShiftAddr(orig, l, k, a);
    ShiftAddr(orig, l, k, b);
    assert l[k..][a - k..b - k] == l[a..b];
  }

  /** The scan of a function has consumed the first n of its instructions l. */
  ghost predicate Reached(isa: Isa, buf: seq<byte>, end: int, from: nat, l: seq<Instr>, ok: bool,
                          n: nat, walk: nat)
    requires Lawful(isa)
  {
    && n <= |l| && walk == from + |Flat(l[..n])| <= |buf|
    && Sweep(isa, buf, walk, end) == Swept(l[n..], ok)
  }

  lemma ShiftRun(l: seq<Instr>, n: nat, test: Instr -> bool)
    requires n <= |l|
    ensures var a := SkipTo(l, n, test);
      && SkipTo(l[n..], 0, test) == a - n
      && RunEnd(l[n..], a - n, test) == RunEnd(l, a, test) - n
  {
    hide SkipTo, RunEnd;
    ShiftEnds(l, n, 0, test);
    ShiftEnds(l, n, SkipTo(l, n, test) - n, test);
  }

  /** What next_set delivers from the middle of a function. */
  lemma NextFrom(isa: Isa, buf: seq<byte>, end: int, from: nat, l: seq<Instr>, ok: bool, n: nat,
                 walk: nat, o: u64, test: Instr -> bool, walk': nat, orig': u64, set_: InstrSet)
    requires Lawful(isa) && Reached(isa, buf, end, from, l, ok, n, walk)
    requires Delivered(isa, buf, end, walk, AddrAt(o, l, n), Swept(l[n..], ok), test, walk', orig', set_)
    ensures var a := SkipTo(l, n, test);
      var b := RunEnd(l, a, test);
      && set_ == SetAt(o, l, a, b)
      && orig' == AddrAt(o, l, PastRun(l, b))
      && Reached(isa, buf, end, from, l, ok, PastRun(l, b), walk')
  {
    hide Flat, Sweep, SkipTo, RunEnd, AddrAt, SetAt;
    ShiftRun(l, n, test);
    var a := SkipTo(l, n, test);
    var b := RunEnd(l, a, test);
    ShiftSet(o, l, n, a, b);
    var m := PastRun(l, b);
    ShiftAddr(o, l, n, m);
    assert l[n..][m - n..] == l[m..];
    assert PastRun(l[n..], b - n) == m - n;
  }

  lemma FailsFrom(l: seq<Instr>, ok: bool, n: nat, test: Instr -> bool)
    requires n <= |l|
    ensures Fails(Swept(l[n..], ok), test) <==> RunEnd(l, SkipTo(l, n, test), test) == |l| && !ok
  {
    ShiftRun(l, n, test);
  }

  /** The added length of src/transform.c:370. */
  lemma DriftAdds(addr: u64, drift: nat, l: seq<Instr>, r: Run, m: nat, set_: InstrSet)
    requires r.lo <= r.hi <= |l| && m <= |l|
    requires set_ == SetAt((addr + drift) % WORD, l, r.lo, r.hi)
    ensures Add(AddrAt((addr + drift) % WORD, l, m), Sub(set_.end, set_.start))
         == AddrAt((addr + drift + Bytes(l, r)) % WORD, l, m)
  {
    hide Flat;
    FlatParts(l, r.lo, r.hi);
    var x, y, z := addr + drift, |Flat(l[..r.lo])|, Bytes(l, r);
    WrapSub(x, y, z);
    WrapAdd(x, |Flat(l[..m])|, z);
  }

  lemma WrapSub(x: nat, y: nat, z: nat)
    ensures ((x % WORD + (y + z)) % WORD - (x % WORD + y) % WORD) % WORD == z % WORD
  {
  }

  lemma WrapAdd(x: nat, y: nat, z: nat)
    ensures ((x % WORD + y) % WORD + z % WORD) % WORD == ((x + z) % WORD + y) % WORD
  {
  }

  /** The address kept by the scan before run number i, with l consumed up to n. */
  function KeptAddr(addr: u64, l: seq<Instr>, runs: seq<Run>, asWritten: bool, n: nat, i: nat): u64
    requires InBounds(l, runs) && i <= |runs| && n <= |l|
  {
    AddrAt((addr + if asWritten then Drift(l, runs, i) else 0) % WORD, l, n)
  }

  lemma KeptStep(addr: u64, l: seq<Instr>, runs: seq<Run>, asWritten: bool, m: nat, i: nat)
    requires InBounds(l, runs) && i < |runs| && m <= |l|
    ensures var s := SetFor(addr, l, runs, i, asWritten);
      var o := KeptAddr(addr, l, runs, asWritten, m, i);
      KeptAddr(addr, l, runs, asWritten, m, i + 1)
        == if asWritten then Add(o, Sub(s.end, s.start)) else o
  {
    hide Flat, AddrAt;
    if asWritten {
      SetForAt(addr, l, runs, i, true);
      DriftAdds(addr, Drift(l, runs, i), l, runs[i], m, SetFor(addr, l, runs, i, true));
    }
  }

  /** Where the search for epilogues stands: run number i comes next, and epis holds the sets
      recorded for the runs before it. */
  ghost predicate Searching(addr: u64, l: seq<Instr>, runs: seq<Run>, pro: seq<Instr>, asWritten: bool,
                            n: nat, i: nat, hits: seq<nat>, epis: seq<InstrSet>)
    requires InBounds(l, runs) && n <= |l|
  {
    && i <= |runs| && Runs(l, n, InEpilogue) == runs[i..]
    && (forall k :: 0 <= k < |hits| ==> hits[k] < i)
    && hits + Hits(l, runs, i, pro) == Hits(l, runs, 0, pro)
    && epis == Record(addr, l, runs, hits, asWritten)
  }

  /** The next candidate is the next run. */
  lemma NextRun(l: seq<Instr>, runs: seq<Run>, n: nat, i: nat)
    requires InBounds(l, runs) && n <= |l| && i <= |runs| && Runs(l, n, InEpilogue) == runs[i..]
    ensures var a := SkipTo(l, n, InEpilogue);
      var b := RunEnd(l, a, InEpilogue);
      if a == |l| then b == |l| && i == |runs|
      else (i < |runs| && runs[i] == Run(a, b) && Runs(l, PastRun(l, b), InEpilogue) == runs[i + 1..])
  {
    hide SkipTo, RunEnd;
    if i < |runs| {
      assert runs[i..][0] == runs[i] && runs[i..][1..] == runs[i + 1..];
    }
  }

  lemma RecordOne(addr: u64, l: seq<Instr>, runs: seq<Run>, hits: seq<nat>, i: nat, asWritten: bool)
    requires InBounds(l, runs) && i < |runs| && forall k :: 0 <= k < |hits| ==> hits[k] < |runs|
    ensures Record(addr, l, runs, hits + [i], asWritten)
         == Record(addr, l, runs, hits, asWritten) + [SetFor(addr, l, runs, i, asWritten)]
  {
    hide SetFor;
    assert (hits + [i])[..|hits|] == hits;
  }

  /** One candidate handled: recorded if it mirrors the prologue. */
  lemma SearchStep(addr: u64, l: seq<Instr>, runs: seq<Run>, pro: seq<Instr>, asWritten: bool,
                   n: nat, i: nat, hits: seq<nat>, epis: seq<InstrSet>, m: nat)
    requires InBounds(l, runs) && n <= |l| && i < |runs| && m <= |l|
    requires Searching(addr, l, runs, pro, asWritten, n, i, hits, epis)
    requires Runs(l, m, InEpilogue) == runs[i + 1..]
    ensures var s := SetFor(addr, l, runs, i, asWritten);
      if Mirrors(pro, l[runs[i].lo..runs[i].hi]) then
        Searching(addr, l, runs, pro, asWritten, m, i + 1, hits + [i], epis + [s])
      else
        Searching(addr, l, runs, pro, asWritten, m, i + 1, hits, epis)
  {
    hide Flat, SetFor, Runs, Mirrors, Record;
    if Mirrors(pro, l[runs[i].lo..runs[i].hi]) {
      assert hits + [i] + Hits(l, runs, i + 1, pro) == hits + Hits(l, runs, i, pro);
      RecordOne(addr, l, runs, hits, i, asWritten);
    }
  }

  lemma SetForAt(addr: u64, l: seq<Instr>, runs: seq<Run>, i: nat, asWritten: bool)
    requires InBounds(l, runs) && i < |runs|
    ensures SetFor(addr, l, runs, i, asWritten)
         == SetAt((addr + if asWritten then Drift(l, runs, i) else 0) % WORD, l, runs[i].lo, runs[i].hi)
    ensures SetFor(addr, l, runs, i, asWritten).instrs == l[runs[i].lo..runs[i].hi]
  {
    hide Flat, AddrAt, Drift;
  }

  lemma SearchStart(addr: u64, l: seq<Instr>, n: nat, pro: seq<Instr>, asWritten: bool)
    requires n <= |l|
    ensures var runs := Runs(l, n, InEpilogue);
      && Searching(addr, l, runs, pro, asWritten, n, 0, [], [])
      && KeptAddr(addr, l, runs, asWritten, n, 0) == AddrAt(addr, l, n)
  {
    hide Flat, AddrAt, Runs;
    var runs := Runs(l, n, InEpilogue);
    assert runs[0..] == runs;
    assert [] + Hits(l, runs, 0, pro) == Hits(l, runs, 0, pro);
  }

  /** When the scan has reached the end everything decoded and no run is left. */
  lemma SearchEnd(isa: Isa, buf: seq<byte>, end: int, from: nat, l: seq<Instr>, ok: bool, k: nat, walk: nat,
                  addr: u64, runs: seq<Run>, pro: seq<Instr>, asWritten: bool, i: nat,
                  hits: seq<nat>, epis: seq<InstrSet>)
    requires Lawful(isa) && Reached(isa, buf, end, from, l, ok, k, walk) && walk >= end
    requires InBounds(l, runs) && Searching(addr, l, runs, pro, asWritten, k, i, hits, epis)
    ensures ok && walk == from + |Flat(l)|
    ensures epis == Record(addr, l, runs, Hits(l, runs, 0, pro), asWritten)
  {
    hide Flat, Record;
    assert |l[k..]| == 0;
    assert l[..k] == l;
    assert runs[i..] == [];
    assert hits + [] == hits;
  }

  /** The set that next_set delivered for the candidate at hand. */
  lemma CandidateSet(addr: u64, l: seq<Instr>, runs: seq<Run>, asWritten: bool, k: nat, i: nat,
                     kept: u64, s: InstrSet)
    requires InBounds(l, runs) && k <= |l| && i <= |runs| && Runs(l, k, InEpilogue) == runs[i..]
    requires var o := (addr + if asWritten then Drift(l, runs, i) else 0) % WORD;
      var b := RunEnd(l, SkipTo(l, k, InEpilogue), InEpilogue);
      && s == SetAt(o, l, SkipTo(l, k, InEpilogue), b)
      && kept == AddrAt(o, l, PastRun(l, b))
    ensures var a := SkipTo(l, k, InEpilogue);
      var m := PastRun(l, RunEnd(l, a, InEpilogue));
      && kept == KeptAddr(addr, l, runs, asWritten, m, i)
      && (a == |l| ==> m == |l| && i == |runs| && s.instrs == [] && Add(kept, Sub(s.end, s.start)) == kept)
      && (a < |l| ==> i < |runs| && Runs(l, m, InEpilogue) == runs[i + 1..])
      && (a < |l| ==> s == SetFor(addr, l, runs, i, asWritten) && s.instrs == l[runs[i].lo..runs[i].hi] != [])
    ensures forall j :: 0 <= j < |s.instrs| ==> s.instrs[j].kind.Pop?
  {
    hide Flat, SkipTo, RunEnd, AddrAt, Drift, Runs;
    NextRun(l, runs, k, i);
    var a := SkipTo(l, k, InEpilogue);
    if a < |l| {
      SetForAt(addr, l, runs, i, asWritten);
    }
  }

  /** next_set consumes at least one instruction when it does not fail. */
  lemma Progress(isa: Isa, buf: seq<byte>, end: int, from: nat, l: seq<Instr>, ok: bool,
                 k: nat, walk: nat, test: Instr -> bool, m: nat, walk': nat)
    requires Lawful(isa) && Reached(isa, buf, end, from, l, ok, k, walk) && walk < end
    requires m == PastRun(l, RunEnd(l, SkipTo(l, k, test), test))
    requires !(RunEnd(l, SkipTo(l, k, test), test) == |l| && !ok)
    requires Reached(isa, buf, end, from, l, ok, m, walk')
    ensures walk < walk' <= |buf|
  {
    hide SkipTo, RunEnd, Flat;
    assert k < |l| by {
      assert |l[k..]| > 0 || !ok;
    }
    hide Sweep;
    assert Sweep(isa, buf, walk, end).instrs == l[k..];
    FlatParts(l, k, m);
    var part := l[k..m];
    assert AllKnown(isa, part) by {
      assert forall j :: 0 <= j < |part| ==> part[j] == l[k..][j];
    }
    FlatNonEmpty(isa, part);
  }

  /** The search goes on past a candidate. */
  lemma SearchOn(addr: u64, l: seq<Instr>, runs: seq<Run>, pro: seq<Instr>, asWritten: bool,
                 k: nat, i: nat, hits: seq<nat>, epis: seq<InstrSet>, kept: u64, s: InstrSet)
    returns (i': nat, hits': seq<nat>)
    requires InBounds(l, runs) && k <= |l| && i <= |runs| && |pro| >= 2
    requires Searching(addr, l, runs, pro, asWritten, k, i, hits, epis)
    requires var o := (addr + if asWritten then Drift(l, runs, i) else 0) % WORD;
      var b := RunEnd(l, SkipTo(l, k, InEpilogue), InEpilogue);
      && s == SetAt(o, l, SkipTo(l, k, InEpilogue), b)
      && kept == AddrAt(o, l, PastRun(l, b))
    ensures var m := PastRun(l, RunEnd(l, SkipTo(l, k, InEpilogue), InEpilogue));
      && i' <= |runs|
      && KeptAddr(addr, l, runs, asWritten, m, i') == (if asWritten then Add(kept, Sub(s.end, s.start)) else kept)
      && Searching(addr, l, runs, pro, asWritten, m, i', hits',
                   if Mirrors(pro, s.instrs) then epis + [s] else epis)
    ensures forall j :: 0 <= j < |s.instrs| ==> s.instrs[j].kind.Pop?
  {
    hide Flat, SkipTo, RunEnd, AddrAt, SetAt, SetFor, Drift, Runs, Hits, Record, KeptAddr;
    CandidateSet(addr, l, runs, asWritten, k, i, kept, s);
    var a := SkipTo(l, k, InEpilogue);
    var m := PastRun(l, RunEnd(l, a, InEpilogue));
    if a == |l| {
      i', hits' := i, hits;
      NoRun(addr, l, runs, pro, asWritten, k, i, hits, epis);
    } else {
      i', hits' := i + 1, if Mirrors(pro, s.instrs) then hits + [i] else hits;
      SearchStep(addr, l, runs, pro, asWritten, k, i, hits, epis, m);
      KeptStep(addr, l, runs, asWritten, m, i);
    }
  }

  lemma NoRun(addr: u64, l: seq<Instr>, runs: seq<Run>, pro: seq<Instr>, asWritten: bool,
              n: nat, i: nat, hits: seq<nat>, epis: seq<InstrSet>)
    requires InBounds(l, runs) && n <= |l| && i == |runs|
    requires Searching(addr, l, runs, pro, asWritten, n, i, hits, epis)
    ensures Searching(addr, l, runs, pro, asWritten, |l|, i, hits, epis)
  {
    assert runs[i..] == [];
  }

  lemma ReachedBounds(isa: Isa, buf: seq<byte>, end: int, from: nat, l: seq<Instr>, ok: bool, n: nat, walk: nat)
    requires Lawful(isa) && Reached(isa, buf, end, from, l, ok, n, walk)
    ensures n <= |l| && walk <= |buf| && Sweep(isa, buf, walk, end) == Swept(l[n..], ok)
  {
  }

  lemma KeptIs(addr: u64, l: seq<Instr>, runs: seq<Run>, asWritten: bool, k: nat, i: nat)
    requires InBounds(l, runs) && i <= |runs| && k <= |l|
    ensures KeptAddr(addr, l, runs, asWritten, k, i)
         == AddrAt((addr + if asWritten then Drift(l, runs, i) else 0) % WORD, l, k)
  {
  }

  /** The loop of src/transform.c:362-388. It fails exactly when bytes before the end of the
      function do not decode. */
  method FindEpilogues(isa: Isa, buf: seq<byte>, walk: nat, end: int, orig: u64, pro: seq<Instr>, asWritten: bool,
                       ghost addr: u64, ghost from: nat, ghost l: seq<Instr>, ghost ok: bool, ghost n: nat)
    returns (rc: Rc, walk': nat, epis: seq<InstrSet>)
    requires Lawful(isa) && Reached(isa, buf, end, from, l, ok, n, walk) && orig == AddrAt(addr, l, n)
    requires |pro| >= 2 && forall k :: 0 <= k < |pro| ==> pro[k].kind.Push?
    ensures rc == if ok then Success else ETransform
    ensures rc == Success ==>
      var runs := Runs(l, n, InEpilogue);
      && walk' == from + |Flat(l)| && walk' >= end
      && epis == Record(addr, l, runs, Hits(l, runs, 0, pro), asWritten)
  {
    hide Flat, Sweep, SkipTo, RunEnd, Runs, Hits, Record, Drift, AddrAt, SetAt, Delivered, Mirrors, Reached,
         Searching, KeptAddr;
    ReachedBounds(isa, buf, end, from, l, ok, n, walk);
    ghost var runs := Runs(l, n, InEpilogue);
    ghost var k: nat, i: nat, hits: seq<nat> := n, 0, [];
    var kept := orig;
    walk', epis := walk, [];
    SearchStart(addr, l, n, pro, asWritten);
    while walk' < end
      invariant k <= |l| && Reached(isa, buf, end, from, l, ok, k, walk') && walk' <= |buf|
      invariant i <= |runs| && kept == KeptAddr(addr, l, runs, asWritten, k, i)
      invariant Searching(addr, l, runs, pro, asWritten, k, i, hits, epis)
      decreases |buf| - walk'
    {
      ghost var walk0, kept0 := walk', kept;
      ghost var o := (addr + if asWritten then Drift(l, runs, i) else 0) % WORD;
      ghost var m := PastRun(l, RunEnd(l, SkipTo(l, k, InEpilogue), InEpilogue));
      KeptIs(addr, l, runs, asWritten, k, i);
      ReachedBounds(isa, buf, end, from, l, ok, k, walk');
      var set_;
      rc, walk', kept, set_ := NextSet(isa, buf, walk', end, kept, InEpilogue);
      FailsFrom(l, ok, k, InEpilogue);
      if rc != Success {
        return;
      }
      NextFrom(isa, buf, end, from, l, ok, k, walk0, o, InEpilogue, walk', kept, set_);
      Progress(isa, buf, end, from, l, ok, k, walk0, InEpilogue, m, walk');
      i, hits := SearchOn(addr, l, runs, pro, asWritten, k, i, hits, epis, kept, set_);
      k := m;
      if asWritten {
        kept := Add(kept, Sub(set_.end, set_.start));
      }
      var mirrors := IsEpilogue(pro, set_.instrs);
      if mirrors {
        epis := epis + [set_];
      }
    }
    SearchEnd(isa, buf, end, from, l, ok, k, walk', addr, runs, pro, asWritten, i, hits, epis);
    rc := Success;
  }

  lemma PrologueFound(isa: Isa, buf: seq<byte>, end: int, from: nat, addr: u64, r: Swept,
                      walk: nat, orig: u64, pro: InstrSet)
    requires Lawful(isa) && from <= |buf| && r == Sweep(isa, buf, from, end)
    requires Delivered(isa, buf, end, from, addr, r, InPrologue, walk, orig, pro)
    ensures var l := r.instrs;
      var p := PrologueRun(l);
      && pro == SetAt(addr, l, p.lo, p.hi) && pro.instrs == l[p.lo..p.hi]
      && Reached(isa, buf, end, from, l, r.ok, AfterPrologue(l), walk)
      && orig == AddrAt(addr, l, AfterPrologue(l))
      && forall k :: 0 <= k < |pro.instrs| ==> InPrologue(pro.instrs[k])
  {
    hide Sweep, Flat, SkipTo, RunEnd, AddrAt;
  }

  /** The scan of transform_add_function: the prologue first, then the epilogues; every failure
      rejects the function. */
  method ScanFunction(isa: Isa, buf: seq<byte>, bytes: nat, end: int, addr: u64, asWritten: bool)
    returns (found: Found)
    requires Lawful(isa) && bytes <= |buf|
    ensures found == Analyze(isa, buf, bytes, end, addr, asWritten)
  {
    hide Sweep, Flat, Runs, Hits, SkipTo, RunEnd, Record, Delivered, Mirrors, SetAt, AddrAt, Reached;
    ghost var r := Sweep(isa, buf, bytes, end);
    ghost var l := r.instrs;
    var rc, walk, orig, pro := NextSet(isa, buf, bytes, end, addr, InPrologue);
    if rc != Success {
      return Rejected;
    }
    PrologueFound(isa, buf, end, bytes, addr, r, walk, orig, pro);
    if |pro.instrs| < 2 {
      return Rejected;
    }
    var epis;
    rc, walk, epis := FindEpilogues(isa, buf, walk, end, orig, pro.instrs, asWritten,
                                    addr, bytes, l, r.ok, AfterPrologue(l));
    if rc != Success {
      return Rejected;
    }
    if walk != end || |epis| == 0 {
      return Rejected;
    }
    found := Accepted(pro, epis);
  }
}
