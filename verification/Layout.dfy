/** Where the recorded sets lie: in the function's bytes, in address order, holding the bytes of
    their instructions. This is what the scan is for; as written it is achieved only sometimes. */
module Layout {
  import opened Words
  import opened Instrs
  import opened Scan
  import opened Analysis

  /** An accepted function. */
  datatype Fn = Fn(addr: u64, len: u64, prologue: InstrSet, epilogues: seq<InstrSet>) {
    /** The prologue first, then the epilogues. */
    function Sets(): seq<InstrSet> {
      [prologue] + epilogues
    }

    function Slots(): nat {
      |prologue.instrs|
    }
  }

  /** What every accepted function has, wherever its sets are recorded. */
  ghost predicate Shaped(isa: Isa, fn: Fn) {
    && fn.Slots() >= 2
    && fn.epilogues != []
    && (forall k :: 0 <= k < fn.Slots() ==> InPrologue(fn.prologue.instrs[k]))
    && (forall j :: 0 <= j < |fn.epilogues| ==> Mirrors(fn.prologue.instrs, fn.epilogues[j].instrs))
    && (forall j :: 0 <= j < |fn.Sets()| ==> SetShaped(isa, fn.Sets()[j]))
  }

  ghost predicate SetShaped(isa: Isa, s: InstrSet) {
    AllKnown(isa, s.instrs) && s.end == (s.start + |Flat(s.instrs)|) % WORD
  }

  /** The set lies in the function at index at of buf, where its instructions are. */
  ghost predicate InPlace(buf: seq<byte>, at: nat, fn: Fn, s: InstrSet) {
    && fn.addr <= s.start && s.start + |Flat(s.instrs)| == s.end <= fn.addr + fn.len
    && at + fn.len <= |buf|
    && buf[at + (s.start - fn.addr)..at + (s.end - fn.addr)] == Flat(s.instrs)
  }

  ghost predicate Placed(buf: seq<byte>, at: nat, fn: Fn) {
    && fn.addr + fn.len < WORD
    && at + fn.len <= |buf|
    && (forall j :: 0 <= j < |fn.Sets()| ==> InPlace(buf, at, fn, fn.Sets()[j]))
    && (forall i, j :: 0 <= i < j < |fn.Sets()| ==> fn.Sets()[i].end <= fn.Sets()[j].start)
  }

  lemma FlatMonotone(l: seq<Instr>, a: nat, b: nat)
    requires a <= b <= |l|
    ensures |Flat(l[..a])| + |Flat(l[a..b])| == |Flat(l[..b])| <= |Flat(l)|
  {
    FlatParts(l, a, b);
  }

  lemma MiddlePart<T>(x: seq<T>, y: seq<T>, z: seq<T>)
    ensures (x + y + z)[|x|..|x| + |y|] == y
  {
  }

  lemma SubSlice<T>(s: seq<T>, f: nat, m: nat, a: nat, b: nat)
    requires a <= b <= m && f + m <= |s|
    ensures s[f + a..f + b] == s[f..f + m][a..b]
  {
    var u, v := s[f + a..f + b], s[f..f + m][a..b];
    forall k | 0 <= k < |u|
      ensures u[k] == v[k]
    {
      assert s[f..f + m][a + k] == s[f + a + k];
    }
  }

  lemma PlainAddr(addr: u64, l: seq<Instr>, k: nat)
    requires k <= |l| && addr + |Flat(l[..k])| < WORD
    ensures AddrAt(addr, l, k) == addr + |Flat(l[..k])|
  {
    hide Flat;
  }

  /** Without drift a set is recorded where its bytes are. */
  lemma SetInPlace(buf: seq<byte>, from: nat, l: seq<Instr>, fn: Fn, lo: nat, hi: nat)
    requires from + |Flat(l)| <= |buf| && buf[from..from + |Flat(l)|] == Flat(l)
    requires fn.len == |Flat(l)| && fn.addr + fn.len < WORD && lo <= hi <= |l|
    ensures InPlace(buf, from, fn, SetAt(fn.addr, l, lo, hi))
    ensures SetAt(fn.addr, l, lo, hi).start == fn.addr + |Flat(l[..lo])|
    ensures SetAt(fn.addr, l, lo, hi).end == fn.addr + |Flat(l[..hi])|
  {
    hide Flat, AddrAt;
    FlatMonotone(l, lo, hi);
    FlatMonotone(l, hi, |l|);
    FlatParts(l, lo, hi);
    PlainAddr(fn.addr, l, lo);
    PlainAddr(fn.addr, l, hi);
    assert l[..|l|] == l;
    var a, b := |Flat(l[..lo])|, |Flat(l[..hi])|;
    SubSlice(buf, from, |Flat(l)|, a, b);
    MiddlePart(Flat(l[..lo]), Flat(l[lo..hi]), Flat(l[hi..]));
  }

  ghost predicate Ascending(runs: seq<Run>) {
    forall i, j :: 0 <= i < j < |runs| ==> runs[i].hi < runs[j].lo
  }

  /** What the runs of a function give the search for epilogues. */
  ghost predicate Searched(l: seq<Instr>, runs: seq<Run>) {
    && InBounds(l, runs) && Ascending(runs)
    && (forall j :: 0 <= j < |runs| ==> PrologueRun(l).hi <= runs[j].lo)
  }

  function EpilogueRuns(l: seq<Instr>): (runs: seq<Run>) {
    Runs(l, AfterPrologue(l), InEpilogue)
  }

  lemma RunsSearched(l: seq<Instr>)
    ensures Searched(l, EpilogueRuns(l))
  {
    var runs := EpilogueRuns(l);
    forall i, j | 0 <= i < j < |runs|
      ensures runs[i].hi < runs[j].lo
    {
      RunsInOrder(l, AfterPrologue(l), InEpilogue, i, j);
    }
  }

  /** The runs of a function that are recorded. */
  function EpilogueHits(l: seq<Instr>): (hs: seq<nat>) {
    var p := PrologueRun(l);
    Hits(l, EpilogueRuns(l), 0, l[p.lo..p.hi])
  }

  /** Drift counts whole runs: it is positive after the first run and stays below the length of
      the function. */
  lemma {:induction false} DriftBounds(isa: Isa, l: seq<Instr>, runs: seq<Run>, i: nat)
    requires AllKnown(isa, l) && InBounds(l, runs) && Ascending(runs) && i <= |runs|
    ensures i > 0 ==> 0 < Drift(l, runs, i) <= |Flat(l[..runs[i - 1].hi])| <= |Flat(l)|
  {
    if i > 0 {
      hide Flat;
      var r := runs[i - 1];
      DriftBounds(isa, l, runs, i - 1);
      FlatMonotone(l, r.lo, r.hi);
      FlatMonotone(l, r.hi, |l|);
      FlatNonEmpty(isa, l[r.lo..r.hi]);
      if i > 1 {
        FlatMonotone(l, runs[i - 2].hi, r.lo);
      }
    }
  }

  /** A run that is not the first is recorded at a wrong address as the code is written. */
  lemma DriftsAway(isa: Isa, addr: u64, l: seq<Instr>, runs: seq<Run>, i: nat)
    requires AllKnown(isa, l) && InBounds(l, runs) && Ascending(runs) && i < |runs|
    requires |Flat(l)| < WORD
    ensures SetFor(addr, l, runs, i, true) == SetFor(addr, l, runs, i, false) <==> i == 0
  {
    hide Flat, Drift, SetFor, AddrAt;
    var off, d := |Flat(l[..runs[i].lo])|, Drift(l, runs, i);
    StartOf(addr, l, runs, i, true);
    StartOf(addr, l, runs, i, false);
    if i > 0 {
      DriftBounds(isa, l, runs, i);
      WrapDiffers(addr, off, d);
    } else {
      NoDriftYet(addr, l, runs);
    }
  }

  lemma StartOf(addr: u64, l: seq<Instr>, runs: seq<Run>, i: nat, asWritten: bool)
    requires InBounds(l, runs) && i < |runs|
    ensures SetFor(addr, l, runs, i, asWritten).start
         == ((addr + if asWritten then Drift(l, runs, i) else 0) % WORD + |Flat(l[..runs[i].lo])|) % WORD
  {
  }

  lemma NoDriftYet(addr: u64, l: seq<Instr>, runs: seq<Run>)
    requires InBounds(l, runs) && runs != []
    ensures SetFor(addr, l, runs, 0, true) == SetFor(addr, l, runs, 0, false)
  {
  }

  lemma WrapDiffers(addr: u64, off: nat, d: nat)
    requires 0 < d < WORD
    ensures ((addr + d) % WORD + off) % WORD != (addr % WORD + off) % WORD
  {
  }

  /** The instructions l are what the bytes decode to, all of them. */
  ghost predicate Decodes(isa: Isa, bytes: seq<byte>, l: seq<Instr>) {
    AllKnown(isa, l) && Flat(l) == bytes
  }

  /** p is the first run of pushes of registers other than rbp, which is register 5. */
  ghost predicate FirstRun(l: seq<Instr>, p: Run) {
    && p.lo < p.hi <= |l|
    && (forall j :: p.lo <= j < p.hi ==> l[j].kind.Push? && l[j].kind.reg != 5)
    && (forall j :: 0 <= j < p.lo ==> !(l[j].kind.Push? && l[j].kind.reg != 5))
    && (p.hi < |l| ==> !(l[p.hi].kind.Push? && l[p.hi].kind.reg != 5))
  }

  /** Behind the instruction that ends p, e is a run of pops of registers other than rbp that cannot be
      made longer on either side, and p pushes these registers in the opposite order. */
  ghost predicate Undoes(l: seq<Instr>, p: Run, e: Run) {
    && p.lo <= p.hi < e.lo < e.hi <= |l| && e.hi - e.lo == p.hi - p.lo
    && (forall j :: e.lo <= j < e.hi ==> l[j].kind.Pop? && l[j].kind.reg != 5)
    && (e.lo > p.hi + 1 ==> !(l[e.lo - 1].kind.Pop? && l[e.lo - 1].kind.reg != 5))
    && (e.hi < |l| ==> !(l[e.hi].kind.Pop? && l[e.hi].kind.reg != 5))
    && (forall j :: e.lo <= j < e.hi ==> l[p.hi - 1 - (j - e.lo)].kind == Push(l[j].kind.reg))
  }

  ghost predicate Permutable(l: seq<Instr>) {
    exists p, e :: FirstRun(l, p) && p.hi - p.lo >= 2 && Undoes(l, p, e)
  }

  lemma FirstRunIs(l: seq<Instr>, p: Run)
    ensures FirstRun(l, p) <==>
      Maximal(l, 0, InPrologue, p) && forall j :: 0 <= j < p.lo ==> !Passes(l, InPrologue, j)
  {
    if Maximal(l, 0, InPrologue, p) && forall j :: 0 <= j < p.lo ==> !Passes(l, InPrologue, j) {
      forall j | 0 <= j < p.hi
        ensures if j < p.lo then !InPrologue(l[j]) else InPrologue(l[j])
      {
        assert Passes(l, InPrologue, j) == InPrologue(l[j]);
      }
    }
  }

  lemma UndoesIs(l: seq<Instr>, p: Run, e: Run)
    requires p.lo <= p.hi <= |l|
    ensures Undoes(l, p, e) <==>
      Maximal(l, PastRun(l, p.hi), InEpilogue, e) && Mirrors(l[p.lo..p.hi], l[e.lo..e.hi])
  {
    hide Mirrors;
    if Undoes(l, p, e) {
      MirrorsHere(l, p, e);
    }
    if Maximal(l, PastRun(l, p.hi), InEpilogue, e) && Mirrors(l[p.lo..p.hi], l[e.lo..e.hi]) {
      PassesPops(l, e);
      MirrorsThere(l, p, e);
    }
  }

  lemma PassesPops(l: seq<Instr>, e: Run)
    requires e.hi <= |l| && forall j :: e.lo <= j < e.hi ==> Passes(l, InEpilogue, j)
    ensures forall j :: e.lo <= j < e.hi ==> l[j].kind.Pop? && l[j].kind.reg != 5
  {
    forall j | e.lo <= j < e.hi
      ensures l[j].kind.Pop? && l[j].kind.reg != 5
    {
      assert Passes(l, InEpilogue, j);
    }
  }

  lemma MirrorsHere(l: seq<Instr>, p: Run, e: Run)
    requires p.lo <= p.hi <= |l| && e.lo <= e.hi <= |l| && e.hi - e.lo == p.hi - p.lo
    requires forall j :: e.lo <= j < e.hi ==>
      l[j].kind.Pop? && l[p.hi - 1 - (j - e.lo)].kind == Push(l[j].kind.reg)
    ensures Mirrors(l[p.lo..p.hi], l[e.lo..e.hi])
  {
    var pro, epi := l[p.lo..p.hi], l[e.lo..e.hi];
    forall k | 0 <= k < |pro|
      ensures epi[k].kind.Pop? && pro[|pro| - 1 - k].kind == Push(epi[k].kind.reg)
    {
      assert epi[k] == l[e.lo + k] && pro[|pro| - 1 - k] == l[p.hi - 1 - k];
    }
    forall k | 0 <= k < |pro|
      ensures pro[k].kind.Push?
    {
      assert epi[|pro| - 1 - k].kind.Pop? && pro[|pro| - 1 - (|pro| - 1 - k)] == pro[k];
    }
  }

  lemma MirrorsThere(l: seq<Instr>, p: Run, e: Run)
    requires p.lo <= p.hi <= |l| && e.lo <= e.hi <= |l| && Mirrors(l[p.lo..p.hi], l[e.lo..e.hi])
    ensures e.hi - e.lo == p.hi - p.lo
    ensures forall j :: e.lo <= j < e.hi ==>
      l[j].kind.Pop? && l[p.hi - 1 - (j - e.lo)].kind == Push(l[j].kind.reg)
  {
    var pro, epi := l[p.lo..p.hi], l[e.lo..e.hi];
    forall j | e.lo <= j < e.hi
      ensures l[j].kind.Pop? && l[p.hi - 1 - (j - e.lo)].kind == Push(l[j].kind.reg)
    {
      var k := j - e.lo;
      assert epi[k] == l[j] && pro[|pro| - 1 - k] == l[p.hi - 1 - k];
      assert RegOf(epi[k]) == RegOf(pro[|pro| - 1 - k]);
    }
  }

  /** The scanned prologue is the first run of pushes, if there is any. */
  lemma PrologueIsFirst(l: seq<Instr>, p: Run)
    ensures FirstRun(l, p) <==> p == PrologueRun(l) && p.lo < p.hi
  {
    var q := PrologueRun(l);
    assert q.lo < |l| ==> Passes(l, InPrologue, q.lo);
    FirstRunIs(l, p);
    hide FirstRun;
    if FirstRun(l, p) {
      assert Passes(l, InPrologue, p.lo);
      OneRunAt(l, 0, InPrologue, q, p);
      OneRunAt(l, 0, InPrologue, p, q);
    }
  }

  lemma HitsUndo(l: seq<Instr>)
    requires PrologueRun(l).lo < PrologueRun(l).hi
    ensures EpilogueHits(l) != [] <==> exists e :: Undoes(l, PrologueRun(l), e)
  {
    hide Runs, SkipTo, RunEnd, Mirrors, Undoes;
    var p, runs, hits := PrologueRun(l), EpilogueRuns(l), EpilogueHits(l);
    if hits != [] {
      assert hits[0] in hits;
      var e := runs[hits[0]];
      assert e in runs;
      UndoesIs(l, p, e);
      RunsAreMaximal(l, AfterPrologue(l), InEpilogue, e);
      assert Undoes(l, p, e);
    }
    if e :| Undoes(l, p, e) {
      UndoesIs(l, p, e);
      RunsAreMaximal(l, AfterPrologue(l), InEpilogue, e);
      var i :| 0 <= i < |runs| && runs[i] == e;
      assert i in hits;
    }
  }

  /** No run of pops but the first one behind the prologue undoes the prologue. */
  ghost predicate OnlyFirst(l: seq<Instr>) {
    forall p, e, i :: FirstRun(l, p) && Undoes(l, p, e) && p.hi < i < e.lo ==>
      !(l[i].kind.Pop? && l[i].kind.reg != 5)
  }

  /** The runs recorded are those that undo the prologue. */
  lemma UndoingRuns(l: seq<Instr>)
    requires EpilogueHits(l) != []
    ensures var p, runs := PrologueRun(l), EpilogueRuns(l);
      && FirstRun(l, p) && PastRun(l, p.hi) == AfterPrologue(l)
      && (forall k :: 0 <= k < |EpilogueHits(l)| ==> EpilogueHits(l)[k] < |runs|)
      && forall i :: 0 <= i < |runs| ==>
           (i in EpilogueHits(l) <==> Undoes(l, p, runs[i])) && Passes(l, InEpilogue, runs[i].lo)
  {
    hide Runs, SkipTo, RunEnd, Hits, Mirrors, Undoes, FirstRun;
    var p, runs, hits := PrologueRun(l), EpilogueRuns(l), EpilogueHits(l);
    assert hits[0] in hits && Mirrors(l[p.lo..p.hi], l[runs[hits[0]].lo..runs[hits[0]].hi]);
    SomePushes(l[p.lo..p.hi], l[runs[hits[0]].lo..runs[hits[0]].hi]);
    PrologueIsFirst(l, p);
    forall i | 0 <= i < |runs|
      ensures i in hits <==> Undoes(l, p, runs[i])
      ensures Passes(l, InEpilogue, runs[i].lo)
    {
      assert runs[i] in runs;
      UndoesIs(l, p, runs[i]);
      RunsAreMaximal(l, AfterPrologue(l), InEpilogue, runs[i]);
    }
  }

  lemma SomePushes(pro: seq<Instr>, epi: seq<Instr>)
    requires Mirrors(pro, epi) && epi != []
    ensures pro != []
  {
  }

  /** Only the first run is recorded if and only if no other undoes the prologue. */
  lemma OnlyFirstHits(l: seq<Instr>)
    requires EpilogueHits(l) != []
    ensures OnlyFirst(l) <==> EpilogueHits(l) == [0]
  {
    hide Runs, PrologueRun, AfterPrologue, EpilogueHits, Undoes, FirstRun;
    UndoingRuns(l);
    RunsSearched(l);
    var p, runs, hits := PrologueRun(l), EpilogueRuns(l), EpilogueHits(l);
    assert hits[0] < |runs| && Passes(l, InEpilogue, runs[0].lo);
    if OnlyFirst(l) {
      forall k | 0 <= k < |hits|
        ensures hits[k] == 0
      {
        assert hits[k] in hits && Undoes(l, p, runs[hits[k]]);
        assert l[runs[0].lo].kind.Pop? && l[runs[0].lo].kind.reg != 5;
        assert PastRun(l, p.hi) <= runs[0].lo;
      }
      HitsApart(l);
    }
    if hits == [0] {
      forall q, e, i | FirstRun(l, q) && Undoes(l, q, e) && q.hi < i < e.lo
        ensures i < |l| && !(l[i].kind.Pop? && l[i].kind.reg != 5)
      {
        UndoneByFirst(l, q, e);
        UndoesInside(l, q, e);
        NoneBeforeFirst(l, AfterPrologue(l), InEpilogue, i);
        assert !Passes(l, InEpilogue, i);
      }
    }
  }

  lemma HitsApart(l: seq<Instr>)
    ensures |EpilogueHits(l)| > 1 ==> EpilogueHits(l)[0] != EpilogueHits(l)[1]
  {
  }

  lemma UndoesInside(l: seq<Instr>, p: Run, e: Run)
    requires Undoes(l, p, e)
    ensures p.lo <= p.hi < e.lo < e.hi <= |l| && PastRun(l, p.hi) == p.hi + 1
  {
  }

  lemma UndoneByFirst(l: seq<Instr>, q: Run, e: Run)
    requires EpilogueHits(l) == [0] && FirstRun(l, q) && Undoes(l, q, e)
    ensures q == PrologueRun(l) && EpilogueRuns(l) != [] && e == EpilogueRuns(l)[0]
  {
    hide Runs, SkipTo, RunEnd, Hits, Mirrors, FirstRun, Undoes;
    PrologueIsFirst(l, q);
    UndoingRuns(l);
    UndoesIs(l, q, e);
    var runs := EpilogueRuns(l);
    RunsAreMaximal(l, AfterPrologue(l), InEpilogue, e);
    var m :| 0 <= m < |runs| && runs[m] == e;
    assert m in EpilogueHits(l);
  }

  lemma NoneBeforeFirst(l: seq<Instr>, k: nat, test: Instr -> bool, i: nat)
    requires k <= i < |l| && Runs(l, k, test) != [] && i < Runs(l, k, test)[0].lo
    ensures !Passes(l, test, i)
  {
  }

  /** The scan as written records the epilogues of an accepted function at their addresses if and
      only if no run of pops but the first one undoes the prologue. */
  lemma AsWrittenExactly(isa: Isa, addr: u64, l: seq<Instr>)
    requires AllKnown(isa, l) && |Flat(l)| < WORD && EpilogueHits(l) != []
    ensures Record(addr, l, EpilogueRuns(l), EpilogueHits(l), true)
         == Record(addr, l, EpilogueRuns(l), EpilogueHits(l), false)
       <==> OnlyFirst(l)
  {
    OnlyFirstHits(l);
    hide OnlyFirst, FirstRun, Undoes, PrologueRun;
    RunsSearched(l);
    var runs, hits := EpilogueRuns(l), EpilogueHits(l);
    var written, meant := Record(addr, l, runs, hits, true), Record(addr, l, runs, hits, false);
    forall k | 0 <= k < |hits|
      ensures written[k] == meant[k] <==> hits[k] == 0
    {
      DriftsAway(isa, addr, l, runs, hits[k]);
    }
    assert |hits| > 1 ==> hits[1] != 0;
    if written == meant {
      assert forall k :: 0 <= k < |hits| ==> written[k] == meant[k] && hits[k] == 0;
    }
  }

  function FnOf(addr: u64, len: u64, found: Found): Fn
    requires found.Accepted?
  {
    Fn(addr, len, found.prologue, found.epilogues)
  }

  /** An accepted function seen as its instructions l. */
  ghost predicate Reads(isa: Isa, buf: seq<byte>, from: nat, fn: Fn, l: seq<Instr>, asWritten: bool) {
    && AllKnown(isa, l) && |Flat(l)| == fn.len
    && from + fn.len <= |buf| && buf[from..from + fn.len] == Flat(l)
    && PrologueRun(l).hi - PrologueRun(l).lo >= 2 && EpilogueHits(l) != []
    && fn.prologue == SetAt(fn.addr, l, PrologueRun(l).lo, PrologueRun(l).hi)
    && fn.epilogues == Record(fn.addr, l, EpilogueRuns(l), EpilogueHits(l), asWritten)
  }

  lemma AcceptedReads(isa: Isa, buf: seq<byte>, from: nat, addr: u64, len: u64, asWritten: bool)
    requires Lawful(isa) && from <= |buf|
    requires Analyze(isa, buf, from, from + len, addr, asWritten).Accepted?
    ensures Reads(isa, buf, from, FnOf(addr, len, Analyze(isa, buf, from, from + len, addr, asWritten)),
                  Sweep(isa, buf, from, from + len).instrs, asWritten)
  {
    hide Flat, Sweep, Runs, Hits, SkipTo, RunEnd, Record;
    SweptBytes(isa, buf, from, from + len);
  }

  lemma SetAtShaped(isa: Isa, orig: u64, l: seq<Instr>, a: nat, b: nat)
    requires AllKnown(isa, l) && a <= b <= |l|
    ensures SetShaped(isa, SetAt(orig, l, a, b))
  {
    hide Flat;
    FlatMonotone(l, a, b);
    SumWraps(orig, |Flat(l[..a])|, |Flat(l[a..b])|);
    assert AllKnown(isa, l[a..b]);
  }

  lemma SumWraps(x: nat, y: nat, z: nat)
    ensures ((x + y) % WORD + z) % WORD == (x + (y + z)) % WORD
  {
  }

  /** The run that epilogue j was recorded for. */
  lemma EpilogueRun(isa: Isa, buf: seq<byte>, from: nat, fn: Fn, l: seq<Instr>, asWritten: bool, j: nat)
    returns (i: nat)
    requires Reads(isa, buf, from, fn, l, asWritten) && j < |fn.epilogues|
    ensures j < |EpilogueHits(l)| && i == EpilogueHits(l)[j] < |EpilogueRuns(l)|
    ensures fn.epilogues[j] == SetFor(fn.addr, l, EpilogueRuns(l), i, asWritten)
    ensures Mirrors(fn.prologue.instrs, fn.epilogues[j].instrs)
  {
    hide Flat, Runs, SkipTo, RunEnd, Drift;
    i := EpilogueHits(l)[j];
    assert i in EpilogueHits(l);
  }

  /** Every accepted function has the shape that permuting relies on. */
  lemma ReadsShaped(isa: Isa, buf: seq<byte>, from: nat, fn: Fn, l: seq<Instr>, asWritten: bool)
    requires Reads(isa, buf, from, fn, l, asWritten)
    ensures Shaped(isa, fn)
  {
    hide Flat, Runs, SkipTo, RunEnd, Hits, Record, Drift;
    var p := PrologueRun(l);
    SetAtShaped(isa, fn.addr, l, p.lo, p.hi);
    forall j | 0 <= j < |fn.epilogues|
      ensures Mirrors(fn.prologue.instrs, fn.epilogues[j].instrs) && SetShaped(isa, fn.epilogues[j])
    {
      var i := EpilogueRun(isa, buf, from, fn, l, asWritten, j);
      var r := EpilogueRuns(l)[i];
      var drift := if asWritten then Drift(l, EpilogueRuns(l), i) else 0;
      SetAtShaped(isa, (fn.addr + drift) % WORD, l, r.lo, r.hi);
    }
  }

  /** The instructions that set number j was recorded for. */
  function RunOf(l: seq<Instr>, j: nat): (r: Run)
    requires j <= |EpilogueHits(l)|
    ensures r.lo <= r.hi <= |l|
  {
    if j == 0 then PrologueRun(l) else EpilogueRuns(l)[EpilogueHits(l)[j - 1]]
  }

  lemma RunsApart(l: seq<Instr>, i: nat, j: nat)
    requires i < j <= |EpilogueHits(l)|
    ensures RunOf(l, i).hi <= RunOf(l, j).lo
  {
    hide Flat, Runs, SkipTo, RunEnd, Hits;
    RunsSearched(l);
    var runs, hits := EpilogueRuns(l), EpilogueHits(l);
    assert Searched(l, runs);
    if i > 0 {
      assert hits[i - 1] < hits[j - 1];
    }
  }

  /** Without drift before it, set number j is recorded for its run. */
  lemma SetRun(isa: Isa, buf: seq<byte>, from: nat, fn: Fn, l: seq<Instr>, asWritten: bool, j: nat)
    requires Reads(isa, buf, from, fn, l, asWritten) && j < |fn.Sets()|
    requires asWritten ==> OnlyFirst(l)
    ensures j <= |EpilogueHits(l)|
    ensures fn.Sets()[j] == SetAt(fn.addr, l, RunOf(l, j).lo, RunOf(l, j).hi)
  {
    hide Flat, Runs, SkipTo, RunEnd, Hits, Record, OnlyFirst;
    OnlyFirstHits(l);
    if j > 0 {
      var i := EpilogueRun(isa, buf, from, fn, l, asWritten, j - 1);
      assert asWritten ==> i == 0 && Drift(l, EpilogueRuns(l), i) == 0;
    }
  }

  /** The recorded sets of an accepted function are in place, in order and disjoint, when the
      scan does not drift or when it drifts only past the last recorded epilogue. */
  lemma ReadsPlaced(isa: Isa, buf: seq<byte>, from: nat, fn: Fn, l: seq<Instr>, asWritten: bool)
    requires Reads(isa, buf, from, fn, l, asWritten) && fn.addr + fn.len < WORD
    requires asWritten ==> OnlyFirst(l)
    ensures Placed(buf, from, fn)
  {
    hide Flat, Runs, SkipTo, RunEnd, Hits, Record, RunOf, SetAt, OnlyFirst;
    forall j | 0 <= j < |fn.Sets()|
      ensures InPlace(buf, from, fn, fn.Sets()[j])
    {
      SetRun(isa, buf, from, fn, l, asWritten, j);
      SetInPlace(buf, from, l, fn, RunOf(l, j).lo, RunOf(l, j).hi);
    }
    forall i, j | 0 <= i < j < |fn.Sets()|
      ensures fn.Sets()[i].end <= fn.Sets()[j].start
    {
      SetRun(isa, buf, from, fn, l, asWritten, i);
      SetRun(isa, buf, from, fn, l, asWritten, j);
      RunsApart(l, i, j);
      SetInPlace(buf, from, l, fn, RunOf(l, i).lo, RunOf(l, i).hi);
      SetInPlace(buf, from, l, fn, RunOf(l, j).lo, RunOf(l, j).hi);
      FlatMonotone(l[..RunOf(l, j).lo], RunOf(l, i).hi, RunOf(l, j).lo);
      assert l[..RunOf(l, j).lo][..RunOf(l, i).hi] == l[..RunOf(l, i).hi];
    }
  }

  /** Exactly the permutable functions are accepted: those whose bytes are, to the last one, a
      list of instructions in which some later maximal run of pops undoes the first maximal run of
      at least two pushes. */
  lemma AcceptedExactly(isa: Isa, buf: seq<byte>, from: nat, addr: u64, len: u64, asWritten: bool)
    requires Lawful(isa) && from + len <= |buf|
    ensures Analyze(isa, buf, from, from + len, addr, asWritten).Accepted?
      <==> exists l :: Decodes(isa, buf[from..from + len], l) && Permutable(l)
  {
    hide Flat, Analyze, Sweep, Permutable, Reads;
    if Analyze(isa, buf, from, from + len, addr, asWritten).Accepted? {
      AcceptedPermutable(isa, buf, from, addr, len, asWritten);
    }
    if l :| Decodes(isa, buf[from..from + len], l) && Permutable(l) {
      PermutableAccepted(isa, buf, from, addr, len, asWritten, l);
    }
  }

  lemma AcceptedPermutable(isa: Isa, buf: seq<byte>, from: nat, addr: u64, len: u64, asWritten: bool)
    requires Lawful(isa) && from + len <= |buf|
    requires Analyze(isa, buf, from, from + len, addr, asWritten).Accepted?
    ensures var l := Sweep(isa, buf, from, from + len).instrs;
      Decodes(isa, buf[from..from + len], l) && Permutable(l)
  {
    hide Flat, Sweep, Runs, SkipTo, RunEnd, Mirrors, Hits, Record, FirstRun, Undoes;
    var l := Sweep(isa, buf, from, from + len).instrs;
    SweptBytes(isa, buf, from, from + len);
    PrologueIsFirst(l, PrologueRun(l));
    HitsUndo(l);
  }

  lemma PermutableAccepted(isa: Isa, buf: seq<byte>, from: nat, addr: u64, len: u64, asWritten: bool, l: seq<Instr>)
    requires Lawful(isa) && from + len <= |buf|
    requires Decodes(isa, buf[from..from + len], l) && Permutable(l)
    ensures Analyze(isa, buf, from, from + len, addr, asWritten).Accepted?
  {
    hide Flat, Sweep, Runs, SkipTo, RunEnd, Hits, Record, Permutable, SetAt;
    SweepFlat(isa, buf, from, l);
    PermutableHits(l);
  }

  lemma PermutableHits(l: seq<Instr>)
    requires Permutable(l)
    ensures PrologueRun(l).hi - PrologueRun(l).lo >= 2 && EpilogueHits(l) != []
  {
    hide PrologueRun, EpilogueHits, Undoes, FirstRun;
    var p, e :| FirstRun(l, p) && p.hi - p.lo >= 2 && Undoes(l, p, e);
    PrologueIsFirst(l, p);
    HitsUndo(l);
  }

  /** The set holds the instructions of run r, between the addresses where they are. */
  ghost predicate IsSetOf(addr: u64, l: seq<Instr>, r: Run, x: InstrSet) {
    && r.lo <= r.hi <= |l| && x.instrs == l[r.lo..r.hi]
    && x.start == addr + |Flat(l[..r.lo])| && x.end == addr + |Flat(l[..r.hi])|
  }

  ghost predicate UndoesAndIs(addr: u64, l: seq<Instr>, p: Run, x: InstrSet) {
    exists e :: Undoes(l, p, e) && IsSetOf(addr, l, e, x)
  }

  ghost predicate OneIs(addr: u64, l: seq<Instr>, e: Run, sets: seq<InstrSet>) {
    exists k :: 0 <= k < |sets| && IsSetOf(addr, l, e, sets[k])
  }

  /** What is recorded of an accepted function: the first run of pushes, and exactly the later runs of
      pops that undo it, each where it is, in address order. */
  lemma RecordedExactly(isa: Isa, buf: seq<byte>, from: nat, addr: u64, len: u64, asWritten: bool, l: seq<Instr>)
    returns (p: Run)
    requires Lawful(isa) && from + len <= |buf| && addr + len < WORD
    requires Decodes(isa, buf[from..from + len], l) && (asWritten ==> OnlyFirst(l))
    requires Analyze(isa, buf, from, from + len, addr, asWritten).Accepted?
    ensures var found := Analyze(isa, buf, from, from + len, addr, asWritten);
      && FirstRun(l, p) && IsSetOf(addr, l, p, found.prologue)
      && (forall k :: 0 <= k < |found.epilogues| ==> UndoesAndIs(addr, l, p, found.epilogues[k]))
      && (forall e :: Undoes(l, p, e) ==> OneIs(addr, l, e, found.epilogues))
      && (forall i, j :: 0 <= i < j < |found.epilogues| ==> found.epilogues[i].end <= found.epilogues[j].start)
  {
    hide Flat, Sweep, Analyze, Reads, Undoes, FirstRun, OnlyFirst, IsSetOf, UndoesAndIs, OneIs, PrologueRun,
         Placed, EpilogueHits;
    SweepFlat(isa, buf, from, l);
    AcceptedReads(isa, buf, from, addr, len, asWritten);
    var found := Analyze(isa, buf, from, from + len, addr, asWritten);
    var fn := FnOf(addr, len, found);
    p := PrologueRun(l);
    ReadsHits(isa, buf, from, fn, l, asWritten);
    RunSetIs(isa, buf, from, fn, l, asWritten, 0);
    assert fn.Sets()[0] == found.prologue;
    forall k | 0 <= k < |found.epilogues|
      ensures UndoesAndIs(addr, l, p, found.epilogues[k])
    {
      EpilogueIsRun(isa, buf, from, fn, l, asWritten, k);
    }
    forall e | Undoes(l, p, e)
      ensures OneIs(addr, l, e, found.epilogues)
    {
      RunIsRecorded(isa, buf, from, fn, l, asWritten, e);
    }
    ReadsPlaced(isa, buf, from, fn, l, asWritten);
    EpiloguesAscend(buf, from, fn);
  }

  lemma EpiloguesAscend(buf: seq<byte>, from: nat, fn: Fn)
    requires Placed(buf, from, fn)
    ensures forall i, j :: 0 <= i < j < |fn.epilogues| ==> fn.epilogues[i].end <= fn.epilogues[j].start
  {
    forall i, j | 0 <= i < j < |fn.epilogues|
      ensures fn.epilogues[i].end <= fn.epilogues[j].start
    {
      assert fn.Sets()[i + 1] == fn.epilogues[i] && fn.Sets()[j + 1] == fn.epilogues[j];
    }
  }

  lemma EpilogueIsRun(isa: Isa, buf: seq<byte>, from: nat, fn: Fn, l: seq<Instr>, asWritten: bool, k: nat)
    requires Reads(isa, buf, from, fn, l, asWritten) && k < |fn.epilogues| && fn.addr + fn.len < WORD
    requires asWritten ==> OnlyFirst(l)
    ensures UndoesAndIs(fn.addr, l, PrologueRun(l), fn.epilogues[k])
  {
    hide Flat, Reads, Undoes, FirstRun, OnlyFirst, IsSetOf, EpilogueRuns, EpilogueHits, PrologueRun;
    ReadsHits(isa, buf, from, fn, l, asWritten);
    UndoingRuns(l);
    RunSetIs(isa, buf, from, fn, l, asWritten, k + 1);
    assert EpilogueHits(l)[k] in EpilogueHits(l);
    assert fn.Sets()[k + 1] == fn.epilogues[k];
  }

  lemma RunIsRecorded(isa: Isa, buf: seq<byte>, from: nat, fn: Fn, l: seq<Instr>, asWritten: bool, e: Run)
    requires Reads(isa, buf, from, fn, l, asWritten) && fn.addr + fn.len < WORD
    requires (asWritten ==> OnlyFirst(l)) && Undoes(l, PrologueRun(l), e)
    ensures OneIs(fn.addr, l, e, fn.epilogues)
  {
    hide Flat, Reads, Undoes, FirstRun, OnlyFirst, IsSetOf, EpilogueRuns, EpilogueHits, PrologueRun;
    ReadsHits(isa, buf, from, fn, l, asWritten);
    var k := HitOf(l, e);
    RunSetIs(isa, buf, from, fn, l, asWritten, k + 1);
    assert fn.Sets()[k + 1] == fn.epilogues[k];
  }

  lemma ReadsHits(isa: Isa, buf: seq<byte>, from: nat, fn: Fn, l: seq<Instr>, asWritten: bool)
    requires Reads(isa, buf, from, fn, l, asWritten)
    ensures EpilogueHits(l) != [] && |EpilogueHits(l)| == |fn.epilogues|
    ensures PrologueRun(l).lo < PrologueRun(l).hi && FirstRun(l, PrologueRun(l))
  {
    hide Flat, FirstRun, Record;
    PrologueIsFirst(l, PrologueRun(l));
  }

  /** A run that undoes the prologue is recorded. */
  lemma HitOf(l: seq<Instr>, e: Run) returns (k: nat)
    requires EpilogueHits(l) != [] && Undoes(l, PrologueRun(l), e)
    ensures k < |EpilogueHits(l)| && EpilogueHits(l)[k] < |EpilogueRuns(l)| && EpilogueRuns(l)[EpilogueHits(l)[k]] == e
  {
    hide Flat, Undoes, FirstRun, Runs, Hits, RunEnd, SkipTo;
    UndoingRuns(l);
    UndoesIs(l, PrologueRun(l), e);
    RunsAreMaximal(l, AfterPrologue(l), InEpilogue, e);
    var i :| 0 <= i < |EpilogueRuns(l)| && EpilogueRuns(l)[i] == e;
    k :| 0 <= k < |EpilogueHits(l)| && EpilogueHits(l)[k] == i;
  }

  lemma RunSetIs(isa: Isa, buf: seq<byte>, from: nat, fn: Fn, l: seq<Instr>, asWritten: bool, j: nat)
    requires Reads(isa, buf, from, fn, l, asWritten) && j < |fn.Sets()| && fn.addr + fn.len < WORD
    requires asWritten ==> OnlyFirst(l)
    ensures j <= |EpilogueHits(l)| && IsSetOf(fn.addr, l, RunOf(l, j), fn.Sets()[j])
  {
    hide Flat, OnlyFirst, RunOf, EpilogueHits;
    SetRun(isa, buf, from, fn, l, asWritten, j);
    SetInPlace(buf, from, l, fn, RunOf(l, j).lo, RunOf(l, j).hi);
  }

  /** No push or pop of rbp, register 5, is recorded. */
  lemma RbpNotRecorded(l: seq<Instr>, j: nat, i: nat)
    requires j <= |EpilogueHits(l)| && RunOf(l, j).lo <= i < RunOf(l, j).hi
    ensures l[i].kind != Push(5) && l[i].kind != Pop(5)
  {
    hide Runs, Hits, SkipTo, RunEnd;
    if j > 0 {
      var r := RunOf(l, j);
      HitsInside(l, j - 1);
      assert r in EpilogueRuns(l);
      RunsAreMaximal(l, AfterPrologue(l), InEpilogue, r);
      assert Passes(l, InEpilogue, i);
    }
  }

  lemma HitsInside(l: seq<Instr>, k: nat)
    requires k < |EpilogueHits(l)|
    ensures EpilogueHits(l)[k] < |EpilogueRuns(l)|
  {
    hide Runs, Mirrors;
  }

  /** d counts the bytes of the runs before each. */
  ghost predicate Counts(l: seq<Instr>, runs: seq<Run>, d: seq<nat>)
    requires InBounds(l, runs)
  {
    && |d| == |runs| + 1 && d[0] == 0
    && forall k :: 0 <= k < |runs| ==> d[k + 1] == d[k] + |Flat(l[runs[k].lo..runs[k].hi])|
  }

  /** As written, a run is recorded too far on by exactly the bytes of all earlier runs of pops, recorded
      or not: the address of its start has moved by as much, modulo 2^64. */
  lemma DriftExactly(addr: u64, l: seq<Instr>, runs: seq<Run>) returns (d: seq<nat>)
    requires InBounds(l, runs)
    ensures Counts(l, runs, d)
    ensures forall k :: 0 <= k < |runs| ==>
      && SetFor(addr, l, runs, k, true).instrs == l[runs[k].lo..runs[k].hi]
      && SetFor(addr, l, runs, k, true).start
         == (addr + d[k] + |Flat(l[..runs[k].lo])|) % 0x1_0000_0000_0000_0000
  {
    hide Flat, SetFor, Drift;
    d := seq(|runs| + 1, k requires 0 <= k <= |runs| => Drift(l, runs, k));
    assert d[0] == 0 by { DriftStart(l, runs); }
    forall k | 0 <= k < |runs|
      ensures d[k + 1] == d[k] + |Flat(l[runs[k].lo..runs[k].hi])|
      ensures SetFor(addr, l, runs, k, true).instrs == l[runs[k].lo..runs[k].hi]
      ensures SetFor(addr, l, runs, k, true).start
           == (addr + d[k] + |Flat(l[..runs[k].lo])|) % 0x1_0000_0000_0000_0000
    {
      DriftStep(l, runs, k);
      WrittenAt(addr, l, runs, k);
    }
  }

  lemma DriftStart(l: seq<Instr>, runs: seq<Run>)
    requires InBounds(l, runs)
    ensures Drift(l, runs, 0) == 0
  {
  }

  lemma DriftStep(l: seq<Instr>, runs: seq<Run>, k: nat)
    requires InBounds(l, runs) && k < |runs|
    ensures Drift(l, runs, k + 1) == Drift(l, runs, k) + |Flat(l[runs[k].lo..runs[k].hi])|
  {
    hide Flat;
  }

  lemma WrittenAt(addr: u64, l: seq<Instr>, runs: seq<Run>, k: nat)
    requires InBounds(l, runs) && k < |runs|
    ensures SetFor(addr, l, runs, k, true).instrs == l[runs[k].lo..runs[k].hi]
    ensures SetFor(addr, l, runs, k, true).start == (addr + Drift(l, runs, k) + |Flat(l[..runs[k].lo])|) % WORD
  {
    hide Flat, Drift;
    StartOf(addr, l, runs, k, true);
    SumWraps(addr, Drift(l, runs, k), |Flat(l[..runs[k].lo])|);
  }
}
