/** What transform_add_function finds in a function, as a function of its instructions. */
module Analysis {
  import opened Words
  import opened Instrs
  import opened Scan

  /** A range of instruction positions. */
  datatype Run = Run(lo: nat, hi: nat)

  /** The runs that repeated calls of next_set deliver from position k on. */
  function Runs(l: seq<Instr>, k: nat, test: Instr -> bool): (rs: seq<Run>)
    requires k <= |l|
    ensures forall j :: 0 <= j < |rs| ==> k <= rs[j].lo < rs[j].hi <= |l|
    decreases |l| - k
  {
    var a := SkipTo(l, k, test);
    if a == |l| then []
    else
      var b := RunEnd(l, a, test);
      [Run(a, b)] + Runs(l, PastRun(l, b), test)
  }

  predicate Passes(l: seq<Instr>, test: Instr -> bool, j: int) {
    0 <= j < |l| && test(l[j])
  }

  /** A non-empty run of accepted instructions that cannot be made longer on either side,
      in the instructions from position k on. */
  ghost predicate Maximal(l: seq<Instr>, k: nat, test: Instr -> bool, r: Run) {
    && k <= r.lo < r.hi <= |l|
    && (forall j :: r.lo <= j < r.hi ==> Passes(l, test, j))
    && (r.lo == k || !Passes(l, test, r.lo - 1))
    && !Passes(l, test, r.hi)
  }

  /** next_set consumes the instruction that ends each run, and still no run is missed or cut:
      the runs delivered are exactly the maximal ones. */
  lemma {:induction false} RunsAreMaximal(l: seq<Instr>, k: nat, test: Instr -> bool, r: Run)
    requires k <= |l|
    ensures r in Runs(l, k, test) <==> Maximal(l, k, test, r)
    decreases |l| - k
  {
    hide Maximal, SkipTo, RunEnd;
    var a := SkipTo(l, k, test);
    if a < |l| {
      var b := RunEnd(l, a, test);
      var n := PastRun(l, b);
      RunsAreMaximal(l, n, test, r);
      assert r in Runs(l, k, test) <==> r == Run(a, b) || r in Runs(l, n, test);
      FirstIsMaximal(l, k, test);
      OthersAreLater(l, k, test, r);
    } else {
      NoneMaximal(l, k, test, r);
    }
  }

  lemma NoneMaximal(l: seq<Instr>, k: nat, test: Instr -> bool, r: Run)
    requires k <= |l| && SkipTo(l, k, test) == |l|
    ensures !Maximal(l, k, test, r)
  {
    assert Maximal(l, k, test, r) ==> Passes(l, test, r.lo);
  }

  lemma FirstIsMaximal(l: seq<Instr>, k: nat, test: Instr -> bool)
    requires k <= |l| && SkipTo(l, k, test) < |l|
    ensures var a := SkipTo(l, k, test);
      && Maximal(l, k, test, Run(a, RunEnd(l, a, test)))
      && forall j :: k <= j < a ==> !Passes(l, test, j)
  {
  }

  lemma OthersAreLater(l: seq<Instr>, k: nat, test: Instr -> bool, r: Run)
    requires k <= |l| && SkipTo(l, k, test) < |l|
    ensures var a := SkipTo(l, k, test);
      var b := RunEnd(l, a, test);
      Maximal(l, k, test, r) <==> r == Run(a, b) || Maximal(l, PastRun(l, b), test, r)
  {
    var a := SkipTo(l, k, test);
    var b := RunEnd(l, a, test);
    FirstIsMaximal(l, k, test);
    if Maximal(l, k, test, r) {
      OneRunAt(l, k, test, Run(a, b), r);
    }
    assert b < |l| ==> !Passes(l, test, PastRun(l, b) - 1);
  }

  /** A maximal run is the given one or starts beyond the instruction that ends it. */
  lemma OneRunAt(l: seq<Instr>, k: nat, test: Instr -> bool, r: Run, q: Run)
    requires Maximal(l, k, test, r) && Maximal(l, k, test, q)
    requires forall j :: k <= j < r.lo ==> !Passes(l, test, j)
    ensures q == r || q.lo > r.hi
  {
    assert Passes(l, test, q.lo) && q.lo >= r.lo;
    if q.lo <= r.hi {
      assert q.lo < r.hi;
      assert q.lo > r.lo ==> Passes(l, test, q.lo - 1);
      assert q.hi < r.hi ==> Passes(l, test, q.hi);
      assert r.hi < q.hi ==> Passes(l, test, r.hi);
    }
  }

  /** The runs come in address order, with at least one instruction between two of them. */
  lemma {:induction false} RunsInOrder(l: seq<Instr>, k: nat, test: Instr -> bool, i: nat, j: nat)
    requires k <= |l| && i < j < |Runs(l, k, test)|
    ensures Runs(l, k, test)[i].hi < Runs(l, k, test)[j].lo
    decreases |l| - k
  {
    var n := PastRun(l, Runs(l, k, test)[0].hi);
    var rest := Runs(l, n, test);
    assert Runs(l, k, test)[j] == rest[j - 1];
    if i > 0 {
      assert Runs(l, k, test)[i] == rest[i - 1];
      RunsInOrder(l, n, test, i - 1, j - 1);
    }
  }

  /** The runs depend only on which instructions pass the test. */
  lemma {:induction false} RunsAgree(l: seq<Instr>, m: seq<Instr>, k: nat, test: Instr -> bool)
    requires k <= |l| == |m|
    requires forall j :: k <= j < |l| ==> test(l[j]) == test(m[j])
    ensures SkipTo(l, k, test) == SkipTo(m, k, test)
    ensures RunEnd(l, k, test) == RunEnd(m, k, test)
    ensures Runs(l, k, test) == Runs(m, k, test)
    decreases |l| - k
  {
    EndsAgree(l, m, k, test);
    var a := SkipTo(l, k, test);
    if a < |l| {
      EndsAgree(l, m, a, test);
      RunsAgree(l, m, PastRun(l, RunEnd(l, a, test)), test);
    }
  }

  lemma {:induction false} EndsAgree(l: seq<Instr>, m: seq<Instr>, k: nat, test: Instr -> bool)
    requires k <= |l| == |m|
    requires forall j :: k <= j < |l| ==> test(l[j]) == test(m[j])
    ensures SkipTo(l, k, test) == SkipTo(m, k, test)
    ensures RunEnd(l, k, test) == RunEnd(m, k, test)
    decreases |l| - k
  {
    if k < |l| {
      EndsAgree(l, m, k + 1, test);
    }
  }

  /** Pops that undo the pushes: the same registers in the opposite order. */
  predicate Mirrors(pro: seq<Instr>, epi: seq<Instr>) {
    && |pro| == |epi|
    && (forall k :: 0 <= k < |pro| ==> pro[k].kind.Push? && epi[k].kind.Pop?)
    && (forall k :: 0 <= k < |pro| ==> RegOf(epi[k]) == RegOf(pro[|pro| - 1 - k]))
  }

  function Bytes(l: seq<Instr>, r: Run): nat
    requires r.lo <= r.hi <= |l|
  {
    |Flat(l[r.lo..r.hi])|
  }

  ghost predicate InBounds(l: seq<Instr>, runs: seq<Run>) {
    forall j :: 0 <= j < |runs| ==> runs[j].lo < runs[j].hi <= |l|
  }

  /** The runs that are recorded: those that mirror the prologue, in order. */
  function Hits(l: seq<Instr>, runs: seq<Run>, i: nat, pro: seq<Instr>): (hs: seq<nat>)
    requires InBounds(l, runs) && i <= |runs|
    ensures forall j :: j in hs <==> i <= j < |runs| && Mirrors(pro, l[runs[j].lo..runs[j].hi])
    ensures forall m :: 0 <= m < |hs| ==> i <= hs[m] < |runs|
    ensures forall m, n :: 0 <= m < n < |hs| ==> hs[m] < hs[n]
    decreases |runs| - i
  {
    if i == |runs| then []
    else if Mirrors(pro, l[runs[i].lo..runs[i].hi]) then [i] + Hits(l, runs, i + 1, pro)
    else Hits(l, runs, i + 1, pro)
  }

  /** The bytes in the runs before run i. */
  function Drift(l: seq<Instr>, runs: seq<Run>, i: nat): nat
    requires InBounds(l, runs) && i <= |runs|
  {
    if i == 0 then 0 else Drift(l, runs, i - 1) + Bytes(l, runs[i - 1])
  }

  /** The set recorded for run i. With asWritten the address kept by the scan has also gained the
      byte length of every run before (src/transform.c:370). */
  function SetFor(addr: u64, l: seq<Instr>, runs: seq<Run>, i: nat, asWritten: bool): InstrSet
    requires InBounds(l, runs) && i < |runs|
  {
    SetAt((addr + if asWritten then Drift(l, runs, i) else 0) % WORD, l, runs[i].lo, runs[i].hi)
  }

  function Record(addr: u64, l: seq<Instr>, runs: seq<Run>, hits: seq<nat>, asWritten: bool)
    : (sets: seq<InstrSet>)
    requires InBounds(l, runs) && forall k :: 0 <= k < |hits| ==> hits[k] < |runs|
    ensures |sets| == |hits|
    ensures forall k :: 0 <= k < |hits| ==> sets[k] == SetFor(addr, l, runs, hits[k], asWritten)
  {
    if hits == [] then []
    else
      var n := |hits| - 1;
      Record(addr, l, runs, hits[..n], asWritten) + [SetFor(addr, l, runs, hits[n], asWritten)]
  }

  datatype Found = Rejected | Accepted(prologue: InstrSet, epilogues: seq<InstrSet>)

  /** The instructions that the search for epilogues starts with: the instruction that ended the
      prologue is consumed. */
  function AfterPrologue(l: seq<Instr>): (n: nat)
    ensures n <= |l|
  {
    PastRun(l, RunEnd(l, SkipTo(l, 0, InPrologue), InPrologue))
  }

  function PrologueRun(l: seq<Instr>): (r: Run)
    ensures r.lo <= r.hi <= |l|
  {
    var a := SkipTo(l, 0, InPrologue);
    Run(a, RunEnd(l, a, InPrologue))
  }

  /** The outcome for the bytes of buf from `from` to `end`, belonging at address addr. A function
      is accepted when its bytes decode exactly up to its end, it has a run of at least two
      pushes, and some later run of pops mirrors the first such run. */
  ghost function Analyze(isa: Isa, buf: seq<byte>, from: nat, end: int, addr: u64, asWritten: bool)
    : Found
    requires Lawful(isa) && from <= |buf|
  {
    var r := Sweep(isa, buf, from, end);
    var l := r.instrs;
    var p := PrologueRun(l);
    var runs := Runs(l, AfterPrologue(l), InEpilogue);
    var sets := Record(addr, l, runs, Hits(l, runs, 0, l[p.lo..p.hi]), asWritten);
    if r.ok && from + |Flat(l)| == end && p.hi - p.lo >= 2 && sets != [] then
      Accepted(SetAt(addr, l, p.lo, p.hi), sets)
    else
      Rejected
  }
}
