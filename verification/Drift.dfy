/** The address drift of the scan as written, on a concrete function. */
module Drift {
  import opened Instrs
  import opened Orders
  import opened Codes
  import opened Patches
  import opened Scan
  import opened Analysis
  import opened Layout
  import opened Windows
  import opened Encode
  import opened Transform

  /** One-byte and REX.B-prefixed pushes and pops of registers, nop and ret. Intel SDM volume 2B,
      section 4.3, POP and PUSH. */
  function DecodeStack(s: seq<byte>): Option<Instr> {
    if |s| >= 1 && 0x50 <= s[0] < 0x58 then Some(Instr(Push((s[0] - 0x50) as int), s[..1]))
    else if |s| >= 1 && 0x58 <= s[0] < 0x60 then Some(Instr(Pop((s[0] - 0x58) as int), s[..1]))
    else if |s| >= 2 && s[0] == 0x41 && 0x50 <= s[1] < 0x58 then
      Some(Instr(Push((s[1] - 0x50) as int + 8), s[..2]))
    else if |s| >= 2 && s[0] == 0x41 && 0x58 <= s[1] < 0x60 then
      Some(Instr(Pop((s[1] - 0x58) as int + 8), s[..2]))
    else if |s| >= 1 && (s[0] == 0x90 || s[0] == 0xC3) then Some(Instr(Other, s[..1]))
    else None
  }

  function StackIsa(): Isa {
    Isa(DecodeStack, (i: Instr) => Some(i.raw))
  }

  /** The laws asked of the decoder and encoder can be met: real push and pop encodings meet
      them. */
  lemma StackIsaLawful()
    ensures Lawful(StackIsa())
  {
    forall s, t
      ensures Law(StackIsa(), s, t)
    {
      if DecodeStack(s).Some? {
        var raw := DecodeStack(s).value.raw;
        if raw <= t {
          assert t[..|raw|] == raw == s[..|raw|];
          assert forall k :: 0 <= k < |raw| ==> t[k] == raw[k] == s[k];
        }
      }
    }
  }

  predicate OneByte(b: byte) {
    0x50 <= b < 0x60 || b == 0x90 || b == 0xC3
  }

  function OneInstr(b: byte): Instr
    requires OneByte(b)
  {
    Instr(if b < 0x58 then Push((b - 0x50) as int)
          else if b < 0x60 then Pop((b - 0x58) as int)
          else Other, [b])
  }

  lemma OneDecodes(buf: seq<byte>, k: nat)
    requires k < |buf| && OneByte(buf[k])
    ensures DecodeStack(buf[k..]) == Some(OneInstr(buf[k]))
  {
    assert buf[k..][0] == buf[k] && buf[k..][..1] == [buf[k]];
  }

  /** Bytes that are instructions of their own are swept one by one. */
  lemma {:induction false} SweepOnes(buf: seq<byte>, w: nat, max: nat)
    requires Lawful(StackIsa()) && w <= max <= |buf|
    requires forall k :: w <= k < max ==> OneByte(buf[k])
    ensures var r := Sweep(StackIsa(), buf, w, max);
      && r.ok && |r.instrs| == max - w
      && forall k :: 0 <= k < max - w ==> r.instrs[k] == OneInstr(buf[w + k])
    decreases max - w
  {
    hide DecodeStack, OneByte, OneInstr, Flat;
    if w < max {
      OneDecodes(buf, w);
      assert OneInstr(buf[w]).raw == [buf[w]] by { OneRaw(buf[w]); }
      SweepOnes(buf, w + 1, max);
      var all, rest := Sweep(StackIsa(), buf, w, max).instrs, Sweep(StackIsa(), buf, w + 1, max).instrs;
      forall k | 0 <= k < max - w
        ensures all[k] == OneInstr(buf[w + k])
      {
        if k > 0 {
          assert rest[k - 1] == OneInstr(buf[w + 1 + (k - 1)]);
        }
      }
    }
  }

  lemma OneRaw(b: byte)
    requires OneByte(b)
    ensures OneInstr(b).raw == [b]
  {
  }

  lemma {:induction false} FlatOnes(l: seq<Instr>)
    requires forall k :: 0 <= k < |l| ==> |l[k].raw| == 1
    ensures |Flat(l)| == |l|
  {
    if l != [] {
      FlatOnes(l[1..]);
    }
  }

  /** push rbx; push rdi; nop; then twice pop rdi; pop rbx; ret. The last byte belongs to the
      function behind it. */
  const TEXT: seq<byte> := [0x53, 0x57, 0x90, 0x5F, 0x5B, 0xC3, 0x5F, 0x5B, 0xC3, 0x90]

  const RBX: Reg := 3
  const RDI: Reg := 7

  /** The instructions of TEXT. */
  ghost predicate IsText(l: seq<Instr>) {
    && |l| == 9
    && (forall k :: 0 <= k < 9 ==> |l[k].raw| == 1)
    && l[0].kind == Push(RBX) && l[1].kind == Push(RDI) && l[2].kind == Other
    && l[0].raw == [0x53] && l[1].raw == [0x57]
    && l[3] == l[6] && l[6].kind == Pop(RDI) && l[6].raw == [0x5F]
    && l[4] == l[7] && l[7].kind == Pop(RBX) && l[7].raw == [0x5B]
    && l[5].kind == l[8].kind == Other
  }

  lemma TextInstrs()
    ensures Lawful(StackIsa())
    ensures var r := Sweep(StackIsa(), TEXT, 0, 9);
      r.ok && IsText(r.instrs)
  {
    hide DecodeStack, Sweep;
    StackIsaLawful();
    SweepOnes(TEXT, 0, 9);
    var l := Sweep(StackIsa(), TEXT, 0, 9).instrs;
    assert forall k :: 0 <= k < 9 ==> l[k] == OneInstr(TEXT[0 + k]);
    assert TEXT[0] == 0x53 && TEXT[1] == 0x57 && TEXT[2] == 0x90 && TEXT[3] == TEXT[6] == 0x5F;
    assert TEXT[4] == TEXT[7] == 0x5B && TEXT[5] == TEXT[8] == 0xC3;
  }

  lemma TextPrologue(l: seq<Instr>)
    requires IsText(l)
    ensures PrologueRun(l) == Run(0, 2) && AfterPrologue(l) == 3
  {
    hide SkipTo, RunEnd;
    assert InPrologue(l[0]) && InPrologue(l[1]) && !InPrologue(l[2]);
    assert SkipTo(l, 0, InPrologue) == 0 && RunEnd(l, 0, InPrologue) == 2;
  }

  lemma TextRuns(l: seq<Instr>)
    requires IsText(l)
    ensures Runs(l, 3, InEpilogue) == [Run(3, 5), Run(6, 8)]
  {
    hide SkipTo, RunEnd;
    assert InEpilogue(l[3]) && InEpilogue(l[4]) && !InEpilogue(l[5]);
    assert InEpilogue(l[6]) && InEpilogue(l[7]) && !InEpilogue(l[8]);
    assert SkipTo(l, 3, InEpilogue) == 3 && RunEnd(l, 3, InEpilogue) == 5;
    assert SkipTo(l, 6, InEpilogue) == 6 && RunEnd(l, 6, InEpilogue) == 8;
    assert Runs(l, 9, InEpilogue) == [];
    assert Runs(l, 6, InEpilogue) == [Run(6, 8)];
  }

  /** Both exits of TEXT mirror its prologue, so both are recorded. */
  lemma TextHits(l: seq<Instr>)
    requires IsText(l)
    ensures EpilogueRuns(l) == [Run(3, 5), Run(6, 8)] && EpilogueHits(l) == [0, 1]
  {
    hide SkipTo, RunEnd, Runs;
    TextPrologue(l);
    TextRuns(l);
    var runs := EpilogueRuns(l);
    var pro := l[0..2];
    assert Mirrors(pro, l[3..5]) && Mirrors(pro, l[6..8]);
    assert Hits(l, runs, 2, pro) == [];
    assert Hits(l, runs, 1, pro) == [1];
  }

  lemma TextFlat(l: seq<Instr>, a: nat, b: nat)
    requires IsText(l) && a <= b <= 9
    ensures |Flat(l[a..b])| == b - a
  {
    FlatOnes(l[a..b]);
  }

  /** Where the scan as written records the sets of TEXT at address 0x1000: the second exit, at
      0x1006, is recorded two bytes too far. */
  lemma TextFound(l: seq<Instr>)
    requires IsText(l)
    ensures var runs := [Run(3, 5), Run(6, 8)];
      && SetAt(0x1000, l, 0, 2) == InstrSet(0x1000, 0x1002, l[0..2])
      && SetFor(0x1000, l, runs, 0, true) == InstrSet(0x1003, 0x1005, l[3..5])
      && SetFor(0x1000, l, runs, 1, true) == InstrSet(0x1008, 0x100A, l[3..5])
      && SetFor(0x1000, l, runs, 1, false) == InstrSet(0x1006, 0x1008, l[3..5])
      && Record(0x1000, l, runs, [0, 1], true)
         == [InstrSet(0x1003, 0x1005, l[3..5]), InstrSet(0x1008, 0x100A, l[3..5])]
  {
    hide Flat;
    var runs := [Run(3, 5), Run(6, 8)];
    TextFlat(l, 0, 0);
    TextFlat(l, 0, 2);
    TextFlat(l, 0, 3);
    TextFlat(l, 0, 5);
    TextFlat(l, 0, 6);
    TextFlat(l, 0, 8);
    TextFlat(l, 3, 5);
    assert forall k :: 0 <= k <= 9 ==> l[0..k] == l[..k];
    assert l[6..8] == l[3..5];
    assert Drift(l, runs, 0) == 0 && Drift(l, runs, 1) == 2;
  }

  const SWAP: seq<int> := [1, 0]

  lemma Swapped(l: seq<Instr>)
    requires |l| == 2
    ensures IsPerm(SWAP) && Mirror(SWAP) == SWAP && Place(l, SWAP) == [l[1], l[0]]
  {
    PlaceUnique(l, SWAP, [l[1], l[0]]);
  }

  lemma FlatTwo(a: Instr, b: Instr)
    ensures Flat([a, b]) == a.raw + b.raw
  {
    FlatAppend([a], [b]);
    FlatOne(a);
    FlatOne(b);
    assert [a, b] == [a] + [b];
  }

  /** One set of TEXT written swapped at index at. */
  lemma SwappedWritten(text: seq<byte>, s: InstrSet, at: nat)
    requires |s.instrs| == 2 && AllKnown(StackIsa(), s.instrs) && |text| == 10 && at <= 8
    requires |s.instrs[0].raw| == |s.instrs[1].raw| == 1
    requires s.start == 0x1000 + at && s.end == s.start + 2
    ensures IsPerm(SWAP)
    ensures Encoded(StackIsa(), text, Locate(0x1000, Some(0), 9, s.start), Place(s.instrs, SWAP), s.start, s.end)
         == (Success, Splice(text, Patch(at, s.instrs[1].raw + s.instrs[0].raw)))
  {
    hide Encoded, Splice, Flat;
    Swapped(s.instrs);
    FlatTwo(s.instrs[1], s.instrs[0]);
    ExactRefill(StackIsa(), text, at, [s.instrs[1], s.instrs[0]], s.start, s.end);
  }

  /** TEXT after its function, accepted by the scan as written, is permuted once. */
  const BROKEN: seq<byte> := [0x57, 0x53, 0x90, 0x5B, 0x5F, 0xC3, 0x5F, 0x5B, 0x5B, 0x5F]

  lemma TextSplices()
    ensures var t1 := Splice(TEXT, Patch(0, [0x57, 0x53]));
      var t2 := Splice(t1, Patch(3, [0x5B, 0x5F]));
      Splice(t2, Patch(8, [0x5B, 0x5F])) == BROKEN
  {
    var t1 := Splice(TEXT, Patch(0, [0x57, 0x53]));
    assert t1 == [0x57, 0x53, 0x90, 0x5F, 0x5B, 0xC3, 0x5F, 0x5B, 0xC3, 0x90];
    var t2 := Splice(t1, Patch(3, [0x5B, 0x5F]));
    assert t2 == [0x57, 0x53, 0x90, 0x5B, 0x5F, 0xC3, 0x5F, 0x5B, 0xC3, 0x90];
  }

  function TextFn(l: seq<Instr>): Fn
    requires IsText(l)
  {
    Fn(0x1000, 9, InstrSet(0x1000, 0x1002, l[0..2]),
       [InstrSet(0x1003, 0x1005, l[3..5]), InstrSet(0x1008, 0x100A, l[3..5])])
  }

  lemma TextWritten(l: seq<Instr>)
    requires IsText(l) && AllKnown(StackIsa(), l)
    ensures SlotsAgree(TextFn(l)) && IsPerm(SWAP) && TextFn(l).Slots() == 2
    ensures Written(StackIsa(), TEXT, Some(0), TextFn(l), SWAP) == (Success, BROKEN)
  {
    hide Encoded, Splice, Flat, WrittenSets, Locate, Place, Known;
    var isa, fn := StackIsa(), TextFn(l);
    Swapped(l[0..2]);
    assert l[1].raw + l[0].raw == [0x57, 0x53] && l[4].raw + l[3].raw == [0x5B, 0x5F];
    var t1 := Splice(TEXT, Patch(0, [0x57, 0x53]));
    SwappedWritten(TEXT, fn.prologue, 0);
    WrittenOne(isa, TEXT, Some(0), fn, fn.prologue, SWAP);
    var t2 := Splice(t1, Patch(3, [0x5B, 0x5F]));
    SwappedWritten(t1, fn.epilogues[0], 3);
    SwappedWritten(t2, fn.epilogues[1], 8);
    NextSetWritten(isa, t1, Some(0), fn, fn.epilogues, 0, SWAP);
    NextSetWritten(isa, t2, Some(0), fn, fn.epilogues, 1, SWAP);
    assert fn.epilogues[0..] == fn.epilogues && fn.epilogues[2..] == [];
    NoSetWritten(isa, BROKEN, Some(0), fn, SWAP);
    TextSplices();
  }

  /** The scan as written corrupts a function with two exits. TEXT is accepted with both exits,
      but the second one, at 0x1006, is recorded at 0x1008. Permuting it then reports success,
      leaves the second exit as it was although the prologue is swapped, and overwrites the return
      instruction behind it and the first byte of the next function. */
  lemma DriftCorrupts()
    ensures Lawful(StackIsa())
    ensures var found := Analyze(StackIsa(), TEXT, 0, 9, 0x1000, true);
      && found.Accepted? && |found.epilogues| == 2 && found.epilogues[1].start == 0x1008
      && var fn := FnOf(0x1000, 9, found);
         && SlotsAgree(fn) && IsPerm(SWAP) && |SWAP| == fn.Slots()
         && Written(StackIsa(), TEXT, Some(0), fn, SWAP) == (Success, BROKEN)
    ensures var meant := Analyze(StackIsa(), TEXT, 0, 9, 0x1000, false);
      meant.Accepted? && |meant.epilogues| == 2 && meant.epilogues[1].start == 0x1006
    ensures BROKEN[6..8] == TEXT[6..8] && BROKEN[0] != TEXT[0] && BROKEN[1] != TEXT[1]
    ensures BROKEN[8] != TEXT[8] && BROKEN[9] != TEXT[9]
  {
    hide Sweep, Flat, Runs, Hits, SkipTo, RunEnd, Record, Written, DecodeStack, SetFor, SetAt;
    TextInstrs();
    var l := Sweep(StackIsa(), TEXT, 0, 9).instrs;
    TextPrologue(l);
    TextHits(l);
    TextFound(l);
    TextFlat(l, 0, 9);
    assert l[0..9] == l;
    TextWritten(l);
  }
}
