/** The life of a handle: a file is loaded, and then randomizations and relocations come in any order. */
module Lifetime {
  import opened Words
  import opened Instrs
  import opened Codes
  import opened Layout
  import opened Transform
  import opened Randomize
  import opened Calls
  import opened Meaning
  import opened Rave
  import opened Service

  datatype Call = Randomization | Relocation(address: u64)

  function Randomizations(calls: seq<Call>): nat {
    if calls == [] then 0
    else
      var n := |calls| - 1;
      Randomizations(calls[..n]) + if calls[n].Randomization? then 1 else 0
  }

  /** The address that the last relocation named. */
  function LastAddress(calls: seq<Call>): Option<u64> {
    if calls == [] then None
    else
      var n := |calls| - 1;
      if calls[n].Relocation? then Some(calls[n].address) else LastAddress(calls[..n])
  }

  /** The offset after the calls, started with offset reloc. */
  function OffsetAfter(orig: u64, reloc: u64, calls: seq<Call>): u64 {
    if LastAddress(calls).None? then reloc else Sub(orig, LastAddress(calls).value)
  }

  lemma {:induction false} FewerRandomizations(calls: seq<Call>, i: nat)
    requires i <= |calls|
    ensures Randomizations(calls[..i]) <= Randomizations(calls)
    decreases |calls|
  {
    var n := |calls| - 1;
    if i == |calls| {
      assert calls[..i] == calls;
    } else {
      assert calls[..n][..i] == calls[..i];
      FewerRandomizations(calls[..n], i);
    }
  }

  lemma OneMoreCall(calls: seq<Call>, i: nat)
    requires i < |calls|
    ensures Randomizations(calls[..i + 1]) == Randomizations(calls[..i]) + if calls[i].Randomization? then 1 else 0
    ensures LastAddress(calls[..i + 1])
         == if calls[i].Relocation? then Some(calls[i].address) else LastAddress(calls[..i])
  {
    assert calls[..i + 1][..i] == calls[..i];
  }

  lemma RunsNext(isa: Isa, text: seq<byte>, orig: u64, data: Option<nat>, length: u64, fns: seq<Fn>,
                 orders: seq<seq<int>>, rand: nat -> nat, from: nat, n: nat)
    requires TablesFit(fns, orders)
    ensures AfterRuns(isa, text, orig, data, length, fns, orders, rand, from, 0) == Outcome(Success, text, orders, from)
    ensures var r := AfterRuns(isa, text, orig, data, length, fns, orders, rand, from, n);
      r.rc == Success ==>
        AfterRuns(isa, text, orig, data, length, fns, orders, rand, from, n + 1)
          == PermutedAll(isa, r.text, orig, data, length, fns, r.orders, rand, r.next)
  {
    hide TablesFit, PermutedAll;
  }

  /** After a failure nothing happens any more. */
  lemma {:induction false} RunsStop(isa: Isa, text: seq<byte>, orig: u64, data: Option<nat>, length: u64, fns: seq<Fn>,
                                    orders: seq<seq<int>>, rand: nat -> nat, from: nat, m: nat, n: nat)
    requires TablesFit(fns, orders) && m <= n
    requires AfterRuns(isa, text, orig, data, length, fns, orders, rand, from, m).rc != Success
    ensures AfterRuns(isa, text, orig, data, length, fns, orders, rand, from, n)
         == AfterRuns(isa, text, orig, data, length, fns, orders, rand, from, m)
    decreases n
  {
    hide TablesFit, PermutedAll;
    if m < n {
      RunsStop(isa, text, orig, data, length, fns, orders, rand, from, m, n - 1);
    }
  }

  /** What one call makes of the text, the tables and the values drawn. */
  ghost function OutcomeOf(call: Call, isa: Isa, text: seq<byte>, orig: u64, data: Option<nat>, length: u64,
                           fns: seq<Fn>, orders: seq<seq<int>>, rand: nat -> nat, from: nat): Outcome
    requires TablesFit(fns, orders)
  {
    if call.Relocation? then Outcome(Success, text, orders, from)
    else PermutedAll(isa, text, orig, data, length, fns, orders, rand, from)
  }

  lemma NoCalls(isa: Isa, text: seq<byte>, orig: u64, data: Option<nat>, length: u64, fns: seq<Fn>,
                orders: seq<seq<int>>, rand: nat -> nat, from: nat)
    requires TablesFit(fns, orders)
    ensures AfterRuns(isa, text, orig, data, length, fns, orders, rand, from, Randomizations([]))
         == Outcome(Success, text, orders, from)
    ensures forall start, reloc :: OffsetAfter(start, reloc, []) == reloc
  {
    hide TablesFit;
  }

  /** Call number i, after the ones before it have succeeded; if it fails the rest does not happen. */
  lemma CallDone(calls: seq<Call>, i: nat, isa: Isa, text: seq<byte>, orig: u64, data: Option<nat>, length: u64,
                 fns: seq<Fn>, orders: seq<seq<int>>, rand: nat -> nat, from: nat)
    requires TablesFit(fns, orders) && i < |calls|
    requires AfterRuns(isa, text, orig, data, length, fns, orders, rand, from, Randomizations(calls[..i])).rc == Success
    ensures var r := AfterRuns(isa, text, orig, data, length, fns, orders, rand, from, Randomizations(calls[..i]));
      var r' := OutcomeOf(calls[i], isa, r.text, orig, data, length, fns, r.orders, rand, r.next);
      && r' == AfterRuns(isa, text, orig, data, length, fns, orders, rand, from, Randomizations(calls[..i + 1]))
      && (r'.rc != Success ==>
           r' == AfterRuns(isa, text, orig, data, length, fns, orders, rand, from, Randomizations(calls)))
  {
    hide TablesFit, PermutedAll, AfterRuns, Randomizations, LastAddress;
    OneMoreCall(calls, i);
    var m := Randomizations(calls[..i + 1]);
    RunsNext(isa, text, orig, data, length, fns, orders, rand, from, Randomizations(calls[..i]));
    FewerRandomizations(calls, i + 1);
    if AfterRuns(isa, text, orig, data, length, fns, orders, rand, from, m).rc != Success {
      RunsStop(isa, text, orig, data, length, fns, orders, rand, from, m, Randomizations(calls));
    }
  }

  lemma OffsetNext(calls: seq<Call>, i: nat, orig: u64, reloc: u64)
    requires i < |calls|
    ensures OffsetAfter(orig, reloc, calls[..i + 1])
         == if calls[i].Relocation? then Sub(orig, calls[i].address) else OffsetAfter(orig, reloc, calls[..i])
  {
    hide LastAddress, Sub;
    OneMoreCall(calls, i);
  }

  method Perform(h: Handle, call: Call, rand: nat -> nat, from: nat) returns (rc: Rc, next: nat)
    requires h.Valid()
    modifies h`reloc, h.buffer, Tables(h.transform.transformables)
    ensures h.Valid()
    ensures Outcome(rc, h.buffer[..], OrdersOf(h.transform.transformables), next)
         == OutcomeOf(call, h.transform.isa, old(h.buffer[..]), h.text.orig, h.text.data, h.text.length,
                      FnsOf(h.transform.transformables), old(OrdersOf(h.transform.transformables)), rand, from)
    ensures h.reloc == if call.Relocation? then Sub(h.segment.orig, call.address) else old(h.reloc)
    ensures old(h.Sound()) ==> rc == Success && h.Sound()
  {
    hide TablesFit, PermutedAll, Shaped, OwnTables, AllPlaced;
    match call
    case Relocation(address) =>
      ghost var before := OrdersOf(h.transform.transformables);
      h.Relocate(address);
      assert OrdersOf(h.transform.transformables) == before;
      rc, next := Success, from;
    case Randomization =>
      rc, next := h.Randomize(rand, from);
  }

  /** Any randomizations and relocations of a handle, up to the first failure. The text, the tables and
      the values drawn are those of as many randomizations; the offset is that of the last
      relocation. */
  method PerformAll(h: Handle, calls: seq<Call>, rand: nat -> nat, from: nat) returns (rc: Rc, next: nat)
    requires h.Valid()
    modifies h`reloc, h.buffer, Tables(h.transform.transformables)
    ensures h.Valid()
    ensures Outcome(rc, h.buffer[..], OrdersOf(h.transform.transformables), next)
         == AfterRuns(h.transform.isa, old(h.buffer[..]), h.text.orig, h.text.data, h.text.length,
                      FnsOf(h.transform.transformables), old(OrdersOf(h.transform.transformables)),
                      rand, from, Randomizations(calls))
    ensures rc == Success ==> h.reloc == OffsetAfter(h.segment.orig, old(h.reloc), calls)
    ensures old(h.Sound()) ==> rc == Success && h.Sound()
  {
    hide TablesFit, AfterRuns, Randomizations, Shaped, OwnTables, AllPlaced, Sub, OutcomeOf, OffsetAfter;
    ghost var isa, text, orig, data, length := h.transform.isa, h.buffer[..], h.text.orig, h.text.data, h.text.length;
    ghost var fns, orders := FnsOf(h.transform.transformables), OrdersOf(h.transform.transformables);
    ghost var sound := h.Sound();
    ghost var now := Outcome(Success, text, orders, from);
    rc, next := Success, from;
    var i := 0;
    NoCalls(isa, text, orig, data, length, fns, orders, rand, from);
    assert calls[..0] == [];
    while i < |calls|
      invariant i <= |calls| && h.Valid() && rc == Success
      invariant now == Outcome(rc, h.buffer[..], OrdersOf(h.transform.transformables), next)
      invariant now == AfterRuns(isa, text, orig, data, length, fns, orders, rand, from, Randomizations(calls[..i]))
      invariant h.reloc == OffsetAfter(h.segment.orig, old(h.reloc), calls[..i])
      invariant sound ==> h.Sound()
    {
      CallDone(calls, i, isa, text, orig, data, length, fns, orders, rand, from);
      OffsetNext(calls, i, h.segment.orig, old(h.reloc));
      rc, next := Perform(h, calls[i], rand, next);
      now := OutcomeOf(calls[i], isa, now.text, orig, data, length, fns, now.orders, rand, now.next);
      if rc != Success {
        return;
      }
      i := i + 1;
    }
    assert calls[..i] == calls;
  }

  /** The section lies as far into the segment in memory as in the file, and the segment does not
      reach the top of the address space. */
  predicate Congruent(section: Section, seg: Segment) {
    && seg.vaddr <= SectionAddress(section.addr) && seg.vaddr + PageUp(seg.memsz) < WORD
    && Sub(SectionAddress(section.addr), seg.vaddr) == Sub(section.offset, seg.offset)
  }

  /** Whatever is executed, the memory seen from address load on means what the segment in the file
      means. */
  ghost predicate MeansFile(h: Handle, file: seq<byte>, seg: Segment, load: u64)
    requires h.Valid() && LoadedAt(h, load) && MapOutcome(file, seg) == Success
    reads h, h.segment, h.text, h.transform, h.buffer, Tables(h.transform.transformables)
  {
    var isa, sites := h.transform.isa, AddressSites(h.segment.orig, FnsOf(h.transform.transformables));
    var p, q := ProgramOf(isa, Mapped(file, seg), sites), ProgramOf(isa, Seen(h, load, h.segment.length), sites);
    forall acts, s :: AllObey(p, acts, Config(s, iset{}), iset{}) ==> SameEnd(p, q, acts, s)
  }

  lemma SoundMeansFile(h: Handle, file: seq<byte>, seg: Segment, load: u64)
    requires h.Valid() && h.Sound() && LoadedAt(h, load)
    requires MapOutcome(file, seg) == Success && h.base == Mapped(file, seg)
    ensures MeansFile(h, file, seg, load)
  {
    hide ProgramOf, AllObey, SameEnd, PageUp, TablesFit, Shaped, AllPlaced, OwnTables, AddressSites,
         Seen, Mapped;
    var isa, sites := h.transform.isa, AddressSites(h.segment.orig, FnsOf(h.transform.transformables));
    var p, q := ProgramOf(isa, Mapped(file, seg), sites), ProgramOf(isa, Seen(h, load, h.segment.length), sites);
    forall acts, s | AllObey(p, acts, Config(s, iset{}), iset{})
      ensures SameEnd(p, q, acts, s)
    {
      ServedMeansSame(h, file, seg, load, acts, s);
    }
  }

  /** A whole life. The file's segment is loaded, its functions are offered to the transformer, and any
      randomizations and relocations follow. With functions that do not overlap, and that drift does
      not harm, nothing fails after loading, and wherever the segment was last relocated to, if that is
      page-aligned, the memory seen there means what the file means. */
  method Serve(isa: Isa, asWritten: bool, unset: u64, file: seq<byte>, section: Section, seg: Segment, place: u64,
               fs: seq<Function>, calls: seq<Call>, rand: nat -> nat)
    returns (h: Handle, rc: Rc)
    requires Lawful(isa) && place + PageUp(seg.memsz) < WORD
    ensures fresh(h) && h.Valid()
    ensures MapOutcome(file, seg) != Success ==> rc == MapOutcome(file, seg)
    ensures MapOutcome(file, seg) == Success ==>
      var s := SetupFor(isa, asWritten, file, section, seg, place);
      var loaded := LoadedFrom(s, fs);
      && h.transform.isa == isa && h.base == Mapped(file, seg) && h.segment.orig == seg.vaddr
      && FnsOf(h.transform.transformables) == loaded.fns
      && (loaded.rc != Success ==> rc == loaded.rc)
      && (Disjoint(fs) && AllSteady(s, fs) ==> rc == loaded.rc && h.Sound())
      && (Disjoint(fs) && AllSteady(s, fs) && rc == Success && Congruent(section, seg)
          && LastAddress(calls).Some? && LastAddress(calls).value % PAGESZ == 0 ==>
            LoadedAt(h, LastAddress(calls).value) && MeansFile(h, file, seg, LastAddress(calls).value))
  {
    hide Disjoint, AllSteady, LoadedFrom, PageUp, Mapped, LastAddress, TablesFit, Shaped, OwnTables, AllPlaced,
         SectionAddress, MeansFile, Congruent, LoadedAt, MapOutcome, AfterRuns, PermutedAll, Randomizations;
    h := new Handle(isa, asWritten, unset);
    rc := h.Init(file, section, seg, place, fs);
    if rc != Success {
      return;
    }
    ghost var s := SetupFor(isa, asWritten, file, section, seg, place);
    ghost var fns := FnsOf(h.transform.transformables);
    assert h.Setting() == s;
    assert h.text.orig == s.orig && h.text.data == s.data;
    var next;
    rc, next := PerformAll(h, calls, rand, 0);
    if Disjoint(fs) && AllSteady(s, fs) && Congruent(section, seg)
      && LastAddress(calls).Some? && LastAddress(calls).value % PAGESZ == 0 {
      Relocated(h, section, seg, LastAddress(calls).value);
      SoundMeansFile(h, file, seg, LastAddress(calls).value);
    }
  }

  lemma Relocated(h: Handle, section: Section, seg: Segment, load: u64)
    requires Congruent(section, seg) && h.reloc == Sub(h.segment.orig, load) && load % PAGESZ == 0
    requires h.segment.orig == seg.vaddr && h.segment.length == PageUp(seg.memsz)
    requires h.text.orig == SectionAddress(section.addr) && h.text.data == Some(Sub(section.offset, seg.offset))
    ensures LoadedAt(h, load)
  {
    hide SectionAddress, Sub;
  }
}
