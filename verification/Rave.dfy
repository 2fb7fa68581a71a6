/** The handle of src/rave.c: the code image, its two windows, and the pages served from it. */
module Rave {
  import opened Words
  import opened Instrs
  import opened Orders
  import opened Codes
  import opened Scan
  import opened Analysis
  import opened Layout
  import opened Windows
  import opened Image
  import opened Transform
  import opened Randomize

  /** The program header fields that are used. */
  datatype Segment = Segment(loadable: bool, vaddr: u64, offset: u64, filesz: u64, memsz: u64)

  /** The section header fields that are used. */
  datatype Section = Section(addr: u64, offset: u64, size: u64)

  datatype Function = Function(addr: u64, len: u64)

  /** section_address returns an int: the low 32 bits of the address, sign-extended when it is
      widened again. */
  function SectionAddress(addr: u64): (r: u64)
    ensures r % 0x1_0000_0000 == addr % 0x1_0000_0000
    ensures r < 0x8000_0000 || r >= 0x1_0000_0000_0000_0000 - 0x8000_0000
  {
    var low := addr % 0x1_0000_0000;
    if low < 0x8000_0000 then low else low + (WORD - 0x1_0000_0000)
  }

  /** The address survives exactly when it fits a signed 32-bit integer. */
  lemma SectionAddressFits(addr: u64)
    ensures SectionAddress(addr) == addr <==> addr < 0x8000_0000 || addr >= WORD - 0x8000_0000
  {
  }

  /** The segment as loaded: file bytes, then zeros up to a whole number of pages. */
  function Mapped(file: seq<byte>, seg: Segment): (m: seq<byte>)
    requires seg.offset + seg.filesz <= |file| && seg.filesz <= PageUp(seg.memsz)
    ensures |m| == PageUp(seg.memsz)
    ensures m[..seg.filesz] == file[seg.offset..seg.offset + seg.filesz]
    ensures forall x :: 0 <= x < |m| ==> m[x] == if x < seg.filesz then file[seg.offset + x] else 0
  {
    seq(PageUp(seg.memsz), x requires 0 <= x < PageUp(seg.memsz) =>
      if x < seg.filesz then file[seg.offset + x] else 0)
  }

  /** The zeroed mapping with the file bytes copied over its start. */
  method CopySegment(file: seq<byte>, seg: Segment) returns (image: array<byte>)
    requires seg.offset + seg.filesz <= |file| && seg.filesz <= PageUp(seg.memsz)
    ensures fresh(image) && image[..] == Mapped(file, seg)
    ensures image[..seg.filesz] == file[seg.offset..seg.offset + seg.filesz]
    ensures forall x :: seg.filesz <= x < image.Length ==> image[x] == 0
  {
    image := new byte[PageUp(seg.memsz)](_ => 0);
    forall x | 0 <= x < seg.filesz {
      image[x] := file[seg.offset + x];
    }
  }

  /** Where the functions start in the code buffer, as the text window has it. */
  ghost function SitesOf(orig: u64, data: Option<nat>, length: u64, fns: seq<Fn>): (sites: seq<Site>)
    ensures |sites| == |fns|
    ensures forall k :: 0 <= k < |fns| ==> sites[k].fn == fns[k]
    ensures forall k :: 0 <= k < |fns| && Locate(orig, data, length, fns[k].addr).Some? ==>
      sites[k].at == Locate(orig, data, length, fns[k].addr).value
  {
    seq(|fns|, k requires 0 <= k < |fns| =>
      Site(if Locate(orig, data, length, fns[k].addr).Some? then Locate(orig, data, length, fns[k].addr).value else 0,
           fns[k]))
  }

  /** When both ends of a function pass the check of process_function and its end did not wrap in
      this process, the text window holds the whole range and a byte behind it. */
  lemma InsideText(orig: u64, data: Option<nat>, length: u64, addr: u64, len: u64, mapping: u64, size: nat, at: nat)
    requires Inside(orig, length, addr) && Inside(orig, length, Add(addr, len))
    requires Locate(orig, data, length, addr) == Some(at) && at <= size && mapping + size < WORD
    requires EndIndex(mapping, at, len) == at + len
    ensures orig <= addr && addr + len < orig + length < WORD
  {
  }

  /** No two of the functions overlap. */
  ghost predicate Disjoint(fs: seq<Function>) {
    forall i, j :: 0 <= i < j < |fs| ==>
      fs[i].addr + fs[i].len <= fs[j].addr || fs[j].addr + fs[j].len <= fs[i].addr
  }

  /** The drift of the scan, where there is any, does no harm to the function: no run of pops but
      the first one undoes its prologue. */
  ghost predicate Steady(isa: Isa, base: seq<byte>, at: nat, f: Function, asWritten: bool) {
    asWritten && at + f.len <= |base| ==>
      forall l :: Decodes(isa, base[at..at + f.len], l) ==> OnlyFirst(l)
  }

  /** An accepted function is sound where it was found. */
  lemma AcceptedSound(isa: Isa, base: seq<byte>, at: nat, f: Function, asWritten: bool)
    requires Lawful(isa) && at + f.len <= |base| && f.addr + f.len < WORD
    requires Analyze(isa, base, at, at + f.len, f.addr, asWritten).Accepted?
    requires Steady(isa, base, at, f, asWritten)
    ensures SoundAt(isa, base, Site(at, FnOf(f.addr, f.len, Analyze(isa, base, at, at + f.len, f.addr, asWritten))))
  {
    hide Analyze, Shaped, Placed, EpilogueHits, Sweep, OnlyFirst;
    var fn := FnOf(f.addr, f.len, Analyze(isa, base, at, at + f.len, f.addr, asWritten));
    var l := Sweep(isa, base, at, at + f.len).instrs;
    AcceptedReads(isa, base, at, f.addr, f.len, asWritten);
    assert Decodes(isa, base[at..at + f.len], l);
    ReadsShaped(isa, base, at, fn, l, asWritten);
    ReadsPlaced(isa, base, at, fn, l, asWritten);
  }

  /** Every function of the list is one of fs. */
  ghost predicate From(fns: seq<Fn>, fs: seq<Function>) {
    forall k :: 0 <= k < |fns| ==> Function(fns[k].addr, fns[k].len) in fs
  }

  lemma FromMore(fns: seq<Fn>, fs: seq<Function>, i: nat)
    requires i < |fs| && From(fns, fs[..i])
    ensures From(fns, fs[..i + 1])
  {
    assert fs[..i + 1] == fs[..i] + [fs[i]];
  }

  ghost predicate AllPlaced(isa: Isa, base: seq<byte>, orig: u64, data: Option<nat>, length: u64, fns: seq<Fn>) {
    var sites := SitesOf(orig, data, length, fns);
    && AllSound(isa, base, sites) && Located(sites, orig, data, length)
    && forall k :: 0 <= k < |fns| ==> fns[k].addr + fns[k].len < orig + length
  }

  lemma NonePlaced(isa: Isa, base: seq<byte>, orig: u64, data: Option<nat>, length: u64)
    ensures AllPlaced(isa, base, orig, data, length, [])
  {
  }

  /** Places in the text window are as far apart as their addresses. */
  lemma LocateApart(orig: u64, data: Option<nat>, length: u64, a: u64, b: u64)
    requires Locate(orig, data, length, a).Some? && Locate(orig, data, length, b).Some?
    ensures Locate(orig, data, length, a).value - Locate(orig, data, length, b).value == a - b
  {
  }

  lemma FromOneMore(fns: seq<Fn>, fs: seq<Function>, i: nat, fn: Fn)
    requires i < |fs| && From(fns, fs[..i]) && fs[i] == Function(fn.addr, fn.len)
    ensures From(fns + [fn], fs[..i + 1])
  {
    FromMore(fns, fs, i);
    assert fs[..i + 1][i] == fs[i];
  }

  lemma NewApart(fns: seq<Fn>, fs: seq<Function>, i: nat, fn: Fn, k: nat)
    requires i < |fs| && From(fns, fs[..i]) && Disjoint(fs) && fs[i] == Function(fn.addr, fn.len) && k < |fns|
    ensures fns[k].addr + fns[k].len <= fn.addr || fn.addr + fn.len <= fns[k].addr
  {
    assert Function(fns[k].addr, fns[k].len) in fs[..i];
    var r :| 0 <= r < i && fs[..i][r] == Function(fns[k].addr, fns[k].len);
    assert fs[r].addr + fs[r].len <= fs[i].addr || fs[i].addr + fs[i].len <= fs[r].addr;
  }

  /** Admitting one more function that overlaps none of the others keeps all of them placed. */
  lemma OneMorePlaced(isa: Isa, base: seq<byte>, orig: u64, data: Option<nat>, length: u64,
                      fns: seq<Fn>, fs: seq<Function>, i: nat, fn: Fn)
    requires i < |fs| && AllPlaced(isa, base, orig, data, length, fns) && From(fns, fs[..i])
    requires Disjoint(fs) && fs[i] == Function(fn.addr, fn.len)
    requires Locate(orig, data, length, fn.addr).Some? && fn.addr + fn.len < orig + length
    requires SoundAt(isa, base, Site(Locate(orig, data, length, fn.addr).value, fn))
    ensures AllPlaced(isa, base, orig, data, length, fns + [fn]) && From(fns + [fn], fs[..i + 1])
  {
    hide SoundAt, Locate, From, Disjoint;
    var all := fns + [fn];
    var old_, sites := SitesOf(orig, data, length, fns), SitesOf(orig, data, length, all);
    assert forall k :: 0 <= k < |fns| ==> all[k] == fns[k] && sites[k] == old_[k];
    assert forall k :: 0 <= k < |fns| ==> Locate(orig, data, length, fns[k].addr).Some?;
    FromOneMore(fns, fs, i, fn);
    forall k | 0 <= k < |fns|
      ensures sites[k].at + sites[k].fn.len <= sites[|fns|].at || sites[|fns|].at + sites[|fns|].fn.len <= sites[k].at
    {
      NewApart(fns, fs, i, fn, k);
      LocateApart(orig, data, length, fns[k].addr, fn.addr);
    }
  }

  /** What loading depends on: the bytes of the image and their address in the memory of this
      process, the text window over them, and the transformer. */
  datatype Setup = Setup(isa: Isa, asWritten: bool, image: seq<byte>, mapping: u64,
                         orig: u64, data: Option<nat>, length: u64)

  /** A return code and the functions that have been accepted. */
  datatype Loading = Loading(rc: Rc, fns: seq<Fn>)

  /** What process_function makes of one function. */
  ghost function Processed(s: Setup, f: Function): (r: Loading)
    requires Lawful(s.isa)
    ensures |r.fns| <= 1 && (r.fns != [] ==> r.rc == Success)
  {
    var at := Locate(s.orig, s.data, s.length, f.addr);
    if !Inside(s.orig, s.length, f.addr) || !Inside(s.orig, s.length, Add(f.addr, f.len)) then Loading(Success, [])
    else if at.None? || at.value > |s.image| then Loading(Undefined, [])
    else
      var found := Analyze(s.isa, s.image, at.value, EndIndex(s.mapping, at.value, f.len), f.addr, s.asWritten);
      Loading(Success, if found.Accepted? then [FnOf(f.addr, f.len, found)] else [])
  }

  /** What offering functions one after the other comes to; a failure ends it. */
  ghost function LoadedFrom(s: Setup, fs: seq<Function>): (r: Loading)
    requires Lawful(s.isa)
  {
    if fs == [] then Loading(Success, [])
    else
      var n := |fs| - 1;
      var before, last := LoadedFrom(s, fs[..n]), Processed(s, fs[n]);
      if before.rc != Success then before else Loading(last.rc, before.fns + last.fns)
  }

  lemma LoadedNext(s: Setup, fs: seq<Function>, i: nat)
    requires Lawful(s.isa) && i < |fs| && LoadedFrom(s, fs[..i]).rc == Success
    ensures var r := Processed(s, fs[i]);
      LoadedFrom(s, fs[..i + 1]) == Loading(r.rc, LoadedFrom(s, fs[..i]).fns + r.fns)
  {
    hide Processed;
    assert fs[..i + 1][..i] == fs[..i];
  }

  lemma {:induction false} LoadedStops(s: Setup, fs: seq<Function>, i: nat)
    requires Lawful(s.isa) && i <= |fs| && LoadedFrom(s, fs[..i]).rc != Success
    ensures LoadedFrom(s, fs) == LoadedFrom(s, fs[..i])
    decreases |fs|
  {
    hide Processed;
    var n := |fs| - 1;
    if i == |fs| {
      assert fs[..i] == fs;
    } else {
      assert fs[..n][..i] == fs[..i];
      LoadedStops(s, fs[..n], i);
    }
  }

  /** The text window lies in the image. */
  ghost predicate Backed(s: Setup) {
    && s.mapping + |s.image| < WORD
    && s.data.Some? && s.data.value + s.length <= |s.image|
  }

  /** The function lies in the text section and does not reach up to its end. */
  predicate InTextSection(s: Setup, f: Function) {
    s.orig <= f.addr && f.addr + f.len < s.orig + s.length < WORD
  }

  /** A function that is to be permuted: its bytes, in the text section, are a permutable list of
      instructions. */
  ghost predicate Qualifies(s: Setup, f: Function)
    requires Backed(s)
  {
    && InTextSection(s, f)
    && var at := s.data.value + (f.addr - s.orig);
       exists l :: Decodes(s.isa, s.image[at..at + f.len], l) && Permutable(l)
  }

  /** A function is admitted exactly when it qualifies. In particular one that ends where the text
      section ends never is. */
  lemma ProcessedExactly(s: Setup, f: Function)
    requires Lawful(s.isa) && Backed(s)
    ensures Processed(s, f).rc == Success
    ensures Processed(s, f).fns != [] <==> Qualifies(s, f)
    ensures Processed(s, f).fns != [] ==>
      var at := s.data.value + (f.addr - s.orig);
      && Analyze(s.isa, s.image, at, at + f.len, f.addr, s.asWritten).Accepted?
      && Processed(s, f).fns == [FnOf(f.addr, f.len, Analyze(s.isa, s.image, at, at + f.len, f.addr, s.asWritten))]
  {
    hide Analyze, Permutable, Decodes, Processed;
    if InTextSection(s, f) {
      ProcessedInside(s, f);
      AcceptedExactly(s.isa, s.image, s.data.value + (f.addr - s.orig), f.addr, f.len, s.asWritten);
    } else {
      ProcessedOutside(s, f);
    }
  }

  lemma ProcessedInside(s: Setup, f: Function)
    requires Lawful(s.isa) && Backed(s) && InTextSection(s, f)
    ensures var at := s.data.value + (f.addr - s.orig);
      var found := Analyze(s.isa, s.image, at, at + f.len, f.addr, s.asWritten);
      Processed(s, f) == Loading(Success, if found.Accepted? then [FnOf(f.addr, f.len, found)] else [])
  {
    hide Analyze, Inside, Locate, EndIndex, Add;
    BothInside(s.orig, s.data.value, s.length, f);
    EndExact(s.mapping, s.data.value + (f.addr - s.orig), f.len);
  }

  lemma BothInside(orig: u64, data: nat, length: u64, f: Function)
    requires orig <= f.addr && f.addr + f.len < orig + length < WORD
    ensures Inside(orig, length, f.addr) && Inside(orig, length, Add(f.addr, f.len))
    ensures Locate(orig, Some(data), length, f.addr) == Some(data + (f.addr - orig))
  {
  }

  lemma EndExact(base: u64, bytes: nat, len: u64)
    requires base + bytes + len < WORD
    ensures EndIndex(base, bytes, len) == bytes + len
  {
  }

  lemma ProcessedOutside(s: Setup, f: Function)
    requires Lawful(s.isa) && Backed(s) && !InTextSection(s, f)
    ensures Processed(s, f) == Loading(Success, [])
  {
    hide Analyze;
    if Inside(s.orig, s.length, f.addr) && Inside(s.orig, s.length, Add(f.addr, f.len)) {
      var at := Locate(s.orig, s.data, s.length, f.addr).value;
      if Analyze(s.isa, s.image, at, EndIndex(s.mapping, at, f.len), f.addr, s.asWritten).Accepted? {
        AcceptedInside(s.isa, s.image, s.mapping, at, f.len, f.addr, s.asWritten);
        assert false;
      }
    }
  }

  /** What is not admitted is skipped with success, except that the code of a function whose ends are in
      the text window may lie behind the image. */
  lemma ProcessedFails(s: Setup, f: Function)
    requires Lawful(s.isa)
    ensures Processed(s, f).rc == Success || Processed(s, f).rc == Undefined
    ensures var end := (f.addr + f.len) % 0x1_0000_0000_0000_0000;
      Processed(s, f).rc == Undefined <==>
        && s.orig <= f.addr && s.orig <= end && f.addr < s.orig + s.length < WORD && end < s.orig + s.length
        && (s.data.None? || s.data.value + (f.addr - s.orig) > |s.image|)
  {
    hide Analyze;
  }

  /** The functions are offered in order up to the first failure, and each adds what it comes to. */
  ghost predicate Offered(s: Setup, fs: seq<Function>, ls: seq<seq<Fn>>, r: Loading)
    requires Lawful(s.isa)
  {
    && 1 <= |ls| <= |fs| + 1 && ls[0] == [] && r.fns == ls[|ls| - 1]
    && (forall k :: 0 <= k < |ls| - 1 ==>
         Processed(s, fs[k]).rc == Success && ls[k + 1] == ls[k] + Processed(s, fs[k]).fns)
    && r.rc == (if |ls| - 1 == |fs| then Success else Processed(s, fs[|ls| - 1]).rc)
    && (|ls| - 1 < |fs| ==> r.rc != Success)
  }

  lemma {:induction false} LoadedInOrder(s: Setup, fs: seq<Function>) returns (ls: seq<seq<Fn>>)
    requires Lawful(s.isa)
    ensures Offered(s, fs, ls, LoadedFrom(s, fs))
    decreases |fs|
  {
    hide Processed;
    if fs == [] {
      ls := [[]];
    } else {
      var n := |fs| - 1;
      ls := LoadedInOrder(s, fs[..n]);
      assert forall k :: 0 <= k < n ==> fs[..n][k] == fs[k];
      var last := Processed(s, fs[n]);
      if LoadedFrom(s, fs[..n]).rc == Success && last.rc == Success {
        ls := ls + [ls[n] + last.fns];
      } else if LoadedFrom(s, fs[..n]).rc == Success {
        FailsEmpty(s, fs[n]);
      }
    }
  }

  lemma FailsEmpty(s: Setup, f: Function)
    requires Lawful(s.isa) && Processed(s, f).rc != Success
    ensures Processed(s, f).fns == []
  {
  }

  /** fns are the functions at the places idx of fs, as the scan found them, and these are all the
      places with functions that qualify, in order. */
  ghost predicate Picks(s: Setup, fs: seq<Function>, fns: seq<Fn>, idx: seq<nat>)
    requires Lawful(s.isa) && Backed(s)
  {
    && |idx| == |fns|
    && (forall k :: 0 <= k < |idx| ==> idx[k] < |fs| && [fns[k]] == Processed(s, fs[idx[k]]).fns)
    && (forall j, k :: 0 <= j < k < |idx| ==> idx[j] < idx[k])
    && (forall i :: 0 <= i < |fs| ==> (i in idx <==> Qualifies(s, fs[i])))
  }

  /** Loading succeeds and admits exactly the functions that qualify, each once and in order. */
  lemma {:induction false} LoadedExactly(s: Setup, fs: seq<Function>) returns (idx: seq<nat>)
    requires Lawful(s.isa) && Backed(s)
    ensures LoadedFrom(s, fs).rc == Success && Picks(s, fs, LoadedFrom(s, fs).fns, idx)
    decreases |fs|
  {
    hide Processed, Qualifies, Backed, Picks;
    if fs == [] {
      idx := [];
      PicksNone(s);
    } else {
      var n := |fs| - 1;
      var before := LoadedExactly(s, fs[..n]);
      assert fs[..n + 1] == fs;
      LoadedNext(s, fs, n);
      ProcessedExactly(s, fs[n]);
      PicksNext(s, fs, LoadedFrom(s, fs[..n]).fns, before);
      idx := before + if Qualifies(s, fs[n]) then [n] else [];
    }
  }

  lemma PicksNone(s: Setup)
    requires Lawful(s.isa) && Backed(s)
    ensures Picks(s, [], [], [])
  {
  }

  lemma PicksNext(s: Setup, fs: seq<Function>, fns: seq<Fn>, before: seq<nat>)
    requires Lawful(s.isa) && Backed(s) && fs != [] && Picks(s, fs[..|fs| - 1], fns, before)
    requires Processed(s, fs[|fs| - 1]).fns != [] <==> Qualifies(s, fs[|fs| - 1])
    ensures var n := |fs| - 1;
      Picks(s, fs, fns + Processed(s, fs[n]).fns, before + if Qualifies(s, fs[n]) then [n] else [])
  {
    hide Processed, Qualifies, Backed;
    var n := |fs| - 1;
    var idx := before + if Qualifies(s, fs[n]) then [n] else [];
    assert forall k :: 0 <= k < |before| ==> before[k] < n && fs[..n][before[k]] == fs[before[k]];
    forall i | 0 <= i < |fs|
      ensures i in idx <==> Qualifies(s, fs[i])
    {
      if i < n {
        assert fs[..n][i] == fs[i];
      }
      assert i in idx <==> i in before || (i == n && Qualifies(s, fs[n]));
    }
  }

  /** The functions do no harm where they are. */
  ghost predicate AllSteady(s: Setup, fs: seq<Function>) {
    forall i :: 0 <= i < |fs| ==>
      var at := Locate(s.orig, s.data, s.length, fs[i].addr);
      at.Some? ==> Steady(s.isa, s.image, at.value, fs[i], s.asWritten)
  }

  /** Functions that do not overlap, and that drift does not harm, are sound once loaded. */
  lemma {:induction false} LoadedPlaced(s: Setup, fs: seq<Function>)
    requires Lawful(s.isa) && s.mapping + |s.image| < WORD && Disjoint(fs) && AllSteady(s, fs)
    ensures AllPlaced(s.isa, s.image, s.orig, s.data, s.length, LoadedFrom(s, fs).fns)
    ensures From(LoadedFrom(s, fs).fns, fs)
    decreases |fs|
  {
    hide AllPlaced, Analyze, Steady, Locate, Inside;
    if fs == [] {
      NonePlaced(s.isa, s.image, s.orig, s.data, s.length);
    } else {
      var n := |fs| - 1;
      assert Disjoint(fs[..n]) && AllSteady(s, fs[..n]);
      LoadedPlaced(s, fs[..n]);
      assert fs[..n + 1] == fs;
      var before, r := LoadedFrom(s, fs[..n]), Processed(s, fs[n]);
      if before.rc == Success && r.fns != [] {
        ProcessedSound(s, fs[n]);
        OneMorePlaced(s.isa, s.image, s.orig, s.data, s.length, before.fns, fs, n, r.fns[0]);
      } else {
        FromMore(before.fns, fs, n);
        assert before.fns + [] == before.fns;
      }
    }
  }

  /** A function that is admitted is sound at its place in the text window. */
  lemma ProcessedSound(s: Setup, f: Function)
    requires Lawful(s.isa) && s.mapping + |s.image| < WORD && Processed(s, f).fns != []
    requires var at := Locate(s.orig, s.data, s.length, f.addr);
      at.Some? ==> Steady(s.isa, s.image, at.value, f, s.asWritten)
    ensures var at, fn := Locate(s.orig, s.data, s.length, f.addr), Processed(s, f).fns[0];
      && at.Some? && SoundAt(s.isa, s.image, Site(at.value, fn))
      && fn.addr == f.addr && fn.len == f.len && f.addr + f.len < s.orig + s.length
  {
    hide Analyze, Steady, SoundAt;
    var at := Locate(s.orig, s.data, s.length, f.addr).value;
    AcceptedInside(s.isa, s.image, s.mapping, at, f.len, f.addr, s.asWritten);
    InsideText(s.orig, s.data, s.length, f.addr, f.len, s.mapping, |s.image|, at);
    AcceptedSound(s.isa, s.image, at, f, s.asWritten);
  }

  /** The return code of map_code_pages. */
  function MapOutcome(file: seq<byte>, seg: Segment): (rc: Rc)
    ensures rc == ESegNotLoadable <==> !seg.loadable
    ensures rc == Success <==>
      seg.loadable && seg.offset + seg.filesz <= |file| && seg.filesz <= PageUp(seg.memsz)
  {
    if !seg.loadable then ESegNotLoadable
    else if seg.offset + seg.filesz <= |file| && seg.filesz <= PageUp(seg.memsz) then Success
    else Undefined
  }

  /** The setup that mapping a file leads to. */
  ghost function SetupFor(isa: Isa, asWritten: bool, file: seq<byte>, section: Section, seg: Segment, place: u64): Setup
    requires MapOutcome(file, seg) == Success
  {
    Setup(isa, asWritten, Mapped(file, seg), place,
          SectionAddress(section.addr), Some(Sub(section.offset, seg.offset)), section.size)
  }

  class Handle {
    /** The code image, and the address of its first byte in the memory of this process. */
    var buffer: array<byte>
    var mapping: u64

    const segment: Window
    const text: Window
    const transform: Transform

    /** Not set before rave_relocate runs. */
    var reloc: u64

    /** The image as it was mapped. */
    ghost var base: seq<byte>

    constructor (isa: Isa, asWritten: bool, unset: u64)
      requires Lawful(isa)
      ensures Valid() && fresh(buffer) && fresh(segment) && fresh(text) && fresh(transform)
      ensures transform.isa == isa && transform.asWritten == asWritten && transform.transformables == []
    {
      buffer := new byte[0];
      mapping, reloc, base := 0, unset, [];
      segment := new Window(0, Some(0), 0);
      text := new Window(0, None, 0);
      transform := new Transform(isa, asWritten);
    }

    ghost predicate Valid()
      reads `buffer, `mapping, `base, segment, text, transform, Tables(transform.transformables)
    {
      && transform.Valid()
      && segment != text
      && segment.data == Some(0) && segment.length == buffer.Length && mapping + buffer.Length < WORD
      && |base| == buffer.Length
    }

    ghost function Sites(): seq<Site>
      reads text, transform
    {
      SitesOf(text.orig, text.data, text.length, FnsOf(transform.transformables))
    }

    /** The text window finds every function at its place and holds all of it, no two functions
        overlap, and every recorded set is where the scan meant it to be. */
    ghost predicate FunctionsPlaced()
      reads `base, text, transform
    {
      AllPlaced(transform.isa, base, text.orig, text.data, text.length, FnsOf(transform.transformables))
    }

    /** The image is the mapped one with every function rewritten by its current slot table. */
    ghost predicate Sound()
      reads `buffer, `base, text, transform, Tables(transform.transformables), buffer
    {
      && FunctionsPlaced()
      && OrdersFit(Sites(), OrdersOf(transform.transformables))
      && buffer[..] == TextFor(transform.isa, base, Sites(), OrdersOf(transform.transformables))
    }

    /** Both windows over a new mapping at address place. */
    method SetWindows(image: array<byte>, section: Section, seg: Segment, place: u64)
      requires Valid() && place + image.Length < WORD
      modifies this, segment, text
      ensures Valid() && buffer == image && base == image[..] && mapping == place && reloc == old(reloc)
      ensures segment.orig == seg.vaddr && segment.data == Some(0) && segment.length == image.Length
      ensures text.orig == SectionAddress(section.addr) && text.data == Some(Sub(section.offset, seg.offset))
      ensures text.length == section.size
    {
      hide Transform.Valid, SectionAddress, PageUp;
      buffer := image;
      mapping := place;
      segment.Init(seg.vaddr, Some(0), image.Length);
      text.Init(SectionAddress(section.addr), Some(Sub(section.offset, seg.offset)), section.size);
      base := image[..];
      TransformKept();
    }

    /** The transformer is valid as long as nothing of it has changed. */
    twostate lemma TransformKept()
      requires old(transform.Valid())
      requires unchanged(transform) && unchanged(Tables(transform.transformables))
      ensures transform.Valid()
    {
    }

    /** Map the code segment and set up both windows over it. */
    method MapCodePages(file: seq<byte>, section: Section, seg: Segment, place: u64) returns (rc: Rc)
      requires Valid() && place + PageUp(seg.memsz) < WORD
      modifies this, segment, text
      ensures rc == MapOutcome(file, seg)
      ensures rc == ESegNotLoadable <==> !seg.loadable
      ensures rc == Success <==>
        seg.loadable && seg.offset + seg.filesz <= |file| && seg.filesz <= PageUp(seg.memsz)
      ensures Valid()
      ensures rc == Success ==>
        && fresh(buffer) && buffer[..] == base == Mapped(file, seg)
        && buffer[..seg.filesz] == file[seg.offset..seg.offset + seg.filesz]
        && (forall x :: seg.filesz <= x < buffer.Length ==> buffer[x] == 0)
        && mapping == place && reloc == old(reloc)
        && segment.orig == seg.vaddr && segment.data == Some(0) && segment.length == PageUp(seg.memsz)
        && text.orig == SectionAddress(section.addr) && text.data == Some(Sub(section.offset, seg.offset))
        && text.length == section.size
    {
      hide Shaped, SlotsAgree, IsPerm, NoneEmpty, Mapped, PageUp;
      if !seg.loadable {
        return ESegNotLoadable;
      }
      var length := PageUp(seg.memsz);
      if seg.offset + seg.filesz > |file| || seg.filesz > length {
        return Undefined;
      }
      var image := CopySegment(file, seg);
      assert OrdersOf(transform.transformables) == old(OrdersOf(transform.transformables));
      SetWindows(image, section, seg, place);
      rc := Success;
    }

    ghost function Setting(): (s: Setup)
      reads `buffer, `mapping, text, transform, buffer
      ensures s.isa == transform.isa && s.image == buffer[..]
    {
      Setup(transform.isa, transform.asWritten, buffer[..], mapping, text.orig, text.data, text.length)
    }

    /** Offer a function to the transformer if the text window holds its range. */
    method ProcessFunction(f: Function) returns (rc: Rc)
      requires Valid()
      modifies transform`transformables
      ensures Valid()
      ensures var r := Processed(Setting(), f);
        && rc == r.rc
        && if r.fns == [] then transform.transformables == old(transform.transformables)
           else Added(old(transform.transformables), transform.transformables, r.fns[0])
      ensures transform.transformables != old(transform.transformables) ==>
        fresh(transform.transformables[|transform.transformables| - 1].order)
    {
      hide Analyze, Shaped, SlotsAgree, NoneEmpty, IsPerm, Locate;
      if !text.ContainsAddress(f.addr) || !text.ContainsAddress(Add(f.addr, f.len)) {
        return Success;
      }
      var bytes, left := text.View(f.addr);
      assert OrdersOf(transform.transformables) == old(OrdersOf(transform.transformables));
      if bytes.None? || bytes.value > buffer.Length {
        return Undefined;
      }
      var added := transform.AddFunction(f.addr, f.len, buffer, mapping, bytes.value);
      rc := Success;
    }

    /** Every slot table is as it was when its function was accepted. */
    ghost predicate Untouched()
      reads transform, Tables(transform.transformables)
    {
      var tfs := transform.transformables;
      forall k :: 0 <= k < |tfs| ==> tfs[k].order[..] == Identity(tfs[k].fn.Slots())
    }

    /** One more function, or none, has joined the list; the slot tables of the others are as they
        were. */
    twostate lemma Joined(fns: seq<Fn>)
      requires |fns| <= 1 && unchanged(old(Tables(transform.transformables)))
      requires if fns == [] then transform.transformables == old(transform.transformables)
               else Added(old(transform.transformables), transform.transformables, fns[0])
      requires transform.transformables != old(transform.transformables) ==>
        fresh(transform.transformables[|transform.transformables| - 1].order)
      ensures FnsOf(transform.transformables) == old(FnsOf(transform.transformables)) + fns
      ensures old(Untouched()) ==> Untouched()
      ensures fresh(Tables(transform.transformables) - old(Tables(transform.transformables)))
    {
      var tfs, tfs' := old(transform.transformables), transform.transformables;
      assert forall k :: 0 <= k < |tfs| ==> tfs'[k] == tfs[k] && tfs[k].order in Tables(tfs);
    }

    /** Offer every function to the transformer. With functions that do not overlap, and that drift
        does not harm, the handle is sound afterwards. */
    method ForEachFunction(fs: seq<Function>) returns (rc: Rc)
      requires Valid() && buffer[..] == base && transform.transformables == []
      modifies transform`transformables
      ensures Valid() && Untouched() && fresh(Tables(transform.transformables))
      ensures Loading(rc, FnsOf(transform.transformables)) == LoadedFrom(Setting(), fs)
      ensures Disjoint(fs) && AllSteady(Setting(), fs) ==> Sound()
    {
      hide AllPlaced, Shaped, SlotsAgree, IsPerm, NoneEmpty, Disjoint, Processed, AllSteady, Locate, Added;
      rc := Success;
      ghost var s := Setting();
      var i := 0;
      assert fs[..0] == [];
      while i < |fs|
        invariant i <= |fs| && Valid() && Untouched() && rc == Success
        invariant fresh(Tables(transform.transformables))
        invariant Loading(Success, FnsOf(transform.transformables)) == LoadedFrom(s, fs[..i])
      {
        LoadedNext(s, fs, i);
        label before:
        rc := ProcessFunction(fs[i]);
        Joined@before(Processed(s, fs[i]).fns);
        i := i + 1;
        if rc != Success {
          LoadedStops(s, fs, i);
          break;
        }
      }
      assert rc == Success ==> fs[..i] == fs;
      if Disjoint(fs) && AllSteady(s, fs) {
        LoadedSound(fs);
      }
    }

    lemma LoadedSound(fs: seq<Function>)
      requires Valid() && Untouched() && buffer[..] == base && Disjoint(fs) && AllSteady(Setting(), fs)
      requires FnsOf(transform.transformables) == LoadedFrom(Setting(), fs).fns
      ensures Sound()
    {
      hide AllSound, Locate, TextFor, Disjoint, AllSteady, LoadedFrom, TablesFit;
      LoadedPlaced(Setting(), fs);
      assert OrdersOf(transform.transformables) == Identities(Sites());
      IdentityText(transform.isa, base, Sites());
    }

    /** Map the image and offer it the functions that the metadata lists. */
    method Init(file: seq<byte>, section: Section, seg: Segment, place: u64, fs: seq<Function>) returns (rc: Rc)
      requires Valid() && place + PageUp(seg.memsz) < WORD && transform.transformables == []
      modifies this, segment, text, transform`transformables
      ensures Valid() && Untouched() && fresh(Tables(transform.transformables))
      ensures var mapped := MapOutcome(file, seg);
        if mapped != Success then
          rc == mapped && transform.transformables == []
        else
          var s := SetupFor(transform.isa, transform.asWritten, file, section, seg, place);
          && fresh(buffer) && Setting() == s && base == s.image && reloc == old(reloc)
          && segment.orig == seg.vaddr && segment.data == Some(0) && segment.length == PageUp(seg.memsz)
          && Loading(rc, FnsOf(transform.transformables)) == LoadedFrom(s, fs)
          && (Disjoint(fs) && AllSteady(s, fs) ==> Sound())
    {
      hide AllSteady, Disjoint, LoadedFrom, PageUp, Mapped;
      rc := MapCodePages(file, section, seg, place);
      if rc != Success {
        return;
      }
      rc := ForEachFunction(fs);
    }

    /** Trigger a randomization. */
    method Randomize(rand: nat -> nat, from: nat) returns (rc: Rc, next: nat)
      requires Valid()
      modifies buffer, Tables(transform.transformables)
      ensures Valid()
      ensures Outcome(rc, buffer[..], OrdersOf(transform.transformables), next)
           == PermutedAll(transform.isa, old(buffer[..]), text.orig, text.data, text.length,
                          FnsOf(transform.transformables), old(OrdersOf(transform.transformables)), rand, from)
      ensures old(Sound()) ==> rc == Success && Sound()
    {
      hide TextFor, AllSound, Locate, TablesFit, PermutedAll;
      ghost var sites, orders := Sites(), OrdersOf(transform.transformables);
      if Sound() {
        RandomizeOnce(transform.isa, base, sites, orders, text.orig, text.data, text.length, rand, from);
        assert FnsAt(sites) == FnsOf(transform.transformables);
      }
      rc, next := transform.PermuteAll(text, buffer, rand, from);
    }

    /** The segment is now loaded at another address. */
    method Relocate(address: u64)
      requires Valid()
      modifies this`reloc
      ensures Valid() && reloc == Sub(segment.orig, address)
      ensures old(Sound()) ==> Sound()
    {
      hide TextFor, AllSound, Locate, TablesFit, SlotsAgree, Shaped, IsPerm;
      ghost var sites, orders := Sites(), OrdersOf(transform.transformables);
      reloc := Sub(segment.orig, address);
      assert Sites() == sites && OrdersOf(transform.transformables) == orders;
    }

    /** The place in the image of the page that holds an address, None for no page. */
    method HandleFault(address: u64) returns (page: Option<nat>)
      requires Valid()
      ensures page == ServedAt(segment.orig, segment.length, reloc, address)
      ensures var a := (address - address % 4096 + reloc) % 0x1_0000_0000_0000_0000;
        && (page.Some? <==> segment.orig <= a && a + 4096 <= segment.orig + segment.length < WORD)
        && (page.Some? ==> page.value == a - segment.orig)
    {
      var a := Add(PageDown(address), reloc);
      if !segment.ContainsAddress(a) {
        return None;
      }
      var place, left := segment.View(a);
      if left < PAGESZ {
        return None;
      }
      page := place;
    }
  }

  /** What a fault at an address returns, for a segment window over the whole image. */
  function ServedAt(orig: u64, length: u64, reloc: u64, address: u64): Option<nat> {
    var a := Add(PageDown(address), reloc);
    if Inside(orig, length, a) && length - Sub(a, orig) >= PAGESZ then Some(Sub(a, orig)) else None
  }
}
