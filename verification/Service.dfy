/** What the pages served from the image hold, and which faults are served. */
module Service {
  import opened Words
  import opened Instrs
  import opened Orders
  import opened Layout
  import opened Windows
  import opened Image
  import opened Transform
  import opened Randomize
  import opened Machine
  import opened Calls
  import opened Meaning
  import opened Rave

  lemma OffsetKept(orig: u64, load: u64, pd: u64)
    ensures Sub(Add(pd, Sub(orig, load)), orig) == Sub(pd, load)
  {
    var d := Sub(orig, load);
    assert d == orig - load || d == orig - load + WORD;
    assert Add(pd, d) == pd + d || Add(pd, d) == pd + d - WORD;
  }

  lemma InsideOffset(orig: u64, length: u64, load: u64, pd: u64)
    requires orig + length < WORD
    ensures Inside(orig, length, Add(pd, Sub(orig, load))) <==> Sub(pd, load) < length
  {
    hide Sub, Add, Inside;
    OffsetKept(orig, load, pd);
    InsideSub(orig, length, Add(pd, Sub(orig, load)));
  }

  lemma InsideSub(orig: u64, length: u64, a: u64)
    requires orig + length < WORD
    ensures Inside(orig, length, a) <==> Sub(a, orig) < length
  {
  }

  lemma AlignedOffset(load: u64, a: u64)
    requires load % PAGESZ == 0
    ensures Sub(PageDown(a), load) % PAGESZ == 0
  {
  }

  /** Serving after relocation to a page-aligned address. A fault is served exactly when its page
      lies in the range of the image counted from the load address, modulo 2^64, and then by the
      page at that offset. */
  lemma ServedExactly(orig: u64, length: u64, load: u64, address: u64)
    requires load % PAGESZ == 0 && length % PAGESZ == 0 && orig + length < WORD
    ensures var off := Sub(PageDown(address), load);
      && off % PAGESZ == 0
      && ServedAt(orig, length, Sub(orig, load), address) == (if off < length then Some(off) else None)
      && (off < length ==> off + PAGESZ <= length)
  {
    hide Sub, Add, PageDown;
    OffsetKept(orig, load, PageDown(address));
    InsideOffset(orig, length, load, PageDown(address));
    AlignedOffset(load, address);
  }

  /** An image that reaches the top of the address space is never served. */
  lemma NothingServed(orig: u64, length: u64, reloc: u64, address: u64)
    requires orig + length >= WORD
    ensures ServedAt(orig, length, reloc, address) == None
  {
    InsideWrapped(orig, length, Add(PageDown(address), reloc));
  }

  lemma WrapBack(load: u64, x: nat)
    requires x < WORD
    ensures Sub(Add(load, x), load) == x
  {
  }

  lemma AlignedSum(load: u64, x: nat)
    requires load % PAGESZ == 0 && x % PAGESZ == 0 && x < WORD
    ensures PageDown(Add(load, x)) == Add(load, x)
  {
  }

  /** Byte x of the image lies in a page that some fault is served. */
  ghost predicate ByteServed(orig: u64, length: u64, reloc: u64, x: nat) {
    exists address: u64 :: ServesByte(orig, length, reloc, address, x)
  }

  ghost predicate ServesByte(orig: u64, length: u64, reloc: u64, address: u64, x: nat) {
    var p := ServedAt(orig, length, reloc, address);
    p.Some? && p.value <= x < p.value + PAGESZ
  }

  lemma PageServed(orig: u64, length: u64, load: u64, x: nat)
    requires load % PAGESZ == 0 && length % PAGESZ == 0 && orig + length < WORD && x < length
    ensures ServesByte(orig, length, Sub(orig, load), Add(load, x - x % PAGESZ), x)
  {
    var p := x - x % PAGESZ;
    AlignedSum(load, p);
    WrapBack(load, p);
    ServedExactly(orig, length, load, Add(load, p));
  }

  /** Every byte of the image can be served if and only if the load address is page-aligned. */
  lemma WholeImageServed(orig: u64, length: u64, load: u64)
    requires 0 < length && length % PAGESZ == 0 && orig + length < WORD
    ensures (forall x :: 0 <= x < length ==> ByteServed(orig, length, Sub(orig, load), x)) <==> load % PAGESZ == 0
  {
    hide ServesByte, Sub;
    if load % PAGESZ == 0 {
      forall x | 0 <= x < length
        ensures ByteServed(orig, length, Sub(orig, load), x)
      {
        PageServed(orig, length, load, x);
      }
    }
    if ByteServed(orig, length, Sub(orig, load), 0) {
      FirstByteAligned(orig, length, load);
    }
  }

  lemma FirstByteAligned(orig: u64, length: u64, load: u64)
    requires ByteServed(orig, length, Sub(orig, load), 0)
    ensures load % PAGESZ == 0
  {
    hide Inside, PageDown, Sub;
    var address: u64 :| ServesByte(orig, length, Sub(orig, load), address, 0);
    OffsetKept(orig, load, PageDown(address));
    assert Sub(PageDown(address), load) == 0;
    SubZero(address, load);
  }

  lemma SubZero(address: u64, load: u64)
    requires Sub(PageDown(address), load) == 0
    ensures load % PAGESZ == 0
  {
    assert PageDown(address) == load;
  }

  lemma SubInjective(a: u64, b: u64, load: u64)
    ensures Sub(a, load) == Sub(b, load) <==> a == b
  {
  }

  lemma AlignedApart(p: nat, q: nat)
    requires p % PAGESZ == 0 && q % PAGESZ == 0 && p != q
    ensures p + PAGESZ <= q || q + PAGESZ <= p
  {
  }

  /** The pages served tile the image: two faults get the same page when their addresses lie in
      one page, and otherwise pages without a common byte. */
  lemma PagesTile(orig: u64, length: u64, load: u64, a: u64, b: u64)
    requires load % PAGESZ == 0 && length % PAGESZ == 0 && orig + length < WORD
    requires ServedAt(orig, length, Sub(orig, load), a).Some?
    requires ServedAt(orig, length, Sub(orig, load), b).Some?
    ensures var p := ServedAt(orig, length, Sub(orig, load), a).value;
      var q := ServedAt(orig, length, Sub(orig, load), b).value;
      && (PageDown(a) == PageDown(b) <==> p == q)
      && (PageDown(a) != PageDown(b) ==> p + PAGESZ <= q || q + PAGESZ <= p)
  {
    hide Sub, PageDown, ServedAt;
    ServedExactly(orig, length, load, a);
    ServedExactly(orig, length, load, b);
    SubInjective(PageDown(a), PageDown(b), load);
    if PageDown(a) != PageDown(b) {
      AlignedApart(Sub(PageDown(a), load), Sub(PageDown(b), load));
    }
  }

  /** The two windows alias the image consistently - an address inside both has one place - if
      and only if the section lies as far into the segment in memory as in the file. */
  lemma WindowsAlias(section: Section, seg: Segment, address: u64)
    requires Inside(SectionAddress(section.addr), section.size, address)
    requires Inside(seg.vaddr, PageUp(seg.memsz), address)
    requires seg.vaddr <= SectionAddress(section.addr)
    ensures Locate(SectionAddress(section.addr), Some(Sub(section.offset, seg.offset)), section.size, address)
         == Locate(seg.vaddr, Some(0), PageUp(seg.memsz), address)
       <==> Sub(SectionAddress(section.addr), seg.vaddr) == Sub(section.offset, seg.offset)
  {
    hide SectionAddress, PageUp, Sub;
    PlacesAgree(SectionAddress(section.addr), Sub(section.offset, seg.offset), section.size,
                seg.vaddr, PageUp(seg.memsz), address);
  }

  lemma PlacesAgree(orig: u64, data: nat, length: u64, segOrig: u64, segLength: u64, address: u64)
    requires Inside(orig, length, address) && Inside(segOrig, segLength, address) && segOrig <= orig
    ensures Locate(segOrig, Some(0), segLength, address) == Some(address - segOrig)
    ensures Locate(orig, Some(data), length, address) == Locate(segOrig, Some(0), segLength, address)
       <==> Sub(orig, segOrig) == data
  {
    hide Sub, Inside;
    InsideFrom(orig, length, address);
    SubExact(address, orig);
    SubExact(address, segOrig);
    SubExact(orig, segOrig);
  }

  lemma InsideFrom(orig: u64, length: u64, address: u64)
    requires Inside(orig, length, address)
    ensures orig <= address
  {
  }

  lemma SubExact(a: u64, b: u64)
    requires b <= a
    ensures Sub(a, b) == a - b
  {
  }

  /** Byte x of a sound image. */
  lemma ImageByte(isa: Isa, file: seq<byte>, seg: Segment, sites: seq<Site>, orders: seq<seq<int>>, x: nat)
    requires seg.offset + seg.filesz <= |file| && seg.filesz <= PageUp(seg.memsz)
    requires AllSound(isa, Mapped(file, seg), sites) && OrdersFit(sites, orders) && x < PageUp(seg.memsz)
    ensures forall k, j :: 0 <= k < |sites| && 0 <= j < |sites[k].fn.Sets()| && InSet(sites[k], j, x) ==>
      PermutedByte(sites[k], orders[k], j, x, TextFor(isa, Mapped(file, seg), sites, orders)[x])
    ensures !InSomeSet(sites, x) ==>
      TextFor(isa, Mapped(file, seg), sites, orders)[x] == if x < seg.filesz then file[seg.offset + x] else 0
  {
    hide TextFor, Permuted, Flat, IsPerm, PageUp, Shaped;
    var base := Mapped(file, seg);
    forall k, j | 0 <= k < |sites| && 0 <= j < |sites[k].fn.Sets()| && InSet(sites[k], j, x)
      ensures PermutedByte(sites[k], orders[k], j, x, TextFor(isa, base, sites, orders)[x])
    {
      SetHolds(isa, base, sites, orders, k, j);
      var s, set_ := sites[k], sites[k].fn.Sets()[j];
      var lo, hi := s.at + (set_.start - s.fn.addr), s.at + (set_.end - s.fn.addr);
      assert TextFor(isa, base, sites, orders)[lo..hi][x - lo] == TextFor(isa, base, sites, orders)[x];
    }
    if !InSomeSet(sites, x) {
      RestHolds(isa, base, sites, orders, x);
    }
  }

  /** b is the byte that set j, rearranged by o, has at place x. */
  ghost predicate PermutedByte(s: Site, o: seq<int>, j: nat, x: int, b: byte) {
    && OrderFits(s.fn, o) && j < |s.fn.Sets()| && |s.fn.Sets()[j].instrs| == s.fn.Slots()
    && var lo := s.at + (s.fn.Sets()[j].start - s.fn.addr);
       0 <= x - lo < |Flat(Permuted(s.fn, o, j))| && b == Flat(Permuted(s.fn, o, j))[x - lo]
  }

  /** In a handle that is sound - as it is after loading, and stays through randomizations and
      relocations - every byte of every page served is the permuted byte if it lies in a recorded
      set, else the byte of the file below its size, else zero. */
  lemma PageByte(h: Handle, file: seq<byte>, seg: Segment, address: u64, i: nat)
    requires h.Valid() && h.Sound() && i < PAGESZ
    requires seg.offset + seg.filesz <= |file| && seg.filesz <= PageUp(seg.memsz) && h.base == Mapped(file, seg)
    requires ServedAt(h.segment.orig, h.segment.length, h.reloc, address).Some?
    ensures var x := ServedAt(h.segment.orig, h.segment.length, h.reloc, address).value + i;
      var sites, orders := h.Sites(), OrdersOf(h.transform.transformables);
      && |orders| == |sites| && x < h.buffer.Length
      && (forall k, j :: 0 <= k < |sites| && 0 <= j < |sites[k].fn.Sets()| && InSet(sites[k], j, x) ==>
           PermutedByte(sites[k], orders[k], j, x, h.buffer[x]))
      && (!InSomeSet(sites, x) ==> h.buffer[x] == if x < seg.filesz then file[seg.offset + x] else 0)
  {
    hide TextFor, Flat, IsPerm, PageUp, Shaped, TablesFit, Locate, AllSound;
    var x := ServedAt(h.segment.orig, h.segment.length, h.reloc, address).value + i;
    assert h.buffer[x] == h.buffer[..][x];
    ImageByte(h.transform.isa, file, seg, h.Sites(), OrdersOf(h.transform.transformables), x);
  }

  /** The segment has been relocated to a page-aligned address, does not reach the top of the
      address space, and both windows alias the image consistently. */
  ghost predicate LoadedAt(h: Handle, load: u64)
    reads h, h.segment, h.text
  {
    && h.reloc == Sub(h.segment.orig, load) && load % PAGESZ == 0
    && h.segment.length % PAGESZ == 0 && h.segment.orig + h.segment.length < WORD
    && h.segment.orig <= h.text.orig && h.text.data == Some(Sub(h.text.orig, h.segment.orig))
  }

  /** The byte at an address as a program sees it: the one of the page that a fault there is
      served, None where no fault is served. */
  ghost function ByteAt(h: Handle, address: u64): Option<byte>
    requires h.Valid()
    reads h, h.segment, h.text, h.transform, h.buffer, Tables(h.transform.transformables)
  {
    var page := ServedAt(h.segment.orig, h.segment.length, h.reloc, address);
    if page.None? then None else Some(h.buffer[page.value + address % PAGESZ])
  }

  lemma PageOf(load: u64, x: nat)
    requires load % PAGESZ == 0 && x < WORD
    ensures Sub(PageDown(Add(load, x)), load) == x - x % PAGESZ
    ensures Add(load, x) % PAGESZ == x % PAGESZ
  {
    var p, m := x - x % PAGESZ, x % PAGESZ;
    AlignedSum(load, p);
    WrapBack(load, p);
    AddInPage(Add(load, p), m);
    assert Add(load, x) == Add(load, p) + m by {
      WithinPage(load, p, m);
    }
  }

  lemma WithinPage(load: u64, p: nat, m: nat)
    requires load % PAGESZ == 0 && p % PAGESZ == 0 && m < PAGESZ && p + m < WORD
    ensures Add(load, p + m) == Add(load, p) + m
  {
  }

  lemma AddInPage(a: u64, m: nat)
    requires a % PAGESZ == 0 && m < PAGESZ && a + m < WORD
    ensures PageDown(a + m) == a && (a + m) % PAGESZ == m
  {
  }

  /** The image is seen at the load address, whole and in order. */
  lemma ImageSeen(h: Handle, load: u64, x: nat)
    requires h.Valid() && LoadedAt(h, load) && x < h.buffer.Length
    ensures ByteAt(h, Add(load, x)) == Some(h.buffer[x])
  {
    hide Sub, Add, PageDown, Shaped, TablesFit, ServedAt;
    PageOf(load, x);
    ServedExactly(h.segment.orig, h.segment.length, load, Add(load, x));
    AlignedBelow(h.segment.length, x);
  }

  lemma AlignedBelow(length: nat, x: nat)
    requires x < length
    ensures x - x % PAGESZ < length
  {
  }

  /** The functions of the handle, placed by their addresses. */
  ghost function AddressSites(segOrig: u64, fns: seq<Fn>): (sites: seq<Site>)
    ensures |sites| == |fns|
    ensures forall k :: 0 <= k < |fns| && segOrig <= fns[k].addr ==> sites[k] == Site(fns[k].addr - segOrig, fns[k])
  {
    seq(|fns|, k requires 0 <= k < |fns| => Site(if segOrig <= fns[k].addr then fns[k].addr - segOrig else 0, fns[k]))
  }

  /** Every function lies as far into the image as its address lies into the segment. */
  lemma SitesByAddress(h: Handle, load: u64)
    requires h.Valid() && h.FunctionsPlaced() && LoadedAt(h, load)
    ensures h.Sites() == AddressSites(h.segment.orig, FnsOf(h.transform.transformables))
    ensures forall k :: 0 <= k < |h.Sites()| ==> h.segment.orig <= h.Sites()[k].fn.addr
  {
    hide SoundAt, Sub, Shaped, TablesFit;
    var sites := h.Sites();
    forall k | 0 <= k < |sites|
      ensures h.segment.orig <= sites[k].fn.addr && sites[k].at == sites[k].fn.addr - h.segment.orig
    {
      var a := sites[k].fn.addr;
      assert Locate(h.text.orig, h.text.data, h.text.length, a) == Some(sites[k].at);
      InsideFrom(h.text.orig, h.text.length, a);
      SubExact(a, h.text.orig);
      SubExact(h.text.orig, h.segment.orig);
    }
  }

  /** b is the byte that set j of a function, rearranged by o, has at address v. */
  ghost predicate Rearranges(fn: Fn, o: seq<int>, j: nat, v: u64, b: byte) {
    && OrderFits(fn, o) && j < |fn.Sets()| && |fn.Sets()[j].instrs| == fn.Slots()
    && 0 <= v - fn.Sets()[j].start < |Flat(Permuted(fn, o, j))|
    && b == Flat(Permuted(fn, o, j))[v - fn.Sets()[j].start]
  }

  ghost predicate InSetAt(fn: Fn, j: nat, v: u64) {
    j < |fn.Sets()| && fn.Sets()[j].start <= v < fn.Sets()[j].end
  }

  /** b is what address v, byte x of the segment, is to hold: in a recorded set the byte of the rearranged
      set, anywhere else the byte of the file below the segment's size there, and zero behind that. */
  ghost predicate Expected(fns: seq<Fn>, orders: seq<seq<int>>, file: seq<byte>, seg: Segment, v: u64, x: nat, b: byte)
    requires seg.offset + seg.filesz <= |file|
  {
    && |fns| == |orders|
    && (forall k, j :: 0 <= k < |fns| && 0 <= j < |fns[k].Sets()| && InSetAt(fns[k], j, v) ==>
         Rearranges(fns[k], orders[k], j, v, b))
    && ((forall k, j :: 0 <= k < |fns| && 0 <= j < |fns[k].Sets()| ==> !InSetAt(fns[k], j, v)) ==>
         b == if x < seg.filesz then file[seg.offset + x] else 0)
  }

  /** The whole way from file to fault. The segment was meant for address segment.orig and is
      loaded at address load. Then what a program sees where address v of the segment has gone is,
      in a recorded set of a function, the byte that the set has at v when it is rearranged by the
      current table, and anywhere else the byte of the file below its size, and zero behind that. */
  lemma ServedByte(h: Handle, file: seq<byte>, seg: Segment, load: u64, v: u64)
    requires h.Valid() && h.Sound() && LoadedAt(h, load)
    requires seg.offset + seg.filesz <= |file| && seg.filesz <= PageUp(seg.memsz) && h.base == Mapped(file, seg)
    requires h.segment.orig <= v < h.segment.orig + h.segment.length
    ensures var b := ByteAt(h, Add(load, v - h.segment.orig));
      b.Some? && Expected(FnsOf(h.transform.transformables), OrdersOf(h.transform.transformables), file, seg,
                          v, v - h.segment.orig, b.value)
  {
    hide TextFor, Flat, IsPerm, PageUp, Shaped, TablesFit, Locate, AllSound, Permuted, Add, Sub, ServedAt, ByteAt,
         InSetAt, InSet, PermutedByte, Rearranges;
    var x := v - h.segment.orig;
    var sites, orders := h.Sites(), OrdersOf(h.transform.transformables);
    var fns := FnsOf(h.transform.transformables);
    ImageSeen(h, load, x);
    SitesByAddress(h, load);
    assert h.buffer[x] == h.buffer[..][x];
    ImageByte(h.transform.isa, file, seg, sites, orders, x);
    forall k, j | 0 <= k < |fns| && 0 <= j < |fns[k].Sets()|
      ensures InSetAt(fns[k], j, v) <==> InSet(sites[k], j, x)
      ensures InSetAt(fns[k], j, v) ==> Rearranges(fns[k], orders[k], j, v, h.buffer[x])
    {
      ByAddress(sites[k], orders[k], h.segment.orig, j, v, h.buffer[x]);
    }
  }

  lemma ByAddress(s: Site, o: seq<int>, segOrig: u64, j: nat, v: u64, b: byte)
    requires j < |s.fn.Sets()| && segOrig <= v && s.at == s.fn.addr - segOrig
    ensures InSetAt(s.fn, j, v) <==> InSet(s, j, v - segOrig)
    ensures PermutedByte(s, o, j, v - segOrig, b) ==> Rearranges(s.fn, o, j, v, b)
  {
    hide Flat, Permuted, IsPerm;
  }

  /** All writes stay in the text window: every byte of the image outside it is the mapped one. */
  lemma WritesInText(h: Handle, x: nat)
    requires h.Valid() && h.Sound() && x < h.buffer.Length
    requires h.text.data.Some? ==> !(h.text.data.value <= x < h.text.data.value + h.text.length)
    ensures h.buffer[x] == h.base[x]
  {
    hide TextFor, Flat, IsPerm, Shaped, TablesFit, Locate, InSet, InPlace;
    var isa, base, sites, orders := h.transform.isa, h.base, h.Sites(), OrdersOf(h.transform.transformables);
    forall k, j | 0 <= k < |sites| && 0 <= j < |sites[k].fn.Sets()|
      ensures !InSet(sites[k], j, x)
    {
      if InSet(sites[k], j, x) {
        assert InPlace(base, sites[k].at, sites[k].fn, sites[k].fn.Sets()[j]);
        SetInText(base, sites[k], j, h.text.orig, h.text.data, h.text.length, x);
      }
    }
    RestHolds(isa, base, sites, orders, x);
    assert h.buffer[x] == h.buffer[..][x];
  }

  lemma SetInText(base: seq<byte>, s: Site, j: nat, orig: u64, data: Option<nat>, length: u64, x: nat)
    requires InSet(s, j, x) && InPlace(base, s.at, s.fn, s.fn.Sets()[j])
    requires Locate(orig, data, length, s.fn.addr) == Some(s.at) && s.fn.addr + s.fn.len < orig + length
    ensures data.Some? && data.value <= x < data.value + length
  {
  }

  /** In a sound handle the code means what the file's code means: any execution that obeys the
      hypotheses on the mapped image ends on the current image with the same registers and the
      same memory outside dead save slots. */
  lemma SoundMeansSame(h: Handle, acts: seq<Act>, s: State)
    requires h.Valid() && h.Sound()
    requires AllObey(ProgramOf(h.transform.isa, h.base, h.Sites()), acts, Config(s, iset{}), iset{})
    ensures SameEnd(ProgramOf(h.transform.isa, h.base, h.Sites()), ProgramOf(h.transform.isa, h.buffer[..], h.Sites()),
                    acts, s)
  {
    hide TextFor, AllSound, Located, TablesFit, OrdersFit, ProgramOf, Balanced, Alike, RunActs, AllObey;
    var isa, base, sites, orders := h.transform.isa, h.base, h.Sites(), OrdersOf(h.transform.transformables);
    IdentityText(isa, base, sites);
    PermutedAlike(isa, base, sites, Identities(sites), orders);
    AllMatching(ProgramOf(isa, base, sites), ProgramOf(isa, h.buffer[..], sites), acts, Config(s, iset{}), s, iset{});
  }

  /** Executed in two programs, acts end with the same registers and the same memory outside what is
      dead by then. */
  ghost predicate SameEnd(p: Program, q: Program, acts: seq<Act>, s: State) {
    var r, u := RunActs(p, acts, Config(s, iset{})), RunActs(q, acts, Config(s, iset{}));
    u.st.regs == r.st.regs && forall a :: a !in r.dead ==> Load(u.st.mem, a) == Load(r.st.mem, a)
  }

  /** The first n bytes of the memory that a program sees from the load address on. */
  ghost function Seen(h: Handle, load: u64, n: nat): (m: seq<byte>)
    requires h.Valid() && LoadedAt(h, load) && n <= h.segment.length
    reads h, h.segment, h.text, h.transform, h.buffer, Tables(h.transform.transformables)
    ensures |m| == n && forall x :: 0 <= x < n ==> ByteAt(h, Add(load, x)) == Some(m[x])
  {
    if n == 0 then []
    else
      ImageSeen(h, load, n - 1);
      Seen(h, load, n - 1) + [ByteAt(h, Add(load, n - 1)).value]
  }

  /** Wherever it is loaded, the code that is served means what the code in the file means. Take the
      file's segment, and the memory seen at any page-aligned load address after any randomizations
      and relocations, each read at the addresses of the recorded sets. An execution that obeys the
      hypotheses on the former ends on the latter with the same registers and the same memory
      outside dead save slots. */
  lemma ServedMeansSame(h: Handle, file: seq<byte>, seg: Segment, load: u64, acts: seq<Act>, s: State)
    requires h.Valid() && h.Sound() && LoadedAt(h, load)
    requires seg.offset + seg.filesz <= |file| && seg.filesz <= PageUp(seg.memsz) && h.base == Mapped(file, seg)
    requires var sites := AddressSites(h.segment.orig, FnsOf(h.transform.transformables));
      AllObey(ProgramOf(h.transform.isa, Mapped(file, seg), sites), acts, Config(s, iset{}), iset{})
    ensures var isa, sites := h.transform.isa, AddressSites(h.segment.orig, FnsOf(h.transform.transformables));
      SameEnd(ProgramOf(isa, Mapped(file, seg), sites),
              ProgramOf(isa, Seen(h, load, h.segment.length), sites), acts, s)
  {
    hide ProgramOf, AllObey, SameEnd, PageUp, ByteAt, TablesFit, TextFor, Shaped, Locate, AllSound;
    SitesByAddress(h, load);
    SoundMeansSame(h, acts, s);
    var m := Seen(h, load, h.segment.length);
    forall x | 0 <= x < |m|
      ensures m[x] == h.buffer[..][x]
    {
      ImageSeen(h, load, x);
    }
    assert m == h.buffer[..];
  }
}
