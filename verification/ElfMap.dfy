/** Mapping an accepted executable into the address space of the tracee. */
module ElfMap {
  import opened Types
  import opened Align
  import opened Elf

  /** A byte of the address space. */
  datatype Cell = Unmapped | Mapped(value: byte)

  type Memory = nat -> Cell

  /** `m` with the cells from `lo` up to `hi` replaced. */
  function Overlay(m: Memory, lo: nat, hi: nat, f: Memory): Memory {
    (a: nat) => if lo <= a < hi then f(a) else m(a)
  }

  function FileByte(file: Bytes, i: int): Cell {
    Mapped(if 0 <= i < |file| then file[i] else 0)
  }

  // ----- Reservation arithmetic

  /** Where the image goes: the mapping itself, or the first place in it with the right alignment. */
  function Base(e: Executable, mapping: uint64): uint64
    requires e.alignment > 0
  {
    if e.header.dynamic then Wrap(PageUp(Wrap(mapping - e.firstPage), e.alignment) + e.firstPage) else mapping
  }

  function Bias(e: Executable, mapping: uint64): uint64
    requires e.alignment > 0
  {
    Wrap(Base(e, mapping) - e.firstPage)
  }

  function Size(e: Executable): nat
    requires e.firstPage <= e.endPage
  {
    e.endPage - e.firstPage
  }

  function ReserveSize(e: Executable): nat
    requires e.firstPage <= e.endPage
  {
    Size(e) + if e.header.dynamic then e.alignment else 0
  }

  /** The kernel returns page-aligned mappings in the lower half of the address space. */
  predicate KernelMapping(e: Executable, mapping: uint64, page: nat)
    requires e.firstPage <= e.endPage && page > 0
  {
    && Multiple(mapping, page) && mapping + ReserveSize(e) <= INT64_MAX
    && (!e.header.dynamic ==> mapping == e.firstPage)
  }

  /** Rounding a difference up, modulo 2^64, even when it is negative. */
  lemma RoundedDifference(d: int, a: nat)
    requires a > 0 && Multiple(TWO_64, a)
    ensures exists c: int :: d <= c < d + a && Multiple(c, a) && PageUp(Wrap(d), a) == Wrap(c)
  {
    var x := d + a - 1;
    var c := x - x % a;
    ModUnique(c, x / a, 0, a);
    DownWraps(x, a);
    assert Wrap(Wrap(d) + a - 1) == Wrap(x) by { ModPlus(x, -(d / TWO_64), TWO_64); }
  }

  lemma WrapSum(x: int, y: int)
    ensures Wrap(Wrap(x) + y) == Wrap(x + y)
  {
    ModPlus(x + y, -(x / TWO_64), TWO_64);
  }

  /** Where a linked address ends up. */
  function Place(bias: uint64, vaddr: int): uint64 { Wrap(bias + vaddr) }

  /** The alignment step on plain numbers. */
  lemma AlignedBase(mapping: nat, first: nat, a: nat)
    requires a > 0 && Multiple(TWO_64, a) && first <= INT64_MAX && mapping + a <= INT64_MAX
    ensures var base := Wrap(PageUp(Wrap(mapping - first), a) + first);
            mapping <= base < mapping + a && Multiple(base - first, a)
  {
    hide PageUp, Wrap, Multiple;
    RoundedDifference(mapping - first, a);
    var c: int :| mapping - first <= c < mapping - first + a && Multiple(c, a) && PageUp(Wrap(mapping - first), a) == Wrap(c);
    WrapSum(c, first);
    SmallWrap(c + first);
    assert Wrap(PageUp(Wrap(mapping - first), a) + first) - first == c;
  }

  lemma ZeroIsMultiple(a: nat)
    requires a > 0
    ensures Multiple(0, a)
  {
    ModUnique(0, 0, 0, a);
  }

  /** The image fits the reservation, at a distance from its first page that is a multiple of the alignment. */
  lemma BaseFits(e: Executable, mapping: uint64, page: nat, size: nat)
    requires Accepted(e, page, size) && KernelMapping(e, mapping, page)
    ensures var base := Base(e, mapping);
            && mapping <= base && base + Size(e) <= mapping + ReserveSize(e) <= INT64_MAX
            && Multiple(base - e.firstPage, e.alignment)
  {
    hide Accepted, PageUp, Wrap, Multiple;
    Powers(e, page, size);
    if e.header.dynamic {
      AlignedBase(mapping, e.firstPage, e.alignment);
    } else {
      ZeroIsMultiple(e.alignment);
    }
  }

  /** What the bias is worth, on plain numbers. */
  lemma BiasNumbers(base: nat, first: nat, a: nat, page: nat)
    requires 0 < page && 0 < a && Multiple(a, page) && Multiple(TWO_64, a) && Multiple(first, page) && Multiple(base - first, a)
    ensures Multiple(Wrap(base - first), a) && Multiple(base - first, page) && Multiple(base, page)
  {
    hide Multiple, Wrap;
    BiasIsAligned(base - first, a);
    MultipleOfMultiple(base - first, a, page);
    Sum(base - first, first, page);
  }

  /**
    The reservation holds the image at an address that differs from its linked one by a multiple of
    the largest alignment, also when the kernel mapped it below its first page; and adding the bias to
    any linked address, modulo 2^64, gives the place that address has in it.
   */
  lemma ReservationFits(e: Executable, mapping: uint64, page: nat, size: nat)
    requires Accepted(e, page, size) && KernelMapping(e, mapping, page)
    ensures var base, bias := Base(e, mapping), Bias(e, mapping);
            && mapping <= base && base + Size(e) <= mapping + ReserveSize(e) <= INT64_MAX
            && Multiple(bias, e.alignment) && Multiple(base - e.firstPage, page) && Multiple(base, page)
            && forall v: int | e.firstPage <= v <= e.endPage :: Place(bias, v) == base + v - e.firstPage
  {
    hide Accepted, Base, KernelMapping, Wrap, Multiple;
    Powers(e, page, size);
    BaseFits(e, mapping, page, size);
    BiasNumbers(Base(e, mapping), e.firstPage, e.alignment, page);
    forall v: int | e.firstPage <= v <= e.endPage
      ensures Place(Bias(e, mapping), v) == Base(e, mapping) + v - e.firstPage
    {
      WrapSum(Base(e, mapping) - e.firstPage, v);
      SmallWrap(Base(e, mapping) + v - e.firstPage);
    }
  }

  lemma Shifted(x: int, d: int, a: nat)
    requires Multiple(d, a)
    ensures (x + d) % a == x % a
  {
    assert d == d / a * a;
    ModPlus(x, d / a, a);
  }

  lemma SegmentAlign(e: Executable, s: Segment, page: nat, size: nat)
    requires Accepted(e, page, size) && s in e.segments && Loads(s) && s.align > 1
    ensures Multiple(e.alignment, s.align) && s.vaddr % s.align == s.offset % s.align
  {
    assert SegmentOk(s, page, size) && s.align <= e.alignment && IsPow2(e.alignment);
    AlignIsPow2(s, page, size);
    hide *;
    PowersDivide(s.align, e.alignment);
  }

  /** Every segment is placed at an address that leaves the same remainder as its file offset, by page and by its own alignment. */
  lemma AlignmentKept(e: Executable, s: Segment, mapping: uint64, page: nat, size: nat)
    requires Accepted(e, page, size) && KernelMapping(e, mapping, page) && s in e.segments && Loads(s)
    ensures var a := Place(Bias(e, mapping), s.vaddr);
            a % page == s.offset % page && (s.align > 1 ==> a % s.align == s.offset % s.align)
  {
    hide Accepted, Base, Bias, KernelMapping, Place, Multiple, FirstPageOf, EndPageOf, Loads, SegmentOk, PageSize, Within;
    Powers(e, page, size);
    ReservationFits(e, mapping, page, size);
    BaseFits(e, mapping, page, size);
    SegmentWithin(e, s, page, size);
    SegmentPages(s, page, size);
    var d := Base(e, mapping) - e.firstPage;
    assert Place(Bias(e, mapping), s.vaddr) == s.vaddr + d;
    SegmentBounds(s, page, size);
    Shifted(s.vaddr, d, page);
    if s.align > 1 {
      SegmentAlign(e, s, page, size);
      MultipleOfMultiple(d, e.alignment, s.align);
      Shifted(s.vaddr, d, s.align);
    }
  }

  /** A program that cannot be moved takes exactly its own pages, and every address is its linked one. */
  lemma FixedPlace(e: Executable, mapping: uint64, page: nat, size: nat, v: int)
    requires Accepted(e, page, size) && KernelMapping(e, mapping, page) && !e.header.dynamic
    requires e.firstPage <= v <= e.endPage
    ensures Base(e, mapping) == e.firstPage && ReserveSize(e) == e.endPage - e.firstPage && Place(Bias(e, mapping), v) == v
  {
    hide Accepted;
    Powers(e, page, size);
  }

  lemma SmallWrap(x: nat)
    requires x < TWO_64
    ensures Wrap(x) == x
  {
  }

  lemma Powers(e: Executable, page: nat, size: nat)
    requires Accepted(e, page, size)
    ensures PageSize(page)
    ensures 0 < page <= e.alignment && Multiple(e.alignment, page) && Multiple(TWO_64, e.alignment)
    ensures Multiple(e.firstPage, page) && Multiple(e.endPage, page) && e.firstPage < e.endPage <= INT64_MAX
  {
    PageIsPow2(page);
    PowersDivide(page, e.alignment);
    Divides64(e.alignment);
  }

  lemma BiasIsAligned(d: int, a: nat)
    requires a > 0 && Multiple(TWO_64, a) && Multiple(d, a)
    ensures Multiple(Wrap(d), a)
  {
    var t := TWO_64 / a;
    assert TWO_64 == t * a;
    var q := d / TWO_64;
    assert Wrap(d) == d - q * TWO_64 == d + (-q * t) * a by { assert q * TWO_64 == (q * t) * a; }
    ModPlus(d, -q * t, a);
  }

  lemma Sum(x: int, y: int, a: nat)
    requires a > 0 && Multiple(x, a) && Multiple(y, a)
    ensures Multiple(x + y, a)
  {
    var q := y / a;
    assert y == q * a;
    ModPlus(x, q, a);
  }

  // ----- The image of a segment

  /** The byte a segment calls for at linked address `v`: of the file, then zero. */
  function Expected(s: Segment, file: Bytes, v: int): Cell {
    if v - s.vaddr < s.filesz then FileByte(file, s.offset + v - s.vaddr) else Mapped(0)
  }

  ghost predicate SegmentImage(m: Memory, bias: uint64, s: Segment, file: Bytes) {
    forall v: int | s.vaddr <= v < s.vaddr + s.memsz :: m(Place(bias, v)) == Expected(s, file, v)
  }

  /** Byte by byte: the file part of the segment, then zeros. */
  lemma SegmentBytes(m: Memory, bias: uint64, s: Segment, file: Bytes, page: nat)
    requires 0 < page < INT64_MAX && SegmentOk(s, page, |file|)
    ensures SegmentImage(m, bias, s, file) <==>
              && (forall v: int | s.vaddr <= v < s.vaddr + s.filesz ::
                    m(Place(bias, v)) == Mapped(file[s.offset + v - s.vaddr]))
              && (forall v: int | s.vaddr + s.filesz <= v < s.vaddr + s.memsz :: m(Place(bias, v)) == Mapped(0))
  {
    SegmentBounds(s, page, |file|);
    hide SegmentOk, Place;
  }

  /** The byte that mapping a segment leaves at linked address `v` of its pages: a shared last page of the file is not cleared. */
  function Content(s: Segment, file: Bytes, page: nat, v: int): Cell
    requires page > 0
  {
    if s.filesz != 0 && v < FileEndOf(s, page) && (v < s.vaddr + s.filesz || s.memsz == s.filesz)
    then FileByte(file, s.offset + v - s.vaddr) else Mapped(0)
  }

  /** No byte of its pages is anything but zero or the byte of the file at the same distance from the segment's start. */
  lemma ContentKnown(s: Segment, file: Bytes, page: nat, v: int)
    requires page > 0
    ensures var i := s.offset + v - s.vaddr;
            Content(s, file, page, v) == Mapped(0)
            || (0 <= i < |file| && Content(s, file, page, v) == Mapped(file[i]))
  {
  }

  predicate OnPages(s: Segment, page: nat, v: int)
    requires page > 0
  {
    FirstPageOf(s, page) <= v < EndPageOf(s, page)
  }

  /** The byte that all segments together leave at `v`: the last one that has the page decides. */
  function Built(segments: seq<Segment>, file: Bytes, page: nat, v: int): Cell
    requires page > 0
  {
    if segments == [] then Mapped(0)
    else
      var n := |segments| - 1;
      if Loads(segments[n]) && OnPages(segments[n], page, v) then Content(segments[n], file, page, v)
      else Built(segments[..n], file, page, v)
  }

  ghost predicate PageImage(m: Memory, bias: uint64, s: Segment, file: Bytes, page: nat)
    requires page > 0
  {
    forall v: int | OnPages(s, page, v) :: m(Place(bias, v)) == Content(s, file, page, v)
  }

  ghost predicate WholeImage(m: Memory, bias: uint64, segments: seq<Segment>, file: Bytes, page: nat, first: nat, end: nat)
    requires page > 0
  {
    forall v: int | first <= v < end :: m(Place(bias, v)) == Built(segments, file, page, v)
  }

  /** `t` has no page on which `s` has bytes. */
  predicate Apart(s: Segment, t: Segment, page: nat)
    requires page > 0
  {
    s.vaddr + s.memsz <= FirstPageOf(t, page) || EndPageOf(t, page) <= s.vaddr
  }

  /** The facts about a reservation that mapping a segment needs. */
  ghost predicate Reserved(bias: uint64, base: nat, first: nat, end: nat, page: nat) {
    && page > 0 && Multiple(base - first, page) && first <= end <= INT64_MAX && base + end - first <= INT64_MAX
    && forall v: int | first <= v <= end :: Place(bias, v) == base + v - first
  }

  ghost predicate Within(s: Segment, page: nat, size: nat, first: nat, end: nat)
    requires PageSize(page)
  {
    Loads(s) && SegmentOk(s, page, size) && first <= FirstPageOf(s, page) && EndPageOf(s, page) <= end
  }

  /** Where the file part of a segment ends, in whole pages. */
  function FileEndOf(s: Segment, page: nat): uint64
    requires page > 0
  {
    if s.filesz == 0 then FirstPageOf(s, page) else PageUp(Wrap(s.vaddr + s.filesz), page)
  }

  lemma FilePages(s: Segment, page: nat, size: nat)
    requires PageSize(page) && Loads(s) && SegmentOk(s, page, size)
    ensures FirstPageOf(s, page) <= s.vaddr && FirstPageOf(s, page) <= FileEndOf(s, page) <= EndPageOf(s, page)
    ensures s.filesz != 0 ==> s.vaddr + s.filesz <= FileEndOf(s, page)
  {
    hide PageUp, Down, EndPageOf, FirstPageOf, Multiple, SegmentOk;
    SegmentBounds(s, page, size);
    SegmentPages(s, page, size);
    if s.filesz != 0 {
      SmallWrap(s.vaddr + s.filesz);
      UpBounds(s.vaddr + s.filesz, page);
      UpWithin(s.vaddr + s.filesz, EndPageOf(s, page), page);
    }
  }

  /** The addresses that the loop computes for a segment are its linked pages, moved by the bias. */
  lemma SegmentPlace(s: Segment, bias: uint64, base: nat, first: nat, end: nat, page: nat, size: nat)
    requires PageSize(page) && Reserved(bias, base, first, end, page) && Within(s, page, size, first, end)
    ensures var address := Wrap(bias + s.vaddr);
            && address == base + s.vaddr - first
            && Down(address, page) == base + FirstPageOf(s, page) - first
            && PageUp(Wrap(address + s.memsz), page) == base + EndPageOf(s, page) - first
            && (s.filesz != 0 ==> PageUp(Wrap(address + s.filesz), page) == base + FileEndOf(s, page) - first)
  {
    hide PageUp, Down, Wrap, EndPageOf, FirstPageOf, Multiple, SegmentOk;
    SegmentBounds(s, page, size);
    SegmentPages(s, page, size);
    assert Place(bias, s.vaddr) == base + s.vaddr - first;
    MovedPages(s.vaddr, s.memsz, base - first, page);
    MovedPages(s.vaddr, s.filesz, base - first, page);
    assert FirstPageOf(s, page) == Down(s.vaddr, page) && EndPageOf(s, page) == PageUp(Wrap(s.vaddr + s.memsz), page) by {
      Definitions(s, page);
    }
  }

  lemma Definitions(s: Segment, page: nat)
    requires page > 0
    ensures FirstPageOf(s, page) == Down(s.vaddr, page) && EndPageOf(s, page) == PageUp(Wrap(s.vaddr + s.memsz), page)
  {
  }

  lemma MovedPages(x: nat, n: nat, d: int, page: nat)
    requires 0 < page <= 0x1_0000 && Multiple(d, page) && x + d >= 0
    requires x + n + page <= INT64_MAX && x + n + d <= INT64_MAX
    ensures Down(x + d, page) == Down(x, page) + d
    ensures PageUp(Wrap(x + d + n), page) == PageUp(Wrap(x + n), page) + d
  {
    hide PageUp, Down, Wrap, Multiple;
    ShiftDown(x, d, page);
    SmallWrap(x + d + n);
    SmallWrap(x + n);
    ShiftUp(x + n, d, page);
  }

  // ----- Mapping

  class Process {
    var memory: Memory
    // Whether the kernel has refused a mapping or a write into the image.
    ghost var refused: bool

    constructor (memory: Memory)
      ensures this.memory == memory && !refused
    {
      this.memory := memory;
      refused := false;
    }

    /** mmap over, or a write to, [lo, hi): the kernel does it all or refuses it. */
    method Replace(lo: nat, hi: nat, contents: Memory) returns (ok: bool)
      modifies this
      ensures memory == if ok then Overlay(old(memory), lo, hi, contents) else old(memory)
      ensures refused == (old(refused) || !ok)
    {
      ok := *;
      if ok { memory := Overlay(memory, lo, hi, contents); }
      refused := refused || !ok;
    }

    /** MapExecutable. `mapping` is what the kernel answers to the reservation, None for an error. */
    method MapExecutable(e: Executable, file: Bytes, page: nat, mapping: Option<uint64>)
      returns (ok: bool, bias: uint64)
      requires Accepted(e, page, |file|) && !refused
      requires mapping.Some? ==>
                 && Multiple(mapping.value, page) && mapping.value + ReserveSize(e) <= INT64_MAX
                 && forall a: nat | mapping.value <= a < mapping.value + ReserveSize(e) :: memory(a) == Unmapped
      modifies this
      // It fails only if the kernel maps nothing, maps a program that cannot be moved elsewhere, or refuses a part of the image.
      ensures ok <==> mapping.Some? && KernelMapping(e, mapping.value, page) && !refused
      ensures ok ==> bias == Bias(e, mapping.value)
      ensures ok ==> WholeImage(memory, bias, e.segments, file, page, e.firstPage, e.endPage)
      ensures ok ==> forall i | 0 <= i < |e.segments| && Kept(e.segments, i, page) ::
                       SegmentImage(memory, bias, e.segments[i], file)
      ensures if mapping.Some? then Outside(old(memory), memory, Base(e, mapping.value), Base(e, mapping.value) + Size(e))
              else memory == old(memory)
    {
      hide Accepted, SegmentImage, Kept, Outside, IsPow2, OneBit, PageUp, Multiple, Loads, WholeImage;
      bias := 0;
      Powers(e, page, |file|);
      if mapping.None? { return false, 0; }
      var at := mapping.value;
      memory := Overlay(memory, at, at + ReserveSize(e), a => Mapped(0));
      if !e.header.dynamic && at != e.firstPage {
        memory := Overlay(memory, at, at + ReserveSize(e), a => Unmapped);
        GivenBack(old(memory), at, at + ReserveSize(e), Base(e, at), Size(e));
        return false, 0;
      }
      ReservationFits(e, at, page, |file|);
      var base := Base(e, at);
      bias := Wrap(base - e.firstPage);
      Trim(at, base, Size(e), ReserveSize(e), old(memory));
      ghost var trimmed := memory;
      ReservedIsZero(memory, bias, e, file, page, base);
      ok := MapSegments(e, file, page, bias, base);
      if ok { ImagesFromWhole(memory, bias, e, file, page); }
      OutsideReservation(old(memory), trimmed, memory, base, Size(e));
    }

    /** Gives back what the reservation has before and after the image. */
    method Trim(at: nat, base: nat, size: nat, reserve: nat, ghost before: Memory)
      requires at <= base && base + size <= at + reserve
      requires memory == Overlay(before, at, at + reserve, a => Mapped(0))
      requires forall a: nat | at <= a < at + reserve :: before(a) == Unmapped
      modifies this`memory
      ensures forall a: nat :: memory(a) == if base <= a < base + size then Mapped(0) else before(a)
    {
      if base != at { memory := Overlay(memory, at, base, a => Unmapped); }
      if base + size < at + reserve { memory := Overlay(memory, base + size, at + reserve, a => Unmapped); }
    }

    method MapSegments(e: Executable, file: Bytes, page: nat, bias: uint64, base: nat) returns (ok: bool)
      requires Accepted(e, page, |file|)
      requires Reserved(bias, base, e.firstPage, e.endPage, page)
      requires WholeImage(memory, bias, [], file, page, e.firstPage, e.endPage) && !refused
      modifies this
      ensures ok <==> !refused
      ensures ok ==> WholeImage(memory, bias, e.segments, file, page, e.firstPage, e.endPage)
      ensures Outside(old(memory), memory, base, base + Size(e))
    {
      hide Accepted, Reserved, OneBit, Outside, Loads, WholeImage, PageImage, Within, FirstPageOf, EndPageOf;
      Powers(e, page, |file|);
      ok := true;
      OutsideSame(memory, base, base + Size(e));
      for i := 0 to |e.segments|
        invariant WholeImage(memory, bias, e.segments[..i], file, page, e.firstPage, e.endPage)
        invariant Outside(old(memory), memory, base, base + Size(e)) && ok && !refused
      {
        var s := e.segments[i];
        ghost var before := memory;
        assert e.segments[..i + 1] == e.segments[..i] + [s];
        if Loads(s) {
          SegmentWithin(e, s, page, |file|);
          ok := MapSegment(s, file, bias, page, base, e.firstPage, e.endPage);
          OutsideGrows(old(memory), before, memory, base, e, s, page, |file|);
          if !ok { return; }
          OneMoreSegment(e.segments[..i], s, file, page, bias, base, e.firstPage, e.endPage, before, memory);
        } else {
          SegmentSkipped(memory, bias, e.segments[..i], s, file, page, e.firstPage, e.endPage);
        }
      }
      assert e.segments[..|e.segments|] == e.segments;
    }

    /** The body of the loop of MapExecutable for one load segment. */
    method MapSegment(s: Segment, file: Bytes, bias: uint64, page: nat,
                      ghost base: nat, ghost first: nat, ghost end: nat) returns (ok: bool)
      requires PageSize(page) && Reserved(bias, base, first, end, page) && Within(s, page, |file|, first, end)
      requires !refused
      modifies this
      ensures ok <==> !refused
      ensures ok ==> PageImage(memory, bias, s, file, page)
      ensures Outside(old(memory), memory, base + FirstPageOf(s, page) - first, base + EndPageOf(s, page) - first)
    {
      hide PageUp, Down, Wrap, EndPageOf, FirstPageOf, FileEndOf, SegmentOk, OneBit, Multiple, FileByte, PageImage;
      SegmentPlace(s, bias, base, first, end, page, |file|);
      FilePages(s, page, |file|);
      SegmentBounds(s, page, |file|);
      var address := Wrap(bias + s.vaddr);
      var start := Down(address, page);
      var fileEnd := address + s.filesz;
      var last := PageUp(Wrap(address + s.memsz), page);
      var anonymous := if s.filesz == 0 then start else PageUp(Wrap(address + s.filesz), page);
      if s.filesz == 0 { NoFilePages(s, page); }
      var from := Down(s.offset, page);
      ok := true;
      if s.filesz != 0 {
        ok := Replace(start, anonymous, (a: nat) => FileByte(file, from + a - start));
        if !ok { return; }
      }
      if anonymous < last {
        ok := Replace(anonymous, last, a => Mapped(0));
        if !ok { return; }
      }
      if s.memsz > s.filesz && s.filesz != 0 && fileEnd < anonymous {
        ok := Replace(fileEnd, anonymous, a => Mapped(0));
        if !ok { return; }
      }
      SegmentPages(s, page, |file|);
      ImageFromParts(s, file, bias, base, first, end, page, memory);
    }
  }

  lemma GivenBack(before: Memory, at: nat, end: nat, base: nat, size: nat)
    requires forall a: nat | at <= a < end :: before(a) == Unmapped
    ensures Outside(before, Overlay(Overlay(before, at, end, a => Mapped(0)), at, end, a => Unmapped), base, base + size)
  {
  }

  /** Before any segment the whole reservation is zero. */
  lemma ReservedIsZero(m: Memory, bias: uint64, e: Executable, file: Bytes, page: nat, base: nat)
    requires page > 0 && e.firstPage <= e.endPage && Reserved(bias, base, e.firstPage, e.endPage, page)
    requires forall a: nat | base <= a < base + Size(e) :: m(a) == Mapped(0)
    ensures WholeImage(m, bias, [], file, page, e.firstPage, e.endPage)
  {
    hide Place, Multiple;
    forall v: int | e.firstPage <= v < e.endPage ensures m(Place(bias, v)) == Mapped(0) {
      assert Place(bias, v) == base + v - e.firstPage;
    }
  }

  lemma SegmentSkipped(m: Memory, bias: uint64, segments: seq<Segment>, s: Segment, file: Bytes, page: nat, first: nat, end: nat)
    requires page > 0 && WholeImage(m, bias, segments, file, page, first, end) && !Loads(s)
    ensures WholeImage(m, bias, segments + [s], file, page, first, end)
  {
    hide Content, Place, OnPages;
    assert (segments + [s])[..|segments|] == segments;
  }

  lemma SegmentWithin(e: Executable, s: Segment, page: nat, size: nat)
    requires Accepted(e, page, size) && s in e.segments && Loads(s)
    ensures Within(s, page, size, e.firstPage, e.endPage)
  {
  }

  lemma OutsideSame(m: Memory, lo: int, hi: int)
    ensures Outside(m, m, lo, hi)
  {
  }

  lemma OutsideGrows(a: Memory, b: Memory, c: Memory, base: nat, e: Executable, s: Segment, page: nat, size: nat)
    requires Accepted(e, page, size) && Within(s, page, size, e.firstPage, e.endPage)
    requires Outside(a, b, base, base + Size(e))
    requires Outside(b, c, base + FirstPageOf(s, page) - e.firstPage, base + EndPageOf(s, page) - e.firstPage)
    ensures Outside(a, c, base, base + Size(e))
  {
    hide FirstPageOf, EndPageOf, Accepted;
  }

  /** Mapping one more segment replaces its pages and keeps all others. */
  lemma OneMoreSegment(segments: seq<Segment>, s: Segment, file: Bytes, page: nat, bias: uint64, base: nat,
                       first: nat, end: nat, before: Memory, after: Memory)
    requires PageSize(page) && Loads(s) && Reserved(bias, base, first, end, page) && Within(s, page, |file|, first, end)
    requires WholeImage(before, bias, segments, file, page, first, end) && PageImage(after, bias, s, file, page)
    requires Outside(before, after, base + FirstPageOf(s, page) - first, base + EndPageOf(s, page) - first)
    ensures WholeImage(after, bias, segments + [s], file, page, first, end)
  {
    hide FirstPageOf, EndPageOf, SegmentOk, Place, Content, OneBit, Multiple, Loads;
    var all := segments + [s];
    assert all[..|segments|] == segments && all[|segments|] == s;
    forall v: int | first <= v < end ensures after(Place(bias, v)) == Built(all, file, page, v) {
      assert Place(bias, v) == base + v - first;
    }
  }

  /** Segment `i` is loaded, and no later one has a page on which it has bytes. */
  ghost predicate Kept(segments: seq<Segment>, i: nat, page: nat)
    requires i < |segments| && page > 0
  {
    Loads(segments[i]) && forall j | i < j < |segments| && Loads(segments[j]) :: Apart(segments[i], segments[j], page)
  }

  /** Segments are apart exactly if no byte of the one lies on a page of the other. */
  lemma ApartExactly(s: Segment, t: Segment, page: nat, size: nat)
    requires PageSize(page) && Loads(s) && Loads(t) && SegmentOk(t, page, size)
    ensures Apart(s, t, page) <==> forall v: int | s.vaddr <= v < s.vaddr + s.memsz :: !OnPages(t, page, v)
  {
    SegmentPages(t, page, size);
    hide FirstPageOf, EndPageOf, SegmentOk, OneBit, Multiple;
    var first, end := FirstPageOf(t, page), EndPageOf(t, page);
    if !Apart(s, t, page) {
      var v := if s.vaddr < first then first else s.vaddr;
      assert OnPages(t, page, v);
    }
  }

  /** On its own bytes, the content of such a segment is what it calls for. */
  lemma {:induction false} BuiltIsExpected(segments: seq<Segment>, i: nat, file: Bytes, page: nat, v: int)
    requires PageSize(page) && i < |segments| && Kept(segments, i, page) && SegmentOk(segments[i], page, |file|)
    requires segments[i].vaddr <= v < segments[i].vaddr + segments[i].memsz
    ensures Built(segments, file, page, v) == Expected(segments[i], file, v)
    decreases |segments|
  {
    hide FirstPageOf, EndPageOf, SegmentOk, FileByte, FileEndOf, OneBit, Loads, Multiple;
    var n := |segments| - 1;
    if i == n {
      SegmentPages(segments[i], page, |file|);
      FilePages(segments[i], page, |file|);
    } else {
      assert Loads(segments[n]) ==> Apart(segments[i], segments[n], page);
      BuiltIsExpected(segments[..n], i, file, page, v);
    }
  }

  lemma ImagesFromWhole(m: Memory, bias: uint64, e: Executable, file: Bytes, page: nat)
    requires Accepted(e, page, |file|) && WholeImage(m, bias, e.segments, file, page, e.firstPage, e.endPage)
    ensures forall i | 0 <= i < |e.segments| && Kept(e.segments, i, page) :: SegmentImage(m, bias, e.segments[i], file)
  {
    hide Accepted, SegmentOk, Built, Place, Expected, OneBit, FirstPageOf, EndPageOf, Multiple;
    Powers(e, page, |file|);
    forall i, v: int | 0 <= i < |e.segments| && Kept(e.segments, i, page)
                       && e.segments[i].vaddr <= v < e.segments[i].vaddr + e.segments[i].memsz
      ensures m(Place(bias, v)) == Expected(e.segments[i], file, v)
    {
      SegmentWithin(e, e.segments[i], page, |file|);
      SegmentPages(e.segments[i], page, |file|);
      BuiltIsExpected(e.segments, i, file, page, v);
    }
  }

  lemma OutsideReservation(a: Memory, b: Memory, c: Memory, base: nat, size: nat)
    requires forall x: nat :: b(x) == if base <= x < base + size then Mapped(0) else a(x)
    requires Outside(b, c, base, base + size)
    ensures Outside(a, c, base, base + size)
  {
  }

  lemma TableSegment(e: Executable, page: nat, size: nat) returns (s: Segment)
    requires Accepted(e, page, size)
    ensures s in e.segments && Loads(s) && HoldsTable(s, e.header)
    ensures e.phdrAddress == Wrap(s.vaddr + e.header.phoff - s.offset)
  {
    s :| s in e.segments && Loads(s) && HoldsTable(s, e.header)
         && e.phdrAddress == Wrap(s.vaddr + e.header.phoff - s.offset);
  }

  /** The mapped image holds the program header table at the address kept for it. */
  lemma TableIsMapped(e: Executable, file: Bytes, page: nat, bias: uint64, m: Memory)
    requires Accepted(e, page, |file|)
    requires forall s | s in e.segments && Loads(s) && HoldsTable(s, e.header) :: SegmentImage(m, bias, s, file)
    ensures forall v: int | e.phdrAddress <= v < e.phdrAddress + e.header.TableSize() ::
              m(Place(bias, v)) == FileByte(file, e.header.phoff + v - e.phdrAddress)
  {
    var s := TableSegment(e, page, |file|);
    assert SegmentImage(m, bias, s, file);
    SegmentWithin(e, s, page, |file|);
    hide Accepted, SegmentImage, Place, FileByte;
    TableInSegment(s, e, file, page, bias, m);
  }

  lemma TableInSegment(s: Segment, e: Executable, file: Bytes, page: nat, bias: uint64, m: Memory)
    requires 0 < page < INT64_MAX && SegmentOk(s, page, |file|) && HoldsTable(s, e.header)
    requires e.phdrAddress == Wrap(s.vaddr + e.header.phoff - s.offset) && SegmentImage(m, bias, s, file)
    ensures forall v: int | e.phdrAddress <= v < e.phdrAddress + e.header.TableSize() ::
              m(Place(bias, v)) == FileByte(file, e.header.phoff + v - e.phdrAddress)
  {
    hide FileByte, Place, SegmentOk, Wrap, SegmentImage;
    SegmentBounds(s, page, |file|);
    SmallWrap(s.vaddr + e.header.phoff - s.offset);
    InImage(m, bias, s, file);
    forall v: int | e.phdrAddress <= v < e.phdrAddress + e.header.TableSize()
      ensures m(Place(bias, v)) == FileByte(file, e.header.phoff + v - e.phdrAddress)
    {
      assert m(Place(bias, v)) == Expected(s, file, v);
    }
  }

  lemma InImage(m: Memory, bias: uint64, s: Segment, file: Bytes)
    requires SegmentImage(m, bias, s, file)
    ensures forall v: int | s.vaddr <= v < s.vaddr + s.memsz :: m(Place(bias, v)) == Expected(s, file, v)
  {
  }

  /** The pages of the file, zeros after the file part and further zero pages make the pages of a segment. */
  lemma ImageFromParts(s: Segment, file: Bytes, bias: uint64, base: nat, first: nat, end: nat, page: nat, m: Memory)
    requires PageSize(page) && Reserved(bias, base, first, end, page) && Within(s, page, |file|, first, end)
    requires var d := base - first;
             var start := d + FirstPageOf(s, page);
             var filed := d + FileEndOf(s, page);
             && (forall a: nat | start <= a < filed && (a < d + s.vaddr + s.filesz || s.memsz == s.filesz) ::
                   m(a) == FileByte(file, Down(s.offset, page) + a - start))
             && (forall a: nat | d + s.vaddr + s.filesz <= a < filed && s.memsz > s.filesz :: m(a) == Mapped(0))
             && (forall a: nat | filed <= a < d + EndPageOf(s, page) :: m(a) == Mapped(0))
    ensures PageImage(m, bias, s, file, page)
  {
    hide PageUp, Down, Wrap, EndPageOf, FirstPageOf, FileEndOf, SegmentOk, OneBit, Multiple, FileByte, Place;
    FilePages(s, page, |file|);
    SegmentBounds(s, page, |file|);
    SegmentPages(s, page, |file|);
    FileOffset(s, page, |file|);
    if s.filesz == 0 { NoFilePages(s, page); }
    forall v: int | OnPages(s, page, v) ensures m(Place(bias, v)) == Content(s, file, page, v) {
      assert Place(bias, v) == base - first + v;
    }
  }

  /** Nothing has changed outside [lo, hi). */
  ghost predicate Outside(before: Memory, after: Memory, lo: int, hi: int) {
    forall a: nat | a < lo || hi <= a :: after(a) == before(a)
  }

  lemma NoFilePages(s: Segment, page: nat)
    requires page > 0 && s.filesz == 0
    ensures FileEndOf(s, page) == FirstPageOf(s, page)
  {
  }

  /** The file is mapped from as far before the segment's offset as its first page lies before its address. */
  lemma FileOffset(s: Segment, page: nat, size: nat)
    requires 0 < page < INT64_MAX && SegmentOk(s, page, size)
    ensures s.offset - Down(s.offset, page) == s.vaddr - FirstPageOf(s, page)
  {
  }
}
