/**
  The loader for dynamically linked programs: which headers are accepted, and what
  memory a successful mapping leaves behind. The page size is any power of two up to
  2^16, addresses are 64-bit words that wrap.
 */
module Elf {
  import opened Types
  import opened Align
  import C = Codec

  type Bytes = seq<byte>

  const INT64_MAX: nat := 0x7FFF_FFFF_FFFF_FFFF
  const PHDR_SIZE: nat := 56
  const HEADER_SIZE: nat := 64

  datatype Kind = Load | Interp | OtherKind

  datatype Segment = Segment(
    kind: Kind, executable: bool, offset: uint64, vaddr: uint64,
    filesz: uint64, memsz: uint64, align: uint64)

  datatype Header = Header(dynamic: bool, entry: uint64, phoff: uint64, phnum: nat)
  {
    function TableSize(): nat { phnum * PHDR_SIZE }
  }

  /** What OpenElfExecutable keeps of a file. */
  datatype Executable = Executable(
    header: Header, segments: seq<Segment>,
    firstPage: uint64, endPage: uint64, alignment: uint64, phdrAddress: uint64, interpreter: Bytes)

  // ----- The file

  /** A little-endian field of the file. */
  function Field(file: Bytes, at: nat, size: nat): (value: nat)
    requires at + size <= |file| && size <= 8
    ensures value < 0x1_0000_0000_0000_0000
  {
    C.LittleOfValue(file[at..at + size]);
    C.Widths();
    SmallerPower(size);
    C.Value(file[at..at + size])
  }

  lemma SmallerPower(size: nat)
    requires size <= 8
    ensures C.Pow256(size) <= C.Pow256(8)
  {
  }

  /** ELF, 64 bits, little-endian, version 1, for AArch64, an executable or a shared object, with entries of 56 bytes. */
  predicate Recognised(file: Bytes) {
    && |file| >= HEADER_SIZE
    && file[..4] == [0x7F, 0x45, 0x4C, 0x46] && file[4] == 2 && file[5] == 1 && file[6] == 1
    && Field(file, 20, 4) == 1 && Field(file, 18, 2) == 183 && 2 <= Field(file, 16, 2) <= 3
    && Field(file, 54, 2) == PHDR_SIZE
  }

  function HeaderOf(file: Bytes): Header
    requires |file| >= HEADER_SIZE
  {
    Header(Field(file, 16, 2) == 3, Field(file, 24, 8), Field(file, 32, 8), Field(file, 56, 2))
  }

  function SegmentAt(file: Bytes, at: nat): Segment
    requires at + PHDR_SIZE <= |file|
  {
    var kind := Field(file, at, 4);
    Segment(if kind == 1 then Load else if kind == 3 then Interp else OtherKind, Field(file, at + 4, 4) % 2 == 1,
            Field(file, at + 8, 8), Field(file, at + 16, 8), Field(file, at + 32, 8), Field(file, at + 40, 8),
            Field(file, at + 48, 8))
  }

  // ----- Files as the format lays them out

  /** The 64 bytes at the start of a file for AArch64: its kind, where it starts, and where its program headers are. */
  function FileHeader(padding: Bytes, kind: nat, entry: uint64, phoff: uint64, shoff: uint64, flags: nat, ehsize: nat,
                      phnum: nat, sections: Bytes): (data: Bytes)
    requires |padding| == 9 && |sections| == 6
    ensures |data| == HEADER_SIZE
  {
    [0x7F, 0x45, 0x4C, 0x46, 2, 1, 1] + padding
    + C.Little(kind, 2) + C.Little(183, 2) + C.Little(1, 4) + C.Little(entry, 8) + C.Little(phoff, 8) + C.Little(shoff, 8)
    + C.Little(flags, 4) + C.Little(ehsize, 2) + C.Little(PHDR_SIZE, 2) + C.Little(phnum, 2) + sections
  }

  /** The 56 bytes of a program header. */
  function ProgramHeader(kind: uint32, flags: uint32, offset: uint64, vaddr: uint64, paddr: uint64, filesz: uint64,
                         memsz: uint64, align: uint64): (data: Bytes)
    ensures |data| == PHDR_SIZE
  {
    C.Little(kind, 4) + C.Little(flags, 4) + C.Little(offset, 8) + C.Little(vaddr, 8) + C.Little(paddr, 8)
    + C.Little(filesz, 8) + C.Little(memsz, 8) + C.Little(align, 8)
  }

  lemma FieldRead(file: Bytes, at: nat, size: nat, value: nat)
    requires at + size <= |file| && size <= 8 && file[at..at + size] == C.Little(value, size) && value < C.Pow256(size)
    ensures Field(file, at, size) == value
  {
    C.ValueOfLittle(value, size);
  }

  /** Every header laid out so is read back; the file is recognised exactly if it is an executable or a shared object. */
  lemma HeaderReads(file: Bytes, padding: Bytes, kind: nat, entry: uint64, phoff: uint64, shoff: uint64, flags: nat,
                    ehsize: nat, phnum: nat, sections: Bytes)
    requires |padding| == 9 && |sections| == 6 && kind < 0x1_0000 && phnum < 0x1_0000
    requires |file| >= HEADER_SIZE
    requires file[..HEADER_SIZE] == FileHeader(padding, kind, entry, phoff, shoff, flags, ehsize, phnum, sections)
    ensures HeaderOf(file) == Header(kind == 3, entry, phoff, phnum)
    ensures Recognised(file) <==> kind == 2 || kind == 3
  {
    hide C.Little, Field;
    var data := file[..HEADER_SIZE];
    C.Widths();
    assert file[..4] == data[..4] == [0x7F, 0x45, 0x4C, 0x46] && file[4] == data[4] == 2 && file[5] == data[5] == 1
           && file[6] == data[6] == 1;
    assert file[16..18] == data[16..18] == C.Little(kind, 2);
    assert file[18..20] == data[18..20] == C.Little(183, 2);
    assert file[20..24] == data[20..24] == C.Little(1, 4);
    assert file[24..32] == data[24..32] == C.Little(entry, 8);
    assert file[32..40] == data[32..40] == C.Little(phoff, 8);
    assert file[54..56] == data[54..56] == C.Little(PHDR_SIZE, 2);
    assert file[56..58] == data[56..58] == C.Little(phnum, 2);
    FieldRead(file, 16, 2, kind);
    FieldRead(file, 18, 2, 183);
    FieldRead(file, 20, 4, 1);
    FieldRead(file, 24, 8, entry);
    FieldRead(file, 32, 8, phoff);
    FieldRead(file, 54, 2, PHDR_SIZE);
    FieldRead(file, 56, 2, phnum);
  }

  lemma FieldBytes(file: Bytes, at: nat, size: nat)
    requires at + size <= |file| && size <= 8
    ensures file[at..at + size] == C.Little(Field(file, at, size), size)
  {
    C.LittleOfValue(file[at..at + size]);
  }

  lemma Pieces(file: Bytes)
    requires |file| >= HEADER_SIZE
    ensures file[..HEADER_SIZE] == file[..7] + file[7..16] + file[16..18] + file[18..20] + file[20..24] + file[24..32]
                                   + file[32..40] + file[40..48] + file[48..52] + file[52..54] + file[54..56]
                                   + file[56..58] + file[58..64]
  {
  }

  /** No file is recognised that is not laid out so. */
  lemma RecognisedLaidOut(file: Bytes)
    requires Recognised(file)
    ensures var h := HeaderOf(file);
            file[..HEADER_SIZE] == FileHeader(file[7..16], if h.dynamic then 3 else 2, h.entry, h.phoff, Field(file, 40, 8),
                                              Field(file, 48, 4), Field(file, 52, 2), h.phnum, file[58..64])
  {
    hide C.Little, Field;
    assert file[..7] == file[..4] + [file[4], file[5], file[6]] == [0x7F, 0x45, 0x4C, 0x46, 2, 1, 1];
    FieldBytes(file, 16, 2);
    FieldBytes(file, 18, 2);
    FieldBytes(file, 20, 4);
    FieldBytes(file, 24, 8);
    FieldBytes(file, 32, 8);
    FieldBytes(file, 40, 8);
    FieldBytes(file, 48, 4);
    FieldBytes(file, 52, 2);
    FieldBytes(file, 54, 2);
    FieldBytes(file, 56, 2);
    Pieces(file);
  }

  lemma PartOf(file: Bytes, at: nat, n: nat, lo: nat, hi: nat)
    requires at + n <= |file| && lo <= hi <= n
    ensures file[at + lo..at + hi] == file[at..at + n][lo..hi]
  {
    var whole, piece := file[at..at + n], file[at + lo..at + hi];
    assert forall i | 0 <= i < hi - lo :: piece[i] == whole[lo..hi][i];
  }

  lemma ProgramParts(kind: uint32, flags: uint32, offset: uint64, vaddr: uint64, paddr: uint64, filesz: uint64, memsz: uint64,
                     align: uint64)
    ensures var data := ProgramHeader(kind, flags, offset, vaddr, paddr, filesz, memsz, align);
            && data[0..4] == C.Little(kind, 4) && data[4..8] == C.Little(flags, 4) && data[8..16] == C.Little(offset, 8)
            && data[16..24] == C.Little(vaddr, 8) && data[32..40] == C.Little(filesz, 8)
            && data[40..48] == C.Little(memsz, 8) && data[48..56] == C.Little(align, 8)
  {
    hide C.Little;
    Joined(C.Little(kind, 4), C.Little(flags, 4), C.Little(offset, 8), C.Little(vaddr, 8), C.Little(paddr, 8),
           C.Little(filesz, 8), C.Little(memsz, 8), C.Little(align, 8));
  }

  lemma Joined(a: Bytes, b: Bytes, c: Bytes, d: Bytes, e: Bytes, f: Bytes, g: Bytes, h: Bytes)
    requires |a| == |b| == 4 && |c| == |d| == |e| == |f| == |g| == |h| == 8
    ensures var data := a + b + c + d + e + f + g + h;
            data[0..4] == a && data[4..8] == b && data[8..16] == c && data[16..24] == d && data[32..40] == f
            && data[40..48] == g && data[48..56] == h
  {
  }

  /** So is every program header; type 1 is a load segment, type 3 names the interpreter, and an odd flag word executes. */
  lemma SegmentReads(file: Bytes, at: nat, kind: uint32, flags: uint32, offset: uint64, vaddr: uint64, paddr: uint64,
                     filesz: uint64, memsz: uint64, align: uint64)
    requires at + PHDR_SIZE <= |file|
    requires file[at..at + PHDR_SIZE] == ProgramHeader(kind, flags, offset, vaddr, paddr, filesz, memsz, align)
    ensures SegmentAt(file, at) ==
            Segment(match kind case 1 => Load case 3 => Interp case _ => OtherKind, flags % 2 == 1,
                    offset, vaddr, filesz, memsz, align)
    ensures Loads(SegmentAt(file, at)) <==> kind == 1 && memsz > 0
  {
    hide C.Little, Field, ProgramHeader;
    C.Widths();
    ProgramParts(kind, flags, offset, vaddr, paddr, filesz, memsz, align);
    PartOf(file, at, PHDR_SIZE, 0, 4);
    PartOf(file, at, PHDR_SIZE, 4, 8);
    PartOf(file, at, PHDR_SIZE, 8, 16);
    PartOf(file, at, PHDR_SIZE, 16, 24);
    PartOf(file, at, PHDR_SIZE, 32, 40);
    PartOf(file, at, PHDR_SIZE, 40, 48);
    PartOf(file, at, PHDR_SIZE, 48, 56);
    FieldRead(file, at, 4, kind);
    FieldRead(file, at + 4, 4, flags);
    FieldRead(file, at + 8, 8, offset);
    FieldRead(file, at + 16, 8, vaddr);
    FieldRead(file, at + 32, 8, filesz);
    FieldRead(file, at + 40, 8, memsz);
    FieldRead(file, at + 48, 8, align);
  }

  function TableOf(file: Bytes, h: Header): (segments: seq<Segment>)
    requires TableFits(h, |file|)
    ensures |segments| == h.phnum
  {
    seq(h.phnum, i requires 0 <= i < h.phnum => SegmentAt(file, h.phoff + i * PHDR_SIZE))
  }

  // ----- The interpreter

  /** A string of the file that ends in a NUL. */
  predicate InterpOk(s: Segment, file: Bytes) {
    2 <= s.filesz <= 4096 && s.offset <= |file| && s.filesz <= |file| - s.offset && file[s.offset + s.filesz - 1] == 0
  }

  function UpToNul(data: Bytes): Bytes {
    if data == [] || data[0] == 0 then [] else [data[0]] + UpToNul(data[1..])
  }

  /** A string up to its NUL is what stands before the first NUL. */
  lemma {:induction false} NulEnds(path: Bytes, rest: Bytes)
    requires 0 !in path
    ensures UpToNul(path + [0] + rest) == path
  {
    if path == [] {
      assert (path + [0] + rest)[0] == 0;
    } else {
      var all := path + [0] + rest;
      assert all[0] == path[0] && all[1..] == path[1..] + [0] + rest;
      assert path[0] in path;
      NulEnds(path[1..], rest);
    }
  }

  /** The entry covers a text of the file, not empty and of at most 4095 bytes, and the NUL behind it. */
  lemma InterpOkExactly(s: Segment, file: Bytes)
    ensures InterpOk(s, file) <==>
              s.offset + s.filesz <= |file|
              && exists text: Bytes :: 1 <= |text| <= 4095 && file[s.offset..s.offset + s.filesz] == text + [0]
  {
    if s.offset + s.filesz <= |file| {
      var data := file[s.offset..s.offset + s.filesz];
      if InterpOk(s, file) {
        assert data == data[..|data| - 1] + [0];
      }
    }
  }

  function PathOf(s: Segment, file: Bytes): Bytes {
    if InterpOk(s, file) then UpToNul(file[s.offset..s.offset + s.filesz]) else []
  }

  /** Every PT_INTERP entry names a path, and none but the last a path that is not empty. */
  ghost predicate InterpretersOk(segments: seq<Segment>, file: Bytes) {
    && (forall s | s in segments && s.kind == Interp :: InterpOk(s, file))
    && forall i, j | 0 <= i < j < |segments| && segments[i].kind == Interp && segments[j].kind == Interp ::
         PathOf(segments[i], file) == []
  }

  ghost predicate InterpreterSeen(segments: seq<Segment>, file: Bytes, path: Bytes) {
    && (path == [] || exists s | s in segments :: s.kind == Interp && PathOf(s, file) == path)
    && forall s | s in segments && s.kind == Interp :: PathOf(s, file) == [] || PathOf(s, file) == path
  }

  /** One more entry. */
  lemma InterpreterNext(segments: seq<Segment>, s: Segment, file: Bytes, path: Bytes)
    requires InterpretersOk(segments, file) && InterpreterSeen(segments, file, path)
    ensures s.kind != Interp ==>
              InterpretersOk(segments + [s], file) && InterpreterSeen(segments + [s], file, path)
    ensures s.kind == Interp ==>
              (InterpretersOk(segments + [s], file) <==> path == [] && InterpOk(s, file))
    ensures s.kind == Interp && path == [] && InterpOk(s, file) ==>
              InterpreterSeen(segments + [s], file, PathOf(s, file))
  {
    hide InterpOk, PathOf;
    var all := segments + [s];
    assert all[|segments|] == s && forall i | 0 <= i < |segments| :: all[i] == segments[i];
    if s.kind == Interp && path != [] {
      var t :| t in segments && t.kind == Interp && PathOf(t, file) == path;
      var i :| 0 <= i < |segments| && segments[i] == t;
      assert PathOf(all[i], file) != [];
    }
  }

  lemma {:induction false} NotLater(segments: seq<Segment>, n: nat, file: Bytes)
    requires n <= |segments| && InterpretersOk(segments, file)
    ensures InterpretersOk(segments[..n], file)
  {
    hide InterpOk, PathOf;
  }

  predicate Loads(s: Segment) { s.kind == Load && s.memsz != 0 }

  /** `(align & (align - 1)) == 0` for a positive align. */
  predicate OneBit(align: nat)
    requires align > 0
  {
    align == 1 || (align % 2 == 0 && OneBit(align / 2))
  }

  lemma {:induction false} OneBitIsPow2(align: nat)
    requires align > 0 && OneBit(align) && align <= 0x1_0000_0000
    ensures IsPow2(align)
  {
    var k := Exponent(align);
    if k > 32 {
      Pow2Grows(32, k);
      Bits.WordPowers();
    }
  }

  lemma {:induction false} Exponent(align: nat) returns (k: nat)
    requires align > 0 && OneBit(align)
    ensures align == Bits.Pow2(k)
  {
    if align == 1 {
      k := 0;
    } else {
      k := Exponent(align / 2);
      k := k + 1;
    }
  }

  /** The conditions on a load segment, for a file of `size` bytes. */
  predicate SegmentOk(s: Segment, page: nat, size: nat)
    requires 0 < page < INT64_MAX
  {
    && s.filesz <= s.memsz
    && s.vaddr <= INT64_MAX - page
    && s.memsz <= INT64_MAX - page - s.vaddr
    && s.offset <= size
    && s.filesz <= size - s.offset
    && s.vaddr % page == s.offset % page
    && (s.align > 1 ==> OneBit(s.align) && s.align <= 0x1_0000_0000 && s.vaddr % s.align == s.offset % s.align)
  }

  lemma SameRemainder(x: int, y: int, a: nat)
    requires a > 0
    ensures x % a == y % a <==> Multiple(x - y, a)
  {
    if x % a == y % a {
      assert x - y == (x / a - y / a) * a;
      ModUnique(x - y, x / a - y / a, 0, a);
    }
    if Multiple(x - y, a) {
      var q := (x - y) / a;
      assert x == y + q * a;
      ModPlus(y, q, a);
    }
  }

  lemma {:induction false} Pow2IsOneBit(k: nat)
    ensures OneBit(Bits.Pow2(k))
  {
    if k > 0 { Pow2IsOneBit(k - 1); }
  }

  /**
    The conditions, without their care for overflow: the segment and a page more fit below 2^63, its file part lies in
    the file, and address and offset differ by a multiple of the page and of the alignment, a power of two up to 2^32.
   */
  lemma SegmentOkExactly(s: Segment, page: nat, size: nat)
    requires PageSize(page)
    ensures SegmentOk(s, page, size) <==>
              && s.filesz <= s.memsz && s.vaddr + s.memsz + page <= INT64_MAX && s.offset + s.filesz <= size
              && Multiple(s.vaddr - s.offset, page)
              && (s.align > 1 ==> IsPow2(s.align) && Multiple(s.vaddr - s.offset, s.align))
  {
    SameRemainder(s.vaddr, s.offset, page);
    if s.align > 1 {
      SameRemainder(s.vaddr, s.offset, s.align);
      if OneBit(s.align) && s.align <= 0x1_0000_0000 { OneBitIsPow2(s.align); }
      if IsPow2(s.align) {
        var k: nat :| s.align == Bits.Pow2(k) && k <= 32;
        Pow2IsOneBit(k);
        Divides64(s.align);
      }
    }
    hide OneBit, IsPow2, Multiple, PageSize;
  }

  /** The table is in the file and in the segment's file part; the entry point is at an executable byte of the segment. */
  lemma PlacesExactly(s: Segment, h: Header, size: nat)
    ensures TableFits(h, size) <==> 1 <= h.phnum <= 1170 && h.phoff + 56 * h.phnum <= size
    ensures HoldsTable(s, h) <==> s.offset <= h.phoff && h.phoff + 56 * h.phnum <= s.offset + s.filesz
    ensures HoldsEntry(s, h) <==> s.executable && s.vaddr <= h.entry < s.vaddr + s.memsz
  {
  }

  /** The program header table lies inside what segment `s` maps from the file. */
  predicate HoldsTable(s: Segment, h: Header) {
    s.offset <= h.phoff && h.phoff - s.offset <= s.filesz && h.TableSize() <= s.filesz - (h.phoff - s.offset)
  }

  predicate HoldsEntry(s: Segment, h: Header) {
    s.executable && s.vaddr <= h.entry && h.entry - s.vaddr < s.memsz
  }

  predicate PageSize(page: nat) { page <= 0x1_0000 && page > 0 && OneBit(page) }

  /** Among them are the page sizes of AArch64. */
  lemma PageSizes()
    ensures PageSize(0x1000) && PageSize(0x4000) && PageSize(0x1_0000)
  {
  }

  lemma PageIsPow2(page: nat)
    requires PageSize(page)
    ensures IsPow2(page) && Multiple(TWO_64, page)
  {
    OneBitIsPow2(page);
    Divides64(page);
  }

  function FirstPageOf(s: Segment, page: nat): uint64
    requires page > 0
  {
    Down(s.vaddr, page)
  }

  function EndPageOf(s: Segment, page: nat): uint64
    requires page > 0
  {
    PageUp(Wrap(s.vaddr + s.memsz), page)
  }

  /** The load segments seen so far lie in [first, end), and `alignment` is the largest of theirs. */
  ghost predicate Bounded(segments: seq<Segment>, page: nat, size: nat, first: nat, end: nat, alignment: nat)
    requires PageSize(page)
  {
    && IsPow2(alignment) && page <= alignment
    && Multiple(first, page) && Multiple(end, page) && end <= INT64_MAX
    && forall s | s in segments && Loads(s) ::
         && SegmentOk(s, page, size) && first <= FirstPageOf(s, page) && EndPageOf(s, page) <= end
         && s.align <= alignment
  }

  /** What acceptance guarantees. */
  ghost predicate Accepted(e: Executable, page: nat, size: nat) {
    && PageSize(page)
    && Bounded(e.segments, page, size, e.firstPage, e.endPage, e.alignment)
    && e.firstPage < e.endPage
    && (exists s | s in e.segments :: Loads(s) && HoldsEntry(s, e.header))
    && (exists s | s in e.segments ::
          Loads(s) && HoldsTable(s, e.header) && e.phdrAddress == Wrap(s.vaddr + e.header.phoff - s.offset))
  }

  lemma SegmentBounds(s: Segment, page: nat, size: nat)
    requires 0 < page < INT64_MAX && SegmentOk(s, page, size)
    ensures s.filesz <= s.memsz && s.vaddr + s.memsz + page <= INT64_MAX && s.offset + s.filesz <= size
    ensures s.vaddr % page == s.offset % page
  {
  }

  lemma SegmentPages(s: Segment, page: nat, size: nat)
    requires PageSize(page) && Loads(s) && SegmentOk(s, page, size)
    ensures FirstPageOf(s, page) <= s.vaddr < s.vaddr + s.memsz <= EndPageOf(s, page) <= INT64_MAX
    ensures Multiple(FirstPageOf(s, page), page) && Multiple(EndPageOf(s, page), page)
  {
    hide PageUp, Down, Multiple, SegmentOk;
    SegmentBounds(s, page, size);
    Exact(s.vaddr, page);
    UpBounds(s.vaddr + s.memsz, page);
  }

  /** Bounded, or nothing loaded yet and the bounds at their initial values. */
  ghost predicate BoundedSoFar(segments: seq<Segment>, page: nat, size: nat, first: nat, end: nat, alignment: nat)
    requires PageSize(page)
  {
    Bounded(segments, page, size, first, end, alignment)
    || (first == 0xFFFF_FFFF_FFFF_FFFF && end == 0 && alignment == page && forall s | s in segments :: !Loads(s))
  }

  /** The accumulation step of the loop. */
  lemma BoundedGrows(segments: seq<Segment>, s: Segment, page: nat, size: nat, first: nat, end: nat, alignment: nat)
    requires PageSize(page) && BoundedSoFar(segments, page, size, first, end, alignment)
    requires Loads(s) && SegmentOk(s, page, size)
    ensures var lo := FirstPageOf(s, page);
            var hi := EndPageOf(s, page);
            Bounded(segments + [s], page, size, if lo < first then lo else first,
                    if hi > end then hi else end, if s.align > alignment then s.align else alignment)
  {
    hide FirstPageOf, EndPageOf, SegmentOk, IsPow2, Multiple;
    SegmentPages(s, page, size);
    PageIsPow2(page);
    if s.align > alignment { AlignIsPow2(s, page, size); }
  }

  lemma AlignIsPow2(s: Segment, page: nat, size: nat)
    requires PageSize(page) && SegmentOk(s, page, size) && s.align > 1
    ensures IsPow2(s.align)
  {
    OneBitIsPow2(s.align);
  }

  lemma BoundedSkips(segments: seq<Segment>, s: Segment, page: nat, size: nat, first: nat, end: nat, alignment: nat)
    requires PageSize(page) && BoundedSoFar(segments, page, size, first, end, alignment) && !Loads(s)
    ensures BoundedSoFar(segments + [s], page, size, first, end, alignment)
  {
  }

  /** The program header table is not empty, not too large, and inside the file. */
  predicate TableFits(h: Header, size: nat) {
    0 < h.phnum <= 65536 / PHDR_SIZE && h.phoff <= size && h.TableSize() <= size - h.phoff
  }

  ghost predicate Refused(file: Bytes, page: nat)
    requires PageSize(page)
  {
    !Recognised(file) || !TableFits(HeaderOf(file), |file|)
    || var header := HeaderOf(file);
       var segments := TableOf(file, header);
       || (exists s | s in segments :: Loads(s) && !SegmentOk(s, page, |file|))
       || !InterpretersOk(segments, file)
       || (forall s | s in segments :: !(Loads(s) && HoldsEntry(s, header)))
       || (forall s | s in segments :: !(Loads(s) && HoldsTable(s, header)))
  }

  ghost predicate EntrySeen(segments: seq<Segment>, h: Header, seen: bool) {
    seen <==> exists s | s in segments :: Loads(s) && HoldsEntry(s, h)
  }

  ghost predicate TableSeen(segments: seq<Segment>, h: Header, seen: bool, address: uint64) {
    && (seen <==> exists s | s in segments :: Loads(s) && HoldsTable(s, h))
    && (seen ==> exists s | s in segments :: Loads(s) && HoldsTable(s, h)
                                           && address == Wrap(s.vaddr + h.phoff - s.offset))
  }

  /**
    OpenElfExecutable: exactly when it refuses a file, and what it accepts. `runnable` says that the file is a
    regular one and has an execute bit.
   */
  method OpenElfExecutable(file: Bytes, runnable: bool, page: nat) returns (e: Option<Executable>)
    requires PageSize(page)
    ensures e.None? <==> !runnable || Refused(file, page)
    ensures e.Some? ==>
              && Accepted(e.value, page, |file|)
              && e.value.header == HeaderOf(file) && e.value.segments == TableOf(file, HeaderOf(file))
              && InterpreterSeen(e.value.segments, file, e.value.interpreter)
  {
    hide SegmentOk, HoldsEntry, HoldsTable, Bounded, BoundedSoFar, OneBit, PageSize, Loads, Wrap, TableOf, Recognised,
         InterpretersOk, InterpreterSeen;
    if !runnable || !Recognised(file) { return None; }
    LongEnough(file);
    var header := HeaderOf(file);
    if !TableFits(header, |file|) { return None; }
    var ok, e0, entryMapped, tableMapped := Layout(header, TableOf(file, header), page, file);
    if !ok { return None; }
    if !entryMapped || !tableMapped { return None; }
    LoadedIsBounded(e0, page, |file|);
    if e0.firstPage >= e0.endPage { return None; }
    return Some(e0);
  }

  lemma LongEnough(file: Bytes)
    requires Recognised(file)
    ensures |file| >= HEADER_SIZE
  {
  }

  /** Some load segment puts the first page below the end. */
  lemma LoadedIsBounded(e: Executable, page: nat, size: nat)
    requires PageSize(page) && BoundedSoFar(e.segments, page, size, e.firstPage, e.endPage, e.alignment)
    requires exists s | s in e.segments :: Loads(s)
    ensures Bounded(e.segments, page, size, e.firstPage, e.endPage, e.alignment) && e.firstPage < e.endPage
  {
    hide FirstPageOf, EndPageOf, SegmentOk, Multiple;
    var s :| s in e.segments && Loads(s);
    SegmentPages(s, page, size);
  }

  /** The loop over the program headers. */
  method Layout(header: Header, segments: seq<Segment>, page: nat, file: Bytes)
    returns (ok: bool, e: Executable, entryMapped: bool, tableMapped: bool)
    requires PageSize(page)
    ensures !ok <==> (exists s | s in segments :: Loads(s) && !SegmentOk(s, page, |file|)) || !InterpretersOk(segments, file)
    ensures ok ==>
              && e.header == header && e.segments == segments
              && BoundedSoFar(segments, page, |file|, e.firstPage, e.endPage, e.alignment)
              && EntrySeen(segments, header, entryMapped)
              && TableSeen(segments, header, tableMapped, e.phdrAddress)
              && InterpreterSeen(segments, file, e.interpreter)
  {
    hide SegmentOk, FirstPageOf, EndPageOf, Bounded, Multiple, InterpretersOk, InterpreterSeen, InterpOk, PathOf;
    var first: uint64, end: uint64, alignment: uint64 := 0xFFFF_FFFF_FFFF_FFFF, 0, page;
    var address: uint64, interpreter: Bytes := 0, [];
    entryMapped, tableMapped, e := false, false, Executable(header, segments, 0, 0, 0, 0, []);
    NoInterpreter(file);
    for i := 0 to |segments|
      invariant BoundedSoFar(segments[..i], page, |file|, first, end, alignment)
      invariant EntrySeen(segments[..i], header, entryMapped)
      invariant TableSeen(segments[..i], header, tableMapped, address)
      invariant forall s | s in segments[..i] && Loads(s) :: SegmentOk(s, page, |file|)
      invariant InterpretersOk(segments[..i], file) && InterpreterSeen(segments[..i], file, interpreter)
    {
      var s := segments[i];
      assert segments[..i + 1] == segments[..i] + [s];
      InterpreterNext(segments[..i], s, file, interpreter);
      if s.kind == Interp {
        if interpreter != [] || !InterpOk(s, file) {
          if InterpretersOk(segments, file) { NotLater(segments, i + 1, file); }
          ok := false;
          return;
        }
        interpreter := PathOf(s, file);
      }
      if !Loads(s) {
        BoundedSkips(segments[..i], s, page, |file|, first, end, alignment);
        continue;
      }
      if !SegmentOk(s, page, |file|) { ok := false; return; }
      BoundedGrows(segments[..i], s, page, |file|, first, end, alignment);
      if FirstPageOf(s, page) < first { first := FirstPageOf(s, page); }
      if EndPageOf(s, page) > end { end := EndPageOf(s, page); }
      if s.align > alignment { alignment := s.align; }
      if HoldsEntry(s, header) { entryMapped := true; }
      if HoldsTable(s, header) {
        address := Wrap(s.vaddr + header.phoff - s.offset);
        tableMapped := true;
      }
    }
    assert segments[..|segments|] == segments;
    ok, e := true, Executable(header, segments, first, end, alignment, address, interpreter);
  }

  lemma NoInterpreter(file: Bytes)
    ensures InterpretersOk([], file) && InterpreterSeen([], file, [])
  {
  }
}
