/**
  Starting a program: its image is mapped, and what it finds on its stack tells it the truth about
  where it was mapped, who runs it and what it is called.
 */
module Launch {
  import opened Types
  import opened Align
  import Elf
  import ElfMap
  import S = StackImage

  /** One address space, seen twice: which cells are mapped, and the bytes of those that are. */
  ghost predicate OneSpace(cells: ElfMap.Memory, bytes: S.Memory) {
    forall a: nat :: cells(a).Mapped? ==> cells(a).value == bytes(a)
  }

  function Seen(cells: ElfMap.Memory, bytes: S.Memory): S.Memory {
    (a: nat) => if cells(a).Mapped? then cells(a).value else bytes(a)
  }

  function Patched(cells: ElfMap.Memory, bytes: S.Memory): ElfMap.Memory {
    (a: nat) => if cells(a).Mapped? then ElfMap.Mapped(bytes(a)) else ElfMap.Unmapped
  }

  function ProgramOf(e: Elf.Executable, size: nat): S.Program
    requires Elf.TableFits(e.header, size)
  {
    S.Program(e.phdrAddress, e.header.phnum, e.header.entry)
  }

  /** The mapped bytes at `a` are those of the file from `from` on. */
  ghost predicate Found(cells: ElfMap.Memory, a: nat, file: Elf.Bytes, from: nat, n: nat) {
    from + n <= |file| && forall x: nat | a <= x < a + n :: cells(x) == ElfMap.Mapped(file[from + x - a])
  }

  // ----- What a vector tells

  /** What an entry tells whether or not there is an interpreter. */
  ghost predicate TellsWho(m: S.Memory, t: S.Entry, id: S.Identity, e: Elf.Executable, execfn: Elf.Bytes) {
    && (t.tag == S.AT_UID ==> t.value == id.uid) && (t.tag == S.AT_EUID ==> t.value == id.euid)
    && (t.tag == S.AT_GID ==> t.value == id.gid) && (t.tag == S.AT_EGID ==> t.value == id.egid)
    && (t.tag == S.AT_SECURE ==> t.value <= 1 && (t.value == 0 <==> id.uid == id.euid && id.gid == id.egid))
    && (t.tag == S.AT_PHENT ==> t.value == Elf.PHDR_SIZE) && (t.tag == S.AT_PHNUM ==> t.value == e.header.phnum)
    && (t.tag == S.AT_EXECFN ==> S.Slice(m, t.value, |execfn| + 1) == execfn + [0])
  }

  /** `a` lies in the image at `base` where the linked address `v` lies from the first page on. */
  predicate PlacedAt(a: nat, e: Elf.Executable, base: nat, v: int) {
    a - base == v - e.firstPage && e.firstPage <= v < e.endPage
  }

  /** Every load segment with the program header table keeps its bytes. */
  ghost predicate TableKept(e: Elf.Executable, page: nat)
    requires page > 0
  {
    forall i | 0 <= i < |e.segments| && Elf.Loads(e.segments[i]) && Elf.HoldsTable(e.segments[i], e.header) ::
      ElfMap.Kept(e.segments, i, page)
  }

  /** `a` is the place of the entry point in an executable segment and has the byte that such a segment calls for. */
  ghost predicate IsEntry(cells: ElfMap.Memory, a: nat, e: Elf.Executable, file: Elf.Bytes, page: nat, base: nat)
    requires page > 0
  {
    && PlacedAt(a, e, base, e.header.entry)
    && (exists s | s in e.segments :: Elf.Loads(s) && Elf.HoldsEntry(s, e.header))
    && forall i | 0 <= i < |e.segments| && Elf.HoldsEntry(e.segments[i], e.header) && ElfMap.Kept(e.segments, i, page) ::
         cells(a) == ElfMap.Expected(e.segments[i], file, e.header.entry)
  }

  /** What an entry tells the interpreter about the program that was mapped for it. */
  ghost predicate TellsWhere(cells: ElfMap.Memory, t: S.Entry, e: Elf.Executable, file: Elf.Bytes, page: nat, base: nat,
                             pc: uint64, interpreterEntry: uint64)
    requires page > 0
  {
    && (t.tag == S.AT_PHDR ==>
          PlacedAt(t.value, e, base, e.phdrAddress)
          && (TableKept(e, page) ==> Found(cells, t.value, file, e.header.phoff, e.header.TableSize())))
    && (t.tag == S.AT_ENTRY ==> IsEntry(cells, t.value, e, file, page, base))
    && (t.tag == S.AT_BASE ==> Wrap(t.value + interpreterEntry) == pc)
  }

  /** The entries that may change; three of them only under an interpreter. */
  predicate Renewed(tag: uint64, interpreted: bool) {
    tag in {S.AT_UID, S.AT_EUID, S.AT_GID, S.AT_EGID, S.AT_SECURE, S.AT_PHENT, S.AT_PHNUM, S.AT_EXECFN}
    || (interpreted && tag in {S.AT_PHDR, S.AT_ENTRY, S.AT_BASE})
  }

  ghost predicate SameBut(was: seq<S.Entry>, now: seq<S.Entry>, interpreted: bool) {
    |now| == |was|
    && forall i | 0 <= i < |was| :: now[i].tag == was[i].tag && (!Renewed(was[i].tag, interpreted) ==> now[i] == was[i])
  }

  lemma VectorTellsWho(was: seq<S.Entry>, now: seq<S.Entry>, p: S.Program, loaded: Option<S.Loaded>, id: S.Identity,
                       execfn: Elf.Bytes, address: uint64, e: Elf.Executable, m: S.Memory)
    requires S.AllRewritten(was, now, p, loaded, id, address) && p.phnum == e.header.phnum
    requires S.Slice(m, address, |execfn| + 1) == execfn + [0]
    ensures forall t | t in now :: TellsWho(m, t, id, e, execfn)
    ensures SameBut(was, now, loaded.Some?)
  {
    hide S.Slice;
    forall t | t in now ensures TellsWho(m, t, id, e, execfn) {
      var i :| 0 <= i < |now| && now[i] == t;
      assert now[i] == S.Rewritten(was[i], p, loaded, id, address);
    }
  }

  lemma VectorTellsWhere(was: seq<S.Entry>, now: seq<S.Entry>, p: S.Program, loaded: S.Loaded, id: S.Identity,
                         address: uint64, t: S.Entry)
    requires S.AllRewritten(was, now, p, Some(loaded), id, address) && t in now
    ensures t.tag == S.AT_PHDR ==> t.value == ElfMap.Place(loaded.bias, p.phdrAddress)
    ensures t.tag == S.AT_ENTRY ==> t.value == ElfMap.Place(loaded.bias, p.entry)
    ensures t.tag == S.AT_BASE ==> t.value == loaded.interpreterBias
  {
    var i :| 0 <= i < |now| && now[i] == t;
    assert now[i] == S.Rewritten(was[i], p, Some(loaded), id, address);
  }

  lemma InterpreterBias(pc: uint64, entry: uint64)
    ensures Wrap(Wrap(pc - entry) + entry) == pc
  {
    ElfMap.WrapSum(pc - entry, entry);
    ElfMap.SmallWrap(pc);
  }

  /** The address kept for the table and the entry point are addresses of the image. */
  lemma Linked(e: Elf.Executable, page: nat, size: nat)
    requires Elf.Accepted(e, page, size)
    ensures e.firstPage <= e.phdrAddress && e.phdrAddress + e.header.TableSize() <= e.endPage
    ensures e.firstPage <= e.header.entry < e.endPage
  {
    var s := ElfMap.TableSegment(e, page, size);
    ElfMap.SegmentWithin(e, s, page, size);
    var x :| x in e.segments && Elf.Loads(x) && Elf.HoldsEntry(x, e.header);
    ElfMap.SegmentWithin(e, x, page, size);
    ElfMap.Powers(e, page, size);
    hide Elf.Accepted;
    Inside(e, s, page, size);
    Inside(e, x, page, size);
    hide ElfMap.Within;
    ElfMap.SmallWrap(s.vaddr + e.header.phoff - s.offset);
  }

  lemma Inside(e: Elf.Executable, s: Elf.Segment, page: nat, size: nat)
    requires Elf.PageSize(page) && ElfMap.Within(s, page, size, e.firstPage, e.endPage)
    ensures e.firstPage <= s.vaddr && s.vaddr + s.memsz <= e.endPage && s.filesz <= s.memsz
  {
    hide Elf.FirstPageOf, Elf.EndPageOf, Elf.SegmentOk;
    Elf.SegmentPages(s, page, size);
    Elf.SegmentBounds(s, page, size);
  }

  // ----- Two memories in one

  /** The mapping is seen, and what lies elsewhere stays. */
  lemma MappingSeen(before: ElfMap.Memory, after: ElfMap.Memory, bytes: S.Memory, lo: int, hi: nat)
    requires OneSpace(before, bytes) && ElfMap.Outside(before, after, lo, hi)
    ensures OneSpace(after, Seen(after, bytes))
    ensures S.KeptOutside(bytes, Seen(after, bytes), lo, hi)
  {
  }

  lemma WritingSeen(cells: ElfMap.Memory, before: S.Memory, after: S.Memory, lo: int, hi: nat)
    requires OneSpace(cells, before) && S.KeptOutside(before, after, lo, hi)
    ensures OneSpace(Patched(cells, after), after)
    ensures ElfMap.Outside(cells, Patched(cells, after), lo, hi)
    ensures forall a: nat :: Patched(cells, after)(a).Mapped? == cells(a).Mapped?
  {
  }

  /** Memory that stays the same from the stack pointer to the end of the vector holds the same image. */
  lemma HeldStill(before: S.Memory, after: S.Memory, sp: nat, v: S.Image, lo: int, hi: nat)
    requires S.Holds(before, sp, v) && S.KeptOutside(before, after, lo, hi) && (hi <= sp || v.End(sp) <= lo)
    ensures S.Holds(after, sp, v)
  {
    hide S.Holds;
    assert S.Slice(after, sp, v.End(0)) == S.Slice(before, sp, v.End(0));
    S.ImageCopied(before, after, sp, sp, v);
  }

  // ----- Where the image holds what the vector points at

  /** The cells of the image are the bytes of the same addresses after the stack has been written. */
  ghost predicate ImageSame(before: ElfMap.Memory, after: ElfMap.Memory, base: nat, size: nat) {
    forall a: nat | base <= a < base + size :: after(a) == before(a)
  }

  lemma Placed(e: Elf.Executable, mapping: uint64, page: nat, size: nat, v: int)
    requires Elf.Accepted(e, page, size) && ElfMap.KernelMapping(e, mapping, page) && e.firstPage <= v < e.endPage
    ensures PlacedAt(ElfMap.Place(ElfMap.Bias(e, mapping), v), e, ElfMap.Base(e, mapping), v)
  {
    ElfMap.ReservationFits(e, mapping, page, size);
    hide *;
    hide Elf.Accepted;
  }

  lemma TableFound(e: Elf.Executable, file: Elf.Bytes, page: nat, mapping: uint64, cells: ElfMap.Memory)
    requires Elf.Accepted(e, page, |file|) && Elf.TableFits(e.header, |file|) && ElfMap.KernelMapping(e, mapping, page)
    requires var bias := ElfMap.Bias(e, mapping);
             forall i | 0 <= i < |e.segments| && ElfMap.Kept(e.segments, i, page) ::
               ElfMap.SegmentImage(cells, bias, e.segments[i], file)
    requires TableKept(e, page)
    ensures Found(cells, ElfMap.Place(ElfMap.Bias(e, mapping), e.phdrAddress), file, e.header.phoff, e.header.TableSize())
  {
    hide Elf.Accepted, ElfMap.SegmentImage, ElfMap.Kept, ElfMap.Place, ElfMap.Bias, Elf.HoldsTable, Elf.Loads,
         ElfMap.KernelMapping;
    ElfMap.Powers(e, page, |file|);
    var bias := ElfMap.Bias(e, mapping);
    forall s | s in e.segments && Elf.Loads(s) && Elf.HoldsTable(s, e.header)
      ensures ElfMap.SegmentImage(cells, bias, s, file)
    {
      var i :| 0 <= i < |e.segments| && e.segments[i] == s;
    }
    ElfMap.TableIsMapped(e, file, page, bias, cells);
    Linked(e, page, |file|);
    ElfMap.ReservationFits(e, mapping, page, |file|);
    var a, n := ElfMap.Place(bias, e.phdrAddress), e.header.TableSize();
    forall x: nat | a <= x < a + n
      ensures cells(x) == ElfMap.Mapped(file[e.header.phoff + x - a])
    {
      var v := e.phdrAddress + x - a;
      assert ElfMap.Place(bias, v) == x;
    }
  }

  lemma EntryFound(e: Elf.Executable, file: Elf.Bytes, page: nat, mapping: uint64, cells: ElfMap.Memory)
    requires Elf.Accepted(e, page, |file|) && ElfMap.KernelMapping(e, mapping, page)
    requires var bias := ElfMap.Bias(e, mapping);
             forall i | 0 <= i < |e.segments| && ElfMap.Kept(e.segments, i, page) ::
               ElfMap.SegmentImage(cells, bias, e.segments[i], file)
    ensures IsEntry(cells, ElfMap.Place(ElfMap.Bias(e, mapping), e.header.entry), e, file, page, ElfMap.Base(e, mapping))
  {
    ElfMap.Powers(e, page, |file|);
    Linked(e, page, |file|);
    Placed(e, mapping, page, |file|, e.header.entry);
    hide ElfMap.Kept, ElfMap.Place, ElfMap.Bias, ElfMap.Base, ElfMap.KernelMapping, ElfMap.Expected, PlacedAt,
         Elf.Bounded, Elf.HoldsTable, Elf.PageSize;
  }

  lemma VectorTellsPlaces(was: seq<S.Entry>, now: seq<S.Entry>, e: Elf.Executable, file: Elf.Bytes, page: nat,
                          mapping: uint64, pc: uint64, entry: uint64, id: S.Identity, address: uint64,
                          cells: ElfMap.Memory, t: S.Entry)
    requires Elf.Accepted(e, page, |file|) && Elf.TableFits(e.header, |file|) && ElfMap.KernelMapping(e, mapping, page)
    requires var bias := ElfMap.Bias(e, mapping);
             && S.AllRewritten(was, now, ProgramOf(e, |file|), Some(S.Loaded(bias, Wrap(pc - entry))), id, address)
             && forall i | 0 <= i < |e.segments| && ElfMap.Kept(e.segments, i, page) ::
                  ElfMap.SegmentImage(cells, bias, e.segments[i], file)
    requires t in now
    ensures TellsWhere(cells, t, e, file, page, ElfMap.Base(e, mapping), pc, entry)
  {
    hide Elf.Accepted, ElfMap.SegmentImage, ElfMap.Kept, ElfMap.Place, ElfMap.Bias, ElfMap.Base, ElfMap.KernelMapping,
         PlacedAt, IsEntry, TableKept, Found, S.AllRewritten, Wrap;
    ElfMap.Powers(e, page, |file|);
    Linked(e, page, |file|);
    EntryFound(e, file, page, mapping, cells);
    Placed(e, mapping, page, |file|, e.phdrAddress);
    if TableKept(e, page) { TableFound(e, file, page, mapping, cells); }
    InterpreterBias(pc, entry);
    VectorTellsWhere(was, now, ProgramOf(e, |file|), S.Loaded(ElfMap.Bias(e, mapping), Wrap(pc - entry)), id, address, t);
  }

  lemma TellsStill(before: ElfMap.Memory, after: ElfMap.Memory, t: S.Entry, e: Elf.Executable, file: Elf.Bytes, page: nat,
                   base: nat, pc: uint64, entry: uint64)
    requires Elf.Accepted(e, page, |file|) && TellsWhere(before, t, e, file, page, base, pc, entry)
    requires ImageSame(before, after, base, ElfMap.Size(e))
    ensures TellsWhere(after, t, e, file, page, base, pc, entry)
  {
    Linked(e, page, |file|);
    hide Elf.Accepted, TableKept, Elf.HoldsEntry, ElfMap.Kept, ElfMap.Expected;
  }

  /** Writing outside the image leaves it. */
  lemma ImageUntouched(cells: ElfMap.Memory, before: S.Memory, after: S.Memory, lo: int, hi: nat, base: nat, size: nat)
    requires OneSpace(cells, before) && S.KeptOutside(before, after, lo, hi)
    requires base + size <= lo || hi <= base
    ensures ImageSame(cells, Patched(cells, after), base, size)
  {
  }

  /** What was mapped before has its bytes, outside [lo, hi). */
  ghost predicate BytesKept(before: ElfMap.Memory, after: ElfMap.Memory, lo: int, hi: int) {
    forall a: nat | before(a).Mapped? && (a < lo || hi <= a) :: after(a) == before(a)
  }

  lemma MappingKeeps(before: ElfMap.Memory, after: ElfMap.Memory, at: nat, end: nat, lo: int, hi: int,
                     bottom: int, top: int)
    requires ElfMap.Outside(before, after, lo, hi) && at <= lo && hi <= end
    requires forall a: nat | at <= a < end :: before(a) == ElfMap.Unmapped
    ensures BytesKept(before, after, bottom, top)
  {
  }

  lemma WritingKeeps(before: ElfMap.Memory, middle: ElfMap.Memory, after: ElfMap.Memory, lo: int, hi: int,
                     bottom: int, top: int)
    requires BytesKept(before, middle, bottom, top) && ElfMap.Outside(middle, after, lo, hi) && bottom <= lo && hi <= top
    ensures BytesKept(before, after, bottom, top)
  {
  }

  lemma KeptFurther(before: ElfMap.Memory, middle: ElfMap.Memory, after: ElfMap.Memory, bottom: int, top: int)
    requires BytesKept(before, middle, bottom, top) && BytesKept(middle, after, bottom, top)
    ensures BytesKept(before, after, bottom, top)
  {
  }

  lemma KeptSoFar(m: ElfMap.Memory, bottom: int, top: int)
    ensures BytesKept(m, m, bottom, top)
  {
  }

  const SCRATCH: nat := 512

  /** The lowest address written: that of the new copy with its thread name, or that of the file's name. */
  function Bottom(sp: nat, execfn: Elf.Bytes): int
    requires |execfn| < 0x1_0000_0000
  {
    var copy := S.NewSp(sp, execfn) - 32;
    if copy < sp - SCRATCH then copy else sp - SCRATCH
  }

  lemma BottomBounds(sp: nat, execfn: Elf.Bytes)
    requires |execfn| < 0x1_0000_0000
    ensures Bottom(sp, execfn) <= S.NewSp(sp, execfn) - 32 && Bottom(sp, execfn) <= sp - SCRATCH
  {
  }

  /** Where the kernel may map: not where the stack is, which reaches from the lowest address written up to `top`. */
  predicate AsideOfStack(e: Elf.Executable, mapping: uint64, bottom: int, top: nat)
    requires e.firstPage <= e.endPage
  {
    mapping + ElfMap.ReserveSize(e) <= bottom || top <= mapping
  }

  /** The name of the file is left below the stack pointer for open to read, and nothing else changes. */
  method LeaveName(process: ElfMap.Process, stack: S.Tracee, fdPath: Elf.Bytes, sp: nat,
                   ghost bottom: int, ghost v: S.Image) returns (ok: bool)
    requires OneSpace(process.memory, stack.memory) && S.Holds(stack.memory, sp, v)
    requires |fdPath| < SCRATCH <= sp && bottom <= sp - SCRATCH
    modifies process, stack
    ensures OneSpace(process.memory, stack.memory) && S.Holds(stack.memory, sp, v)
    ensures BytesKept(old(process.memory), process.memory, bottom, v.End(sp)) && process.refused == old(process.refused)
    ensures forall a: nat :: process.memory(a).Mapped? == old(process.memory)(a).Mapped?
    ensures ok ==> S.Slice(stack.memory, sp - SCRATCH, |fdPath| + 1) == fdPath + [0]
  {
    hide S.Holds, OneSpace, Patched, S.KeptOutside, ElfMap.Outside, BytesKept, S.Slice, S.Written;
    ghost var cells, bytes := process.memory, stack.memory;
    S.KeptAtFirst(stack.memory, sp - SCRATCH, sp);
    ok := stack.Write(sp - SCRATCH, fdPath + [0], stack.memory, sp - SCRATCH, sp);
    process.memory := Patched(process.memory, stack.memory);
    WritingSeen(cells, bytes, stack.memory, sp - SCRATCH, sp);
    HeldStill(bytes, stack.memory, sp, v, sp - SCRATCH, sp);
    KeptSoFar(cells, bottom, v.End(sp));
    WritingKeeps(cells, cells, process.memory, sp - SCRATCH, sp, bottom, v.End(sp));
    S.SliceWritten(bytes, sp - SCRATCH, fdPath + [0]);
  }

  /** The program is mapped aside of the stack, whose image stays. */
  method MapProgram(process: ElfMap.Process, stack: S.Tracee, e: Elf.Executable, file: Elf.Bytes, fdPath: Elf.Bytes,
                    page: nat, mapping: Option<uint64>, sp: nat, ghost bottom: int, ghost v: S.Image)
    returns (ok: bool, bias: uint64)
    requires OneSpace(process.memory, stack.memory) && S.Holds(stack.memory, sp, v)
    requires |fdPath| < SCRATCH <= sp && bottom <= sp - SCRATCH
    requires Elf.Accepted(e, page, |file|) && !process.refused
    requires mapping.Some? ==>
               && Multiple(mapping.value, page) && mapping.value + ElfMap.ReserveSize(e) <= Elf.INT64_MAX
               && AsideOfStack(e, mapping.value, bottom, v.End(sp))
               && forall a: nat | mapping.value <= a < mapping.value + ElfMap.ReserveSize(e) ::
                    process.memory(a) == ElfMap.Unmapped
    modifies process, stack
    ensures OneSpace(process.memory, stack.memory)
    ensures ok ==> BytesKept(old(process.memory), process.memory, bottom, v.End(sp))
    ensures ok ==>
              && S.Holds(stack.memory, sp, v)
              && mapping.Some? && ElfMap.KernelMapping(e, mapping.value, page) && bias == ElfMap.Bias(e, mapping.value)
              && (ElfMap.Base(e, mapping.value) + ElfMap.Size(e) <= bottom || v.End(sp) <= ElfMap.Base(e, mapping.value))
              && forall i | 0 <= i < |e.segments| && ElfMap.Kept(e.segments, i, page) ::
                   ElfMap.SegmentImage(process.memory, bias, e.segments[i], file)
  {
    hide Elf.Accepted, S.Holds, OneSpace, Seen, ElfMap.WholeImage, ElfMap.Outside, ElfMap.Kept, ElfMap.SegmentImage,
         Multiple, ElfMap.Bias, ElfMap.Base, ElfMap.KernelMapping, S.KeptOutside, ElfMap.ReserveSize, ElfMap.Place,
         BytesKept, S.Slice;
    ElfMap.Powers(e, page, |file|);
    bias := 0;
    ok := LeaveName(process, stack, fdPath, sp, bottom, v);
    if !ok { return; }
    ghost var cells, bytes := process.memory, stack.memory;
    ok, bias := process.MapExecutable(e, file, page, mapping);
    if mapping.None? { return; }
    ghost var base := ElfMap.Base(e, mapping.value);
    MappingSeen(cells, process.memory, stack.memory, base, base + ElfMap.Size(e));
    stack.memory := Seen(process.memory, stack.memory);
    if !ok { return; }
    ElfMap.ReservationFits(e, mapping.value, page, |file|);
    HeldStill(bytes, stack.memory, sp, v, base, base + ElfMap.Size(e));
    MappingKeeps(cells, process.memory, mapping.value, mapping.value + ElfMap.ReserveSize(e), base, base + ElfMap.Size(e),
                 bottom, v.End(sp));
    KeptFurther(old(process.memory), cells, process.memory, bottom, v.End(sp));
  }

  /**
    InitializeElfExecutable. `mapping` is the kernel's answer to the reservation, `interpreter` the entry point of the one
    that the kernel has started, at `pc`.
   */
  method InitializeElfExecutable(process: ElfMap.Process, stack: S.Tracee, e: Elf.Executable, file: Elf.Bytes,
                                 fdPath: Elf.Bytes, page: nat, mapping: Option<uint64>, interpreter: Option<uint64>,
                                 sp: nat, pc: uint64, execfn: Elf.Bytes, comm: Elf.Bytes, id: S.Identity, ghost top: nat)
    returns (error: int, newSp: int, auxv: seq<S.Entry>, ghost v: S.Image)
    requires OneSpace(process.memory, stack.memory)
    requires Elf.Accepted(e, page, |file|) && Elf.TableFits(e.header, |file|) && !process.refused
    requires |execfn| < 0x1_0000_0000 && |execfn| + 64 <= sp && |fdPath| < SCRATCH <= sp
    requires forall w | S.Holds(stack.memory, sp, w) :: w.End(sp) <= top
    requires mapping.Some? ==>
               && Multiple(mapping.value, page) && mapping.value + ElfMap.ReserveSize(e) <= Elf.INT64_MAX
               && AsideOfStack(e, mapping.value, Bottom(sp, execfn), top)
               && forall a: nat | mapping.value <= a < mapping.value + ElfMap.ReserveSize(e) ::
                    process.memory(a) == ElfMap.Unmapped
    modifies process, stack
    ensures OneSpace(process.memory, stack.memory)
    ensures error == 0 ==>
              && newSp == S.NewSp(sp, execfn) && newSp >= 32 && Multiple(sp - newSp, 16)
              && S.Holds(old(stack.memory), sp, v) && S.Holds(stack.memory, newSp, v.(aux := auxv))
              && SameBut(v.aux, auxv, interpreter.Some?)
              && (forall t | t in auxv :: TellsWho(stack.memory, t, id, e, execfn))
              && S.Slice(stack.memory, newSp - 32, |S.ThreadName(comm)| + 1) == S.ThreadName(comm) + [0]
    ensures error == 0 && interpreter.Some? ==>
              && mapping.Some? && ElfMap.KernelMapping(e, mapping.value, page)
              && forall t | t in auxv ::
                   TellsWhere(process.memory, t, e, file, page, ElfMap.Base(e, mapping.value), pc, interpreter.value)
    ensures error == 0 ==> BytesKept(old(process.memory), process.memory, Bottom(sp, execfn), v.End(sp))
    ensures interpreter.None? ==> forall a: nat :: process.memory(a).Mapped? == old(process.memory)(a).Mapped?
  {
    hide Elf.Accepted, S.Holds, OneSpace, Seen, Patched, ElfMap.WholeImage, S.AllRewritten, S.NewSp, Bottom,
         S.KeptOutside, ElfMap.Outside, ElfMap.Kept, ElfMap.SegmentImage, TellsWhere, TellsWho, SameBut, Wrap, Multiple,
         ElfMap.Bias, ElfMap.Base, ElfMap.KernelMapping, ImageSame, S.Slice, BytesKept,
         S.ThreadName;
    newSp, auxv := 0, [];
    var cursor, was;
    ghost var refused;
    error, cursor, was, v, refused := stack.ReadImage(sp);
    if error != 0 { return; }
    ElfMap.Powers(e, page, |file|);
    S.RoomForName(sp, execfn);
    BottomBounds(sp, execfn);
    ghost var bottom := Bottom(sp, execfn);
    KeptSoFar(process.memory, bottom, v.End(sp));
    var loaded: Option<S.Loaded> := None;
    if interpreter.Some? {
      var ok, bias := MapProgram(process, stack, e, file, fdPath, page, mapping, sp, Bottom(sp, execfn), v);
      if !ok { error := -1; return; }
      loaded := Some(S.Loaded(bias, Wrap(pc - interpreter.value)));
    }
    ghost var cells, bytes := process.memory, stack.memory;
    error, newSp, auxv := stack.Renew(sp, cursor, was, ProgramOf(e, |file|), loaded, execfn, comm, id, v);
    process.memory := Patched(process.memory, stack.memory);
    WritingSeen(cells, bytes, stack.memory, newSp - 32, v.End(sp));
    if error != 0 { return; }
    WritingKeeps(old(process.memory), cells, process.memory, newSp - 32, v.End(sp), bottom, v.End(sp));
    VectorTellsWho(v.aux, auxv, ProgramOf(e, |file|), loaded, id, execfn, v.End(newSp), e, stack.memory);
    if interpreter.Some? {
      ghost var base := ElfMap.Base(e, mapping.value);
      ImageUntouched(cells, bytes, stack.memory, newSp - 32, v.End(sp), base, ElfMap.Size(e));
      forall t | t in auxv
        ensures TellsWhere(process.memory, t, e, file, page, base, pc, interpreter.value)
      {
        VectorTellsPlaces(v.aux, auxv, e, file, page, mapping.value, pc, interpreter.value, id, v.End(newSp), cells, t);
        TellsStill(cells, process.memory, t, e, file, page, base, pc, interpreter.value);
      }
    }
  }
}
