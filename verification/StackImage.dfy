/**
  The initial stack of a program that has just been executed: its argument count, argument and
  environment pointers and auxiliary vector are moved down to make room for the name the
  program is to believe it was started by, and the vector's entries are brought up to date.
 */
module StackImage {
  import opened Types
  import opened Codec
  import opened Align

  const E2BIG: int := 7
  const EFAULT: int := 14

  const AT_NULL: uint64 := 0
  const AT_PHDR: uint64 := 3
  const AT_PHENT: uint64 := 4
  const AT_PHNUM: uint64 := 5
  const AT_BASE: uint64 := 7
  const AT_ENTRY: uint64 := 9
  const AT_UID: uint64 := 11
  const AT_EUID: uint64 := 12
  const AT_GID: uint64 := 13
  const AT_EGID: uint64 := 14
  const AT_SECURE: uint64 := 23
  const AT_EXECFN: uint64 := 31

  const MANY: nat := 0x10_0000
  const MANY_ENTRIES: nat := 128

  const PROGRAM_HEADER_SIZE: uint64 := 56
  const SLASH: byte := 47

  // ----- Memory

  type Memory = nat -> byte

  function Slice(m: Memory, a: nat, n: nat): (data: Bytes)
    ensures |data| == n && forall i | 0 <= i < n :: data[i] == m(a + i)
  {
    seq(n, i requires 0 <= i => m(a + i))
  }

  function Written(m: Memory, a: nat, data: Bytes): Memory {
    (x: nat) => if a <= x < a + |data| then data[x - a] else m(x)
  }

  function Word(data: Bytes): uint64
    requires |data| == 8
  {
    LittleOfValue(data);
    Widths();
    Value(data)
  }

  function WordAt(m: Memory, a: nat): uint64 { Word(Slice(m, a, 8)) }

  lemma WordOfBytes(m: Memory, a: nat, value: uint64)
    requires Slice(m, a, 8) == Little(value, 8)
    ensures WordAt(m, a) == value
  {
    Widths();
    ValueOfLittle(value, 8);
  }

  // ----- What a program finds on its stack

  datatype Entry = Entry(tag: uint64, value: uint64)

  /** `gap` is the word after the argument pointers, which the kernel leaves null. */
  datatype Image = Image(args: seq<uint64>, gap: uint64, env: seq<uint64>, aux: seq<Entry>) {
    function EnvAt(sp: nat): nat { sp + 8 * (|args| + 2) }

    function AuxAt(sp: nat): nat { EnvAt(sp) + 8 * (|env| + 1) }

    function End(sp: nat): nat { AuxAt(sp) + 16 * |aux| }

    /** Neither list stops before its end. */
    predicate Terminated() {
      && (forall i | 0 <= i < |env| :: env[i] != 0)
      && |aux| > 0 && aux[|aux| - 1].tag == AT_NULL
      && (forall i | 0 <= i < |aux| - 1 :: aux[i].tag != AT_NULL)
    }
  }

  ghost predicate PointersAt(m: Memory, a: nat, pointers: seq<uint64>) {
    forall i | 0 <= i < |pointers| :: WordAt(m, a + 8 * i) == pointers[i]
  }

  ghost predicate EntriesAt(m: Memory, a: nat, aux: seq<Entry>) {
    forall i | 0 <= i < |aux| :: WordAt(m, a + 16 * i) == aux[i].tag && WordAt(m, a + 16 * i + 8) == aux[i].value
  }

  /** A program started at `sp` finds this image. */
  ghost predicate Holds(m: Memory, sp: nat, v: Image) {
    && WordAt(m, sp) == |v.args|
    && PointersAt(m, sp + 8, v.args) && WordAt(m, v.EnvAt(sp) - 8) == v.gap
    && PointersAt(m, v.EnvAt(sp), v.env) && WordAt(m, v.AuxAt(sp) - 8) == 0
    && EntriesAt(m, v.AuxAt(sp), v.aux)
    && v.Terminated()
  }

  function PointersOf(m: Memory, a: nat, n: nat): (p: seq<uint64>)
    ensures |p| == n && PointersAt(m, a, p)
  {
    hide WordAt;
    seq(n, i requires 0 <= i => WordAt(m, a + 8 * i))
  }

  lemma PointersAgree(m: Memory, a: nat, p: seq<uint64>, q: seq<uint64>)
    requires PointersAt(m, a, p) && PointersAt(m, a, q) && |p| == |q|
    ensures p == q
  {
    assert forall i | 0 <= i < |p| :: p[i] == WordAt(m, a + 8 * i) == q[i];
  }

  lemma EnvEnds(m: Memory, a: nat, p: seq<uint64>, q: seq<uint64>)
    requires PointersAt(m, a, p) && WordAt(m, a + 8 * |p|) == 0 && PointersAt(m, a, q)
    ensures |q| > |p| ==> q[|p|] == 0
  {
  }

  lemma AuxEnds(m: Memory, a: nat, p: seq<Entry>, q: seq<Entry>)
    requires EntriesAt(m, a, p) && EntriesAt(m, a, q) && |p| > 0
    ensures |q| > |p| ==> q[|p| - 1].tag == p[|p| - 1].tag
  {
  }

  lemma EntriesAgree(m: Memory, a: nat, p: seq<Entry>, q: seq<Entry>)
    requires EntriesAt(m, a, p) && EntriesAt(m, a, q) && |p| == |q|
    ensures p == q
  {
    assert forall i | 0 <= i < |p| :: p[i] == Entry(WordAt(m, a + 16 * i), WordAt(m, a + 16 * i + 8)) == q[i];
  }

  /** What a program finds is determined by its memory: there is one way to read it. */
  lemma ImageUnique(m: Memory, sp: nat, v: Image, w: Image)
    requires Holds(m, sp, v) && Holds(m, sp, w)
    ensures v == w
  {
    hide WordAt;
    PointersAgree(m, sp + 8, v.args, w.args);
    EnvEnds(m, v.EnvAt(sp), v.env, w.env);
    EnvEnds(m, v.EnvAt(sp), w.env, v.env);
    PointersAgree(m, v.EnvAt(sp), v.env, w.env);
    AuxEnds(m, v.AuxAt(sp), v.aux, w.aux);
    AuxEnds(m, v.AuxAt(sp), w.aux, v.aux);
    EntriesAgree(m, v.AuxAt(sp), v.aux, w.aux);
  }

  // ----- The auxiliary vector

  datatype Identity = Identity(uid: uint32, euid: uint32, gid: uint32, egid: uint32)

  /** Where the program was mapped when an interpreter runs it. */
  datatype Loaded = Loaded(bias: uint64, interpreterBias: uint64)

  datatype Program = Program(phdrAddress: uint64, phnum: uint64, entry: uint64)

  function Rewritten(e: Entry, p: Program, loaded: Option<Loaded>, id: Identity, execfn: uint64): Entry {
    if e.tag == AT_UID then e.(value := id.uid)
    else if e.tag == AT_EUID then e.(value := id.euid)
    else if e.tag == AT_GID then e.(value := id.gid)
    else if e.tag == AT_EGID then e.(value := id.egid)
    else if e.tag == AT_SECURE then e.(value := if id.uid != id.euid || id.gid != id.egid then 1 else 0)
    else if e.tag == AT_PHDR && loaded.Some? then e.(value := Wrap(loaded.value.bias + p.phdrAddress))
    else if e.tag == AT_PHENT then e.(value := PROGRAM_HEADER_SIZE)
    else if e.tag == AT_PHNUM then e.(value := p.phnum)
    else if e.tag == AT_ENTRY && loaded.Some? then e.(value := Wrap(loaded.value.bias + p.entry))
    else if e.tag == AT_BASE && loaded.Some? then e.(value := loaded.value.interpreterBias)
    else if e.tag == AT_EXECFN then e.(value := execfn)
    else e
  }

  ghost predicate AllRewritten(was: seq<Entry>, now: seq<Entry>, p: Program, loaded: Option<Loaded>, id: Identity,
                               execfn: uint64)
  {
    |now| == |was| && forall i | 0 <= i < |was| :: now[i] == Rewritten(was[i], p, loaded, id, execfn)
  }

  function EntryBytes(e: Entry): (data: Bytes)
    ensures |data| == 16
  {
    Little(e.tag, 8) + Little(e.value, 8)
  }

  function AuxBytes(aux: seq<Entry>): (data: Bytes)
    ensures |data| == 16 * |aux|
  {
    seq(16 * |aux|, i requires 0 <= i < 16 * |aux| => EntryBytes(aux[i / 16])[i % 16])
  }

  lemma AuxBytesAt(aux: seq<Entry>, i: nat)
    requires i < |aux|
    ensures AuxBytes(aux)[16 * i..16 * i + 16] == EntryBytes(aux[i])
  {
    hide EntryBytes;
    var all, e := AuxBytes(aux), EntryBytes(aux[i]);
    forall k | 0 <= k < 16
      ensures all[16 * i..16 * i + 16][k] == e[k]
    {
      assert (16 * i + k) / 16 == i && (16 * i + k) % 16 == k;
    }
  }

  lemma EntryWritten(m: Memory, a: nat, e: Entry)
    requires Slice(m, a, 16) == EntryBytes(e)
    ensures WordAt(m, a) == e.tag && WordAt(m, a + 8) == e.value
  {
    hide Word;
    var all := Slice(m, a, 16);
    assert Slice(m, a, 8) == all[..8] == Little(e.tag, 8);
    assert Slice(m, a + 8, 8) == all[8..] == Little(e.value, 8);
    WordOfBytes(m, a, e.tag);
    WordOfBytes(m, a + 8, e.value);
  }

  lemma SliceOfSlice(m: Memory, a: nat, n: nat, lo: nat, hi: nat)
    requires lo <= hi <= n
    ensures Slice(m, a + lo, hi - lo) == Slice(m, a, n)[lo..hi]
  {
  }

  lemma EntriesWritten(m: Memory, a: nat, aux: seq<Entry>)
    requires Slice(m, a, 16 * |aux|) == AuxBytes(aux)
    ensures EntriesAt(m, a, aux)
  {
    hide Slice, EntryBytes, AuxBytes, WordAt;
    forall i | 0 <= i < |aux|
      ensures WordAt(m, a + 16 * i) == aux[i].tag && WordAt(m, a + 16 * i + 8) == aux[i].value
    {
      AuxBytesAt(aux, i);
      SliceOfSlice(m, a, 16 * |aux|, 16 * i, 16 * i + 16);
      EntryWritten(m, a + 16 * i, aux[i]);
    }
  }

  /** A word of the part that is copied unchanged. */
  lemma WordCopied(before: Memory, now: Memory, sp: nat, newSp: nat, kept: nat, at: nat)
    requires Slice(now, newSp, kept) == Slice(before, sp, kept) && at + 8 <= kept
    ensures WordAt(now, newSp + at) == WordAt(before, sp + at)
  {
    hide Slice;
    SliceOfSlice(before, sp, kept, at, at + 8);
    SliceOfSlice(now, newSp, kept, at, at + 8);
  }

  lemma PointersCopied(before: Memory, now: Memory, sp: nat, newSp: nat, kept: nat, at: nat, p: seq<uint64>)
    requires Slice(now, newSp, kept) == Slice(before, sp, kept) && at + 8 * |p| <= kept
    requires PointersAt(before, sp + at, p)
    ensures PointersAt(now, newSp + at, p)
  {
    hide Slice, WordAt;
    forall i | 0 <= i < |p|
      ensures WordAt(now, newSp + at + 8 * i) == p[i]
    {
      assert WordAt(before, sp + at + 8 * i) == p[i];
      WordCopied(before, now, sp, newSp, kept, at + 8 * i);
    }
  }

  lemma EntriesCopied(before: Memory, now: Memory, sp: nat, newSp: nat, kept: nat, at: nat, aux: seq<Entry>)
    requires Slice(now, newSp, kept) == Slice(before, sp, kept) && at + 16 * |aux| <= kept
    requires EntriesAt(before, sp + at, aux)
    ensures EntriesAt(now, newSp + at, aux)
  {
    hide Slice, WordAt;
    forall i | 0 <= i < |aux|
      ensures WordAt(now, newSp + at + 16 * i) == aux[i].tag && WordAt(now, newSp + at + 16 * i + 8) == aux[i].value
    {
      assert WordAt(before, sp + at + 16 * i) == aux[i].tag && WordAt(before, sp + at + 16 * i + 8) == aux[i].value;
      WordCopied(before, now, sp, newSp, kept, at + 16 * i);
      WordCopied(before, now, sp, newSp, kept, at + 16 * i + 8);
    }
  }

  /** An image is found wherever its bytes are. */
  lemma ImageCopied(before: Memory, now: Memory, sp: nat, newSp: nat, v: Image)
    requires Holds(before, sp, v) && Slice(now, newSp, v.End(0)) == Slice(before, sp, v.End(0))
    ensures Holds(now, newSp, v)
  {
    hide Slice, WordAt;
    var kept := v.End(0);
    WordCopied(before, now, sp, newSp, kept, 0);
    PointersCopied(before, now, sp, newSp, kept, 8, v.args);
    WordCopied(before, now, sp, newSp, kept, v.EnvAt(0) - 8);
    PointersCopied(before, now, sp, newSp, kept, v.EnvAt(0), v.env);
    WordCopied(before, now, sp, newSp, kept, v.AuxAt(0) - 8);
    EntriesCopied(before, now, sp, newSp, kept, v.AuxAt(0), v.aux);
  }

  /** Copying all but the vector, and writing the vector anew, moves the image. */
  lemma ImageMoved(before: Memory, now: Memory, sp: nat, newSp: nat, v: Image, aux: seq<Entry>)
    requires Holds(before, sp, v) && v.(aux := aux).Terminated()
    requires Slice(now, newSp, v.AuxAt(0)) == Slice(before, sp, v.AuxAt(0))
    requires Slice(now, v.AuxAt(newSp), 16 * |aux|) == AuxBytes(aux)
    ensures Holds(now, newSp, v.(aux := aux))
  {
    hide Slice, WordAt, AuxBytes;
    var kept := v.AuxAt(0);
    WordCopied(before, now, sp, newSp, kept, 0);
    PointersCopied(before, now, sp, newSp, kept, 8, v.args);
    WordCopied(before, now, sp, newSp, kept, v.EnvAt(0) - 8);
    PointersCopied(before, now, sp, newSp, kept, v.EnvAt(0), v.env);
    WordCopied(before, now, sp, newSp, kept, kept - 8);
    EntriesWritten(now, v.AuxAt(newSp), aux);
  }

  lemma RewritingTerminates(v: Image, aux: seq<Entry>, p: Program, loaded: Option<Loaded>, id: Identity, execfn: uint64)
    requires v.Terminated() && AllRewritten(v.aux, aux, p, loaded, id, execfn)
    ensures v.(aux := aux).Terminated()
  {
    assert forall i | 0 <= i < |aux| :: aux[i].tag == v.aux[i].tag;
  }

  // ----- The name of the new program

  /** The last component of a path, cut to what prctl keeps. */
  function ThreadName(comm: Bytes): (name: Bytes)
    ensures |name| <= 15
  {
    var last := LastComponent(comm);
    if |last| <= 15 then last else last[..15]
  }

  function LastComponent(path: Bytes): (last: Bytes)
    ensures |last| <= |path| && last == path[|path| - |last|..] && SLASH !in last
    ensures |last| < |path| ==> path[|path| - |last| - 1] == SLASH
  {
    if path == [] || path[|path| - 1] == SLASH then []
    else LastComponent(path[..|path| - 1]) + [path[|path| - 1]]
  }

  lemma LastUnfolds(path: Bytes)
    ensures LastComponent(path) == if path == [] || path[|path| - 1] == SLASH then []
                                   else LastComponent(path[..|path| - 1]) + [path[|path| - 1]]
  {
  }

  lemma {:induction false} LastFound(path: Bytes, start: nat)
    requires start <= |path| && (start == 0 || path[start - 1] == SLASH)
    requires forall i | start <= i < |path| :: path[i] != SLASH
    ensures LastComponent(path) == path[start..]
    decreases |path|
  {
    LastUnfolds(path);
    hide LastComponent;
    if start < |path| {
      var shorter := path[..|path| - 1];
      LastFound(shorter, start);
      assert path[start..] == shorter[start..] + [path[|path| - 1]];
    }
  }

  /** The thread is named by what follows the last slash, cut to 15 bytes. */
  lemma ThreadNameExactly(directory: Bytes, last: Bytes)
    requires SLASH !in last && (directory == [] || directory[|directory| - 1] == SLASH)
    ensures ThreadName(directory + last) == if |last| <= 15 then last else last[..15]
  {
    hide LastComponent;
    var path := directory + last;
    assert forall i | |directory| <= i < |path| :: path[i] == last[i - |directory|];
    LastFound(path, |directory|);
    assert path[|directory|..] == last;
  }

  function NewSp(sp: nat, execfn: Bytes): int
    requires |execfn| < 0x1_0000_0000
  {
    sp - PageUp(|execfn| + 1, 16)
  }

  /** There is room between the new copy and what lies above the old one for the name and its NUL. */
  lemma RoomForName(sp: nat, execfn: Bytes)
    requires |execfn| < 0x1_0000_0000
    ensures NewSp(sp, execfn) + |execfn| + 1 <= sp < NewSp(sp, execfn) + |execfn| + 17
    ensures Multiple(sp - NewSp(sp, execfn), 16)
  {
    hide PageUp, Multiple;
    UpBounds(|execfn| + 1, 16);
  }

  /** A range written in full, and what a later write elsewhere leaves of it. */
  lemma SliceWritten(before: Memory, a: nat, data: Bytes)
    ensures Slice(Written(before, a, data), a, |data|) == data
  {
  }

  lemma SliceKept(before: Memory, a: nat, data: Bytes, b: nat, n: nat)
    requires b + n <= a || a + |data| <= b
    ensures Slice(Written(before, a, data), b, n) == Slice(before, b, n)
  {
  }

  ghost predicate KeptOutside(before: Memory, now: Memory, lo: int, hi: nat) {
    forall x: nat | x < lo || hi <= x :: now(x) == before(x)
  }

  lemma KeptAtFirst(m: Memory, lo: int, hi: nat)
    ensures KeptOutside(m, m, lo, hi)
  {
  }

  lemma Parts(m: Memory, a: nat, head: Bytes, tail: Bytes)
    requires Slice(m, a, |head| + |tail|) == head + tail
    ensures Slice(m, a, |head|) == head && Slice(m, a + |head|, |tail|) == tail
  {
    hide Slice;
    SliceOfSlice(m, a, |head| + |tail|, 0, |head|);
    SliceOfSlice(m, a, |head| + |tail|, |head|, |head| + |tail|);
  }

  lemma TerminatedWhenHeld(m: Memory, sp: nat, v: Image)
    requires Holds(m, sp, v)
    ensures v.Terminated()
  {
  }

  lemma SizeKept(was: seq<Entry>, now: seq<Entry>, p: Program, loaded: Option<Loaded>, id: Identity, execfn: uint64)
    requires AllRewritten(was, now, p, loaded, id, execfn)
    ensures |now| == |was|
  {
  }

  class Tracee {
    var memory: Memory

    constructor (memory: Memory)
      ensures this.memory == memory
    {
      this.memory := memory;
    }

    /** Reading may fail, and does beyond the address space. */
    method ReadWord(a: nat) returns (ok: bool, value: uint64)
      ensures ok ==> value == WordAt(memory, a) && a + 8 <= TWO_64
    {
      ok := *;
      ok := ok && a + 8 <= TWO_64;
      value := WordAt(memory, a);
    }

    /** Writing may fail with part of the data written. */
    method Write(a: nat, data: Bytes, ghost before: Memory, ghost lo: int, ghost hi: nat) returns (ok: bool)
      requires KeptOutside(before, memory, lo, hi) && lo <= a && a + |data| <= hi
      modifies this
      ensures KeptOutside(before, memory, lo, hi)
      ensures ok ==> memory == Written(old(memory), a, data)
    {
      var done: int := *;
      if done < 0 || |data| < done { done := |data|; }
      memory := Written(memory, a, data[..done]);
      ok := done == |data|;
      assert data[..|data|] == data;
    }

    /** `refused` says that a read has failed; without that only a longer list than is allowed for does. */
    method ReadEnvironment(start: nat) returns (ok: bool, cursor: nat, ghost env: seq<uint64>, ghost refused: bool)
      ensures ok ==> cursor == start + 8 * (|env| + 1) && PointersAt(memory, start, env)
                     && WordAt(memory, cursor - 8) == 0 && cursor <= TWO_64
                     && |env| <= MANY && forall i | 0 <= i < |env| :: env[i] != 0
      ensures !ok && !refused ==> PointersAt(memory, start, env) && |env| == MANY + 1 && 0 !in env
    {
      hide WordAt;
      cursor, env, refused := start, [], false;
      var count := 0;
      while count <= MANY
        invariant count <= MANY + 1
        invariant cursor == start + 8 * count && |env| == count && PointersAt(memory, start, env) && !refused
        invariant forall i | 0 <= i < |env| :: env[i] != 0
      {
        var pointer;
        ok, pointer := ReadWord(cursor);
        refused := !ok;
        if !ok { return; }
        cursor := cursor + 8;
        if pointer == 0 { return; }
        env := env + [pointer];
        count := count + 1;
      }
      ok := false;
    }

    method ReadVector(start: nat) returns (ok: bool, cursor: nat, aux: seq<Entry>, ghost refused: bool)
      ensures ok ==> cursor == start + 16 * |aux| && EntriesAt(memory, start, aux) && cursor <= TWO_64
                     && 0 < |aux| <= MANY_ENTRIES + 1 && aux[|aux| - 1].tag == AT_NULL
                     && forall i | 0 <= i < |aux| - 1 :: aux[i].tag != AT_NULL
      ensures !ok && !refused ==> EntriesAt(memory, start, aux) && |aux| == MANY_ENTRIES + 1
                                  && forall i | 0 <= i < |aux| :: aux[i].tag != AT_NULL
    {
      hide WordAt;
      cursor, aux, refused := start, [], false;
      var count := 0;
      while count <= MANY_ENTRIES
        invariant count <= MANY_ENTRIES + 1
        invariant cursor == start + 16 * count && |aux| == count && EntriesAt(memory, start, aux) && !refused
        invariant forall i | 0 <= i < |aux| :: aux[i].tag != AT_NULL
      {
        var tag, value;
        ok, tag := ReadWord(cursor);
        refused := !ok;
        if !ok { return; }
        ok, value := ReadWord(cursor + 8);
        refused := !ok;
        if !ok { return; }
        aux := aux + [Entry(tag, value)];
        cursor := cursor + 16;
        if tag == AT_NULL { return; }
        count := count + 1;
      }
      ok := false;
    }

    /** The switch over the vector's entries. */
    method RewriteVector(was: seq<Entry>, p: Program, loaded: Option<Loaded>, id: Identity, execfn: uint64)
      returns (aux: seq<Entry>)
      ensures AllRewritten(was, aux, p, loaded, id, execfn)
    {
      hide Rewritten;
      aux := was;
      for i := 0 to |aux|
        invariant |aux| == |was| && aux[i..] == was[i..]
        invariant forall j | 0 <= j < i :: aux[j] == Rewritten(was[j], p, loaded, id, execfn)
      {
        assert aux[i] == aux[i..][0];
        aux := aux[i := Rewritten(aux[i], p, loaded, id, execfn)];
      }
    }

    /** Argument count, environment and vector, as the kernel has laid them out at `sp`. */
    method ReadImage(sp: nat) returns (error: int, cursor: nat, aux: seq<Entry>, ghost v: Image, ghost refused: bool)
      ensures error in {0, E2BIG, EFAULT}
      ensures error == 0 ==> Holds(memory, sp, v) && aux == v.aux && cursor == v.End(sp) <= TWO_64
      ensures error == 0 ==> |v.args| <= MANY && |v.env| <= MANY && |v.aux| <= MANY_ENTRIES + 1
      ensures error == E2BIG ==> refused || WordAt(memory, sp) > MANY
      ensures error == EFAULT ==>
                || refused
                || (exists start, env: seq<uint64> :: PointersAt(memory, start, env) && |env| == MANY + 1 && 0 !in env)
                || (exists start, list: seq<Entry> :: EntriesAt(memory, start, list) && |list| == MANY_ENTRIES + 1
                                                      && forall i | 0 <= i < |list| :: list[i].tag != AT_NULL)
    {
      hide WordAt;
      cursor, aux, v := sp, [], Image([], 0, [], []);
      var ok, argc := ReadWord(sp);
      refused := !ok;
      if !ok || argc > MANY { return E2BIG, cursor, aux, v, refused; }
      ghost var args := PointersOf(memory, sp + 8, argc);
      ghost var env;
      ok, cursor, env, refused := ReadEnvironment(sp + 8 * (argc + 2));
      if !ok { return EFAULT, cursor, aux, v, refused; }
      ok, cursor, aux, refused := ReadVector(cursor);
      if !ok { return EFAULT, cursor, aux, v, refused; }
      v := Image(args, WordAt(memory, sp + 8 * (argc + 1)), env, aux);
      error := 0;
    }

    /** The new copy, and the name above it. */
    method CopyDown(sp: nat, newSp: nat, kept: nat, aux: seq<Entry>, execfn: Bytes, comm: Bytes, ghost v: Image)
      returns (ok: bool)
      requires Holds(memory, sp, v) && v.(aux := aux).Terminated() && |aux| == |v.aux| && kept == v.AuxAt(0)
      requires 32 <= newSp && newSp + |execfn| + 1 <= sp < newSp + |execfn| + 17
      modifies this
      ensures KeptOutside(old(memory), memory, newSp - 32, v.End(sp))
      ensures ok ==>
                && Holds(memory, newSp, v.(aux := aux))
                && Slice(memory, v.End(newSp), |execfn| + 1) == execfn + [0]
                && Slice(memory, newSp - 32, |ThreadName(comm)| + 1) == ThreadName(comm) + [0]
    {
      hide Holds, Slice, AuxBytes, Written, KeptOutside, ThreadName, Image.Terminated;
      ghost var lo, hi := newSp - 32, v.End(sp);
      KeptAtFirst(memory, lo, hi);
      var address := newSp + kept + 16 * |aux|;
      var stack := Slice(memory, sp, kept) + AuxBytes(aux);
      ok := Write(newSp, stack, old(memory), lo, hi);
      if !ok { return; }
      ghost var m1 := memory;
      SliceWritten(old(memory), newSp, stack);
      ok := Write(address, execfn + [0], old(memory), lo, hi);
      if !ok { return; }
      ghost var m2 := memory;
      SliceWritten(m1, address, execfn + [0]);
      SliceKept(m1, address, execfn + [0], newSp, |stack|);
      var name := ThreadName(comm) + [0];
      ok := Write(newSp - 32, name, old(memory), lo, hi);
      if !ok { return; }
      SliceWritten(m2, newSp - 32, name);
      SliceKept(m2, newSp - 32, name, newSp, |stack|);
      SliceKept(m2, newSp - 32, name, address, |execfn| + 1);
      Parts(memory, newSp, Slice(old(memory), sp, kept), AuxBytes(aux));
      ImageMoved(old(memory), memory, sp, newSp, v, aux);
    }

    /**
      What follows once the image is read and the program is mapped. On success the program finds, at the new stack
      pointer, the same arguments and environment and the vector brought up to date, with AT_EXECFN naming the
      string; on success or failure nothing at or above the end of the old vector is written, nor anything below
      the room for the new one.
     */
    method Renew(sp: nat, cursor: nat, was: seq<Entry>, p: Program, loaded: Option<Loaded>, execfn: Bytes, comm: Bytes,
                 id: Identity, ghost v: Image) returns (error: int, newSp: int, auxv: seq<Entry>)
      requires |execfn| < 0x1_0000_0000 && |execfn| + 64 <= sp
      requires Holds(memory, sp, v) && was == v.aux && cursor == v.End(sp) <= TWO_64
      modifies this
      ensures KeptOutside(old(memory), memory, newSp - 32, v.End(sp))
      ensures newSp == NewSp(sp, execfn) && Multiple(sp - newSp, 16) && 32 <= newSp
      ensures error == 0 ==>
                && v.End(newSp) + |execfn| + 1 <= v.End(sp) <= TWO_64
                && AllRewritten(v.aux, auxv, p, loaded, id, v.End(newSp))
                && Holds(memory, newSp, v.(aux := auxv))
                && Slice(memory, v.End(newSp), |execfn| + 1) == execfn + [0]
                && Slice(memory, newSp - 32, |ThreadName(comm)| + 1) == ThreadName(comm) + [0]
    {
      hide Holds, Slice, KeptOutside, AllRewritten, Rewritten, NewSp, Multiple, ThreadName;
      newSp, auxv := NewSp(sp, execfn), [];
      RoomForName(sp, execfn);
      TerminatedWhenHeld(memory, sp, v);
      var address: nat := newSp + cursor - sp;
      auxv := RewriteVector(was, p, loaded, id, address);
      SizeKept(v.aux, auxv, p, loaded, id, address);
      RewritingTerminates(v, auxv, p, loaded, id, address);
      var ok := CopyDown(sp, newSp, cursor - sp - 16 * |auxv|, auxv, execfn, comm, v);
      if !ok { return EFAULT, newSp, auxv; }
      error := *;
    }
  }
}
