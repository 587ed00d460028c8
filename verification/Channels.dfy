// Sequential input files: BGET and PTR# through a one-sector buffer per handle, down
// to the disk image at the other end of the cable.

module Channels {
  import opened Bytes
  import opened Layout
  import opened Flags
  import opened Server
  import opened Transfer
  import opened Blocks

  // Per open file, at an offset of $20 to $a0.
  const READ_ONLY := 0x110C      // bit 7: open for input only
  const START_PACKED := 0x110D   // bits 0-1: high bits of the start sector
  const FILE_START := 0x110F

  const SECTOR_TEMP := 0x10C5
  const BYTE_ADDR := 0xBC

  const BUFFERS_END := 0x1700

  // ---- The files as a caller sees them ----

  datatype File = File(start: nat, extent: nat, ptr: nat, warned: bool)

  datatype Op = Get(handle: byte) | Seek(handle: byte, to: nat)

  datatype Outcome =
    | Byte(value: byte)      // carry clear
    | EndOfFile              // $fe with carry set, once
    | EofError | ChannelError | ReadOnlyError
    | Done

  type Files = map<byte, File>

  // Handles are $10 to $17; anything else selects no file.
  function OffsetOf(handle: byte): byte { if 0x10 <= handle < 0x18 then 32 * (handle % 8) else 0 }

  function GetByte(f: File, image: seq<byte>): (File, Outcome)
    requires f.ptr < f.extent && 256 * f.start + f.extent <= |image|
  {
    (f.(ptr := f.ptr + 1), Byte(image[256 * f.start + f.ptr]))
  }

  predicate OnImage(f: File, image: seq<byte>) { f.ptr <= f.extent && 256 * f.start + f.extent <= |image| }

  function GetStep(f: File, image: seq<byte>): (File, Outcome)
    requires OnImage(f, image)
  {
    if f.ptr < f.extent then GetByte(f, image)
    else if f.warned then (f, EofError)
    else (f.(warned := true), EndOfFile)
  }

  // A seek past the end of a file open for input is refused, but only after PTR has
  // been moved to the end.
  function SeekStep(f: File, to: nat): (File, Outcome) {
    if to <= f.extent then (f.(ptr := to, warned := false), Done)
    else (f.(ptr := f.extent), ReadOnlyError)
  }

  predicate AllOnImage(fs: Files, image: seq<byte>) { forall y :: y in fs ==> OnImage(fs[y], image) }

  function Step(fs: Files, image: seq<byte>, op: Op): (r: (Files, Outcome))
    requires AllOnImage(fs, image)
    ensures AllOnImage(r.0, image) && r.0.Keys == fs.Keys
  {
    var y := OffsetOf(op.handle);
    if y !in fs then (fs, ChannelError)
    else
      var (f, out) := match op
        case Get(_) => GetStep(fs[y], image)
        case Seek(_, to) => SeekStep(fs[y], to);
      (fs[y := f], out)
  }

  function Run(fs: Files, image: seq<byte>, ops: seq<Op>): (r: (Files, seq<Outcome>))
    requires AllOnImage(fs, image)
    ensures AllOnImage(r.0, image) && r.0.Keys == fs.Keys && |r.1| == |ops|
  {
    if ops == [] then (fs, [])
    else
      var (next, out) := Step(fs, image, ops[0]);
      var (after, outs) := Run(next, image, ops[1..]);
      (after, [out] + outs)
  }

  // The next n bytes of a file.
  function Following(f: File, image: seq<byte>, n: nat): seq<Outcome>
    requires f.ptr + n <= f.extent && OnImage(f, image)
    decreases n
  {
    if n == 0 then [] else [Byte(image[256 * f.start + f.ptr])] + Following(f.(ptr := f.ptr + 1), image, n - 1)
  }

  lemma {:induction false} FollowingAt(f: File, image: seq<byte>, n: nat, i: nat)
    requires f.ptr + n <= f.extent && OnImage(f, image) && i < n
    ensures |Following(f, image, n)| == n && Following(f, image, n)[i] == Byte(image[256 * f.start + (f.ptr + i)])
    decreases n
  {
    var g := f.(ptr := f.ptr + 1);
    if n == 1 {
      assert Following(g, image, 0) == [];
    } else if i == 0 {
      FollowingAt(g, image, n - 1, 0);
    } else {
      FollowingAt(g, image, n - 1, i - 1);
      assert Following(f, image, n)[i] == Following(g, image, n - 1)[i - 1];
    }
  }

  // What a file's own operations return in a run.
  function Results(fs: Files, image: seq<byte>, ops: seq<Op>, y: byte): seq<Outcome>
    requires AllOnImage(fs, image)
  {
    OutcomesOf(ops, Run(fs, image, ops).1, y)
  }

  // Reading on from PTR gives the rest of the file, whatever other files are read or
  // moved in between.
  lemma {:induction false} ReadsOn(fs: Files, image: seq<byte>, y: byte, ops: seq<Op>)
    requires AllOnImage(fs, image) && y in fs
    requires OnlyGets(ops, y) && fs[y].ptr + CountOf(ops, y) <= fs[y].extent
    ensures Run(fs, image, ops).0[y] == fs[y].(ptr := fs[y].ptr + CountOf(ops, y))
    ensures Results(fs, image, ops, y) == Following(fs[y], image, CountOf(ops, y))
    decreases |ops|
  {
    hide Step, OffsetOf, Run, Results, CountOf, Following;
    if ops == [] {
      NoReads(fs, image, y);
    } else {
      var (next, out) := Step(fs, image, ops[0]);
      StepOn(fs, image, y, ops[0]);
      FirstOp(fs, image, y, ops);
      ReadsOn(next, image, y, ops[1..]);
      if OffsetOf(ops[0].handle) == y {
        FollowingFirst(fs[y], image, CountOf(ops[1..], y));
      }
    }
  }

  lemma FollowingFirst(f: File, image: seq<byte>, n: nat)
    requires OnImage(f, image) && f.ptr + n + 1 <= f.extent
    ensures Following(f, image, n + 1)
         == [Byte(image[256 * f.start + f.ptr])] + Following(f.(ptr := f.ptr + 1), image, n)
  {
  }

  lemma NoReads(fs: Files, image: seq<byte>, y: byte)
    requires AllOnImage(fs, image) && y in fs
    ensures Run(fs, image, []).0 == fs && CountOf([], y) == 0
    ensures Results(fs, image, [], y) == [] == Following(fs[y], image, 0)
  {
  }

  lemma FirstOp(fs: Files, image: seq<byte>, y: byte, ops: seq<Op>)
    requires AllOnImage(fs, image) && ops != []
    ensures var (next, out) := Step(fs, image, ops[0]);
      var rest := Results(next, image, ops[1..], y);
      && Run(fs, image, ops).0 == Run(next, image, ops[1..]).0
      && Results(fs, image, ops, y) == (if OffsetOf(ops[0].handle) == y then [out] + rest else rest)
    ensures CountOf(ops, y) == (if OffsetOf(ops[0].handle) == y then 1 else 0) + CountOf(ops[1..], y)
    ensures OnlyGets(ops, y) ==> OnlyGets(ops[1..], y) && (OffsetOf(ops[0].handle) == y ==> ops[0].Get?)
  {
    hide Step, OffsetOf;
    var (next, out) := Step(fs, image, ops[0]);
    var outs := Run(next, image, ops[1..]).1;
    assert ([out] + outs)[1..] == outs;
    assert forall i :: 0 <= i < |ops[1..]| ==> ops[1..][i] == ops[i + 1];
  }

  // One operation, seen from the file at y.
  lemma StepOn(fs: Files, image: seq<byte>, y: byte, op: Op)
    requires AllOnImage(fs, image) && y in fs
    ensures var (next, out) := Step(fs, image, op);
      if OffsetOf(op.handle) != y then next[y] == fs[y]
      else if op.Get? && fs[y].ptr < fs[y].extent then
        next[y] == fs[y].(ptr := fs[y].ptr + 1) && out == Byte(image[256 * fs[y].start + fs[y].ptr])
      else true
  {
  }

  predicate OnlyGets(ops: seq<Op>, y: byte) {
    forall i :: 0 <= i < |ops| && OffsetOf(ops[i].handle) == y ==> ops[i].Get?
  }

  function CountOf(ops: seq<Op>, y: byte): nat {
    if ops == [] then 0 else (if OffsetOf(ops[0].handle) == y then 1 else 0) + CountOf(ops[1..], y)
  }

  // The outcomes that belong to one file.
  function OutcomesOf(ops: seq<Op>, outs: seq<Outcome>, y: byte): seq<Outcome>
    requires |ops| == |outs|
  {
    if ops == [] then []
    else
      var rest := OutcomesOf(ops[1..], outs[1..], y);
      if OffsetOf(ops[0].handle) == y then [outs[0]] + rest else rest
  }

  // ---- The handle blocks in memory ----

  // A set bit for each open file, from bit 7 down.
  function MaskOf(n: nat): nat { if n <= 1 then 128 else MaskOf(n - 1) / 2 }

  function InUse(m: seq<byte>, y: byte): bool
    requires |m| == MEMORY_SIZE
  {
    y != 0 && And(m[OPEN_FILES], MaskOf(y / 32)) != 0
  }

  // A handle block read off memory; recorded is the sector in the buffer, 0 for none.
  datatype Block = Block(start: nat, extent: nat, ptr: nat, page: byte, flags: byte, recorded: nat, readOnly: bool)

  function BlockOf(m: seq<byte>, y: byte): Block
    requires |m| == MEMORY_SIZE
  {
    Block(Word(m[FILE_START + y], m[START_PACKED + y] % 4),
          Long(m[EXTENT + y], m[EXTENT + 1 + y], m[EXTENT + 2 + y]),
          Long(m[FILE_PTR + y], m[FILE_PTR + 1 + y], m[FILE_PTR + 2 + y]),
          m[BUFFER + y], m[FLAGS + y],
          Word(m[BUFFERED + y], m[BUFFERED + 1 + y]),
          m[READ_ONLY + y] >= 128)
  }

  function PageOf(y: byte): byte { 0x11 + y / 32 }

  // Handle $11 is the first: bit 7, the block at $1120 and the buffer at $1200; and so on to
  // $15.
  lemma FiveHandles()
    ensures OffsetOf(0x11) == 0x20 && MaskOf(1) == 0x80 && PageOf(0x20) == 0x12
    ensures OffsetOf(0x12) == 0x40 && MaskOf(2) == 0x40 && PageOf(0x40) == 0x13
    ensures OffsetOf(0x13) == 0x60 && MaskOf(3) == 0x20 && PageOf(0x60) == 0x14
    ensures OffsetOf(0x14) == 0x80 && MaskOf(4) == 0x10 && PageOf(0x80) == 0x15
    ensures OffsetOf(0x15) == 0xA0 && MaskOf(5) == 0x08 && PageOf(0xA0) == 0x16
  {
  }

  // A disk of which the host sees every sector where the ROM does.
  predicate DriveReady(m: seq<byte>, drive: byte)
    requires |m| == MEMORY_SIZE && drive < 4
  {
    m[DISK_HIGH + drive] < 128 && DiskNumber(m, drive) % 32 == 0
  }

  ghost predicate BufferHolds(m: seq<byte>, image: seq<byte>, y: byte, sector: nat) {
    && |m| == MEMORY_SIZE && |image| == IMAGE_SIZE && IsOffset(y) && sector < SECTORS_PER_DISK
    && forall i {:trigger m[i]} :: Word(0, PageOf(y)) <= i < Word(0, PageOf(y)) + 256 ==>
         m[i] == image[256 * sector + i - Word(0, PageOf(y))]
  }

  // A block describes file f: open for input, within the disk, and if its buffer is
  // marked current it records the sector that holds PTR.
  ghost predicate BlockOk(k: Block, y: byte, f: File) {
    && f.start == k.start && f.extent == k.extent && f.ptr == k.ptr
    && f.warned == Warned(k.flags) && !Dirty(k.flags)
    && 2 <= f.start && f.start + Sectors(f.extent) <= SECTORS_PER_DISK
    && f.ptr <= f.extent
    && k.page == PageOf(y) && k.readOnly
    && (Current(k.flags) && f.ptr < f.extent ==> k.recorded == f.start + f.ptr / 256)
  }

  // And the buffer holds the sector the block records.
  ghost predicate HandleOk(m: seq<byte>, image: seq<byte>, y: byte, f: File) {
    && |m| == MEMORY_SIZE && |image| == IMAGE_SIZE && IsOffset(y)
    && var k := BlockOf(m, y);
    && BlockOk(k, y, f)
    && DriveReady(m, k.flags % 4)
    && (k.recorded != 0 ==> BufferHolds(m, image, y, k.recorded))
  }

  ghost predicate AllOk(m: seq<byte>, image: seq<byte>, fs: Files) {
    && |m| == MEMORY_SIZE
    && (forall y: byte {:trigger y in fs} :: y % 32 == 0 ==> (InUse(m, y) <==> y in fs))
    && (forall y :: y in fs ==> HandleOk(m, image, y, fs[y]))
  }

  // The bytes of the handle block and the buffer at y.
  predicate Own(i: int, y: byte) {
    0x1100 + y <= i < 0x1120 + y || Word(0, PageOf(y)) <= i < Word(0, PageOf(y)) + 256
  }

  // Work on the file at y keeps to its own block and buffer.
  ghost predicate KeepsOthers(m: seq<byte>, m': seq<byte>, y: byte) {
    && |m| == |m'| == MEMORY_SIZE
    && m'[OPEN_FILES] == m[OPEN_FILES]
    && (forall i :: DISK_LOW <= i < DISK_LOW + 8 ==> m'[i] == m[i])
    && (forall i :: 0x1100 <= i < BUFFERS_END ==> m'[i] == m[i] || Own(i, y))
  }

  lemma OwnApart(y: byte, z: byte, i: int)
    requires IsOffset(y) && IsOffset(z) && y != z && Own(i, z)
    ensures 0x1100 <= i < BUFFERS_END && !Own(i, y)
  {
  }

  // What a handle is depends only on its own bytes and the drive table.
  lemma SameHandle(m: seq<byte>, m': seq<byte>, image: seq<byte>, z: byte, f: File)
    requires HandleOk(m, image, z, f) && |m'| == MEMORY_SIZE
    requires forall i :: DISK_LOW <= i < DISK_LOW + 8 ==> m'[i] == m[i]
    requires forall i :: 0 <= i < MEMORY_SIZE && Own(i, z) ==> m'[i] == m[i]
    ensures HandleOk(m', image, z, f)
  {
    hide BlockOk;
    SameBlock(m, m', z);
    SameBuffer(m, m', image, z, BlockOf(m, z).recorded);
  }

  lemma SameBlock(m: seq<byte>, m': seq<byte>, z: byte)
    requires |m| == |m'| == MEMORY_SIZE && IsOffset(z)
    requires forall i :: 0 <= i < MEMORY_SIZE && Own(i, z) ==> m'[i] == m[i]
    ensures BlockOf(m', z) == BlockOf(m, z)
  {
  }

  lemma SameBuffer(m: seq<byte>, m': seq<byte>, image: seq<byte>, z: byte, sector: nat)
    requires |m| == |m'| == MEMORY_SIZE && IsOffset(z)
    requires forall i :: 0 <= i < MEMORY_SIZE && Own(i, z) ==> m'[i] == m[i]
    ensures BufferHolds(m, image, z, sector) ==> BufferHolds(m', image, z, sector)
  {
    forall i | Word(0, PageOf(z)) <= i < Word(0, PageOf(z)) + 256
      ensures m'[i] == m[i]
    {
      assert Own(i, z);
    }
  }

  lemma OtherHandle(m: seq<byte>, m': seq<byte>, image: seq<byte>, y: byte, z: byte, f: File)
    requires HandleOk(m, image, z, f) && KeepsOthers(m, m', y) && IsOffset(y) && y != z
    ensures HandleOk(m', image, z, f)
  {
    OffsetsOk(m, image, z, f);
    hide HandleOk, Own;
    forall i | 0 <= i < MEMORY_SIZE && Own(i, z)
      ensures m'[i] == m[i]
    {
      OwnApart(y, z, i);
    }
    SameHandle(m, m', image, z, f);
  }

  lemma AllStillOk(m: seq<byte>, m': seq<byte>, image: seq<byte>, y: byte, fs: Files, f: File)
    requires AllOk(m, image, fs) && y in fs && KeepsOthers(m, m', y) && HandleOk(m', image, y, f)
    ensures AllOk(m', image, fs[y := f])
  {
    hide HandleOk;
    forall z | z in fs && z != y
      ensures HandleOk(m', image, z, fs[z])
    {
      OffsetsOk(m, image, y, fs[y]);
      OtherHandle(m, m', image, y, z, fs[z]);
    }
  }

  lemma OffsetsOk(m: seq<byte>, image: seq<byte>, y: byte, f: File)
    requires HandleOk(m, image, y, f)
    ensures IsOffset(y)
  {
  }

  // ---- The routines ----

  // Variables that hold nothing between calls.
  predicate IsScratch(i: int) {
    i < 0x100 || i == 0x0D20 || i == CURRENT || i == SECTOR_TEMP || i == TUBE_ADDR || i == TUBE_ADDR + 1
  }

  // Only scratch variables and the working part of the handle block have changed.
  ghost predicate OnlyBlock(m: seq<byte>, m': seq<byte>, y: byte) {
    && |m| == |m'| == MEMORY_SIZE
    && forall i :: 0 <= i < MEMORY_SIZE ==> m'[i] == m[i] || IsScratch(i) || FILE_PTR + y <= i < FILE_PTR + 16 + y
  }

  lemma BlockUpdated(m: seq<byte>, m': seq<byte>, image: seq<byte>, y: byte, f: File, g: File)
    requires HandleOk(m, image, y, f) && OnlyBlock(m, m', y)
    requires BlockOk(BlockOf(m', y), y, g)
    requires BlockOf(m', y).recorded == BlockOf(m, y).recorded && BlockOf(m', y).flags % 4 == BlockOf(m, y).flags % 4
    ensures HandleOk(m', image, y, g) && KeepsOthers(m, m', y)
  {
    hide BlockOk, BlockOf;
    assert forall i :: Word(0, PageOf(y)) <= i < Word(0, PageOf(y)) + 256 ==> m'[i] == m[i];
    BlockFrame(m, m', y);
  }

  lemma BlockFrame(m: seq<byte>, m': seq<byte>, y: byte)
    requires OnlyBlock(m, m', y) && IsOffset(y)
    ensures KeepsOthers(m, m', y)
  {
    assert forall i :: FILE_PTR + y <= i < FILE_PTR + 16 + y ==> Own(i, y);
  }

  // First byte at the end of the file: report it and remember having done so.
  method ReportEnd(mem: array<byte>, y: byte, ghost image: seq<byte>, ghost f: File)
    requires mem.Length == MEMORY_SIZE && HandleOk(mem[..], image, y, f)
    modifies mem
    ensures HandleOk(mem[..], image, y, f.(warned := true)) && KeepsOthers(old(mem[..]), mem[..], y)
  {
    hide HandleOk, KeepsOthers, BlockOk, BlockOf, OnlyBlock, OrBit4;
    ghost var m := mem[..];
    HandleBlock(m, image, y, f);
    mem[FLAGS + y] := OrBit4(mem[FLAGS + y]);
    FlagsSet(m, mem[..], y, OrBit4(m[FLAGS + y]));
    BlockReported(BlockOf(m, y), y, f);
    BlockUpdated(m, mem[..], image, y, f, f.(warned := true));
  }

  // Storing the flags changes nothing else of a block.
  lemma FlagsSet(m: seq<byte>, m': seq<byte>, y: byte, v: byte)
    requires |m| == MEMORY_SIZE && m' == m[FLAGS + y := v]
    ensures BlockOf(m, y).flags == m[FLAGS + y] && BlockOf(m', y) == BlockOf(m, y).(flags := v) && OnlyBlock(m, m', y)
  {
    hide Word, Long;
  }

  lemma BlockReported(k: Block, y: byte, f: File)
    requires BlockOk(k, y, f)
    ensures BlockOk(k.(flags := OrBit4(k.flags)), y, f.(warned := true)) && OrBit4(k.flags) % 4 == k.flags % 4
  {
    hide OrBit4;
  }

  lemma HandleBlock(m: seq<byte>, image: seq<byte>, y: byte, f: File)
    requires HandleOk(m, image, y, f)
    ensures |m| == MEMORY_SIZE && IsOffset(y) && BlockOk(BlockOf(m, y), y, f) && OnImage(f, image)
  {
  }

  // PTR = EXT?
  method AtExtent(mem: array<byte>, y: byte) returns (end: bool)
    requires mem.Length == MEMORY_SIZE
    ensures end == (BlockOf(mem[..], y).ptr == BlockOf(mem[..], y).extent)
  {
    end := mem[FILE_PTR + 2 + y] == mem[EXTENT + 2 + y] && mem[FILE_PTR + 1 + y] == mem[EXTENT + 1 + y]
           && mem[FILE_PTR + y] == mem[EXTENT + y];
  }

  // Fetch the byte at PTR from the buffer and move PTR on; at the end of a page the
  // buffer is no longer current.
  method TakeByte(mem: array<byte>, y: byte, ghost image: seq<byte>, ghost f: File) returns (a: byte)
    requires mem.Length == MEMORY_SIZE && HandleOk(mem[..], image, y, f)
    requires f.ptr < f.extent && Current(mem[FLAGS + y])
    modifies mem
    ensures a == image[256 * f.start + f.ptr]
    ensures HandleOk(mem[..], image, y, f.(ptr := f.ptr + 1)) && KeepsOthers(old(mem[..]), mem[..], y)
  {
    hide HandleOk, KeepsOthers, BlockOf;
    ghost var m := mem[..];
    HandleBlock(m, image, y, f);
    BufferedByte(m, image, y, f);
    PointerByte(m, y, f);
    a := FetchByte(mem, y);
    AdvancePointer(mem, y);
    Advanced(m, mem[..], image, y, f);
  }

  lemma PointerByte(m: seq<byte>, y: byte, f: File)
    requires |m| == MEMORY_SIZE && BlockOk(BlockOf(m, y), y, f) && IsOffset(y)
    ensures m[BUFFER + y] >= 1
    ensures f.ptr < f.extent ==> Long(m[FILE_PTR + y], m[FILE_PTR + 1 + y], m[FILE_PTR + 2 + y]) + 1 < 0x1000000
  {
  }

  method FetchByte(mem: array<byte>, y: byte) returns (a: byte)
    requires mem.Length == MEMORY_SIZE && IsOffset(y) && mem[BUFFER + y] >= 1
    modifies mem
    ensures a == old(mem[Word(mem[FILE_PTR + y], mem[BUFFER + y])])
    ensures forall i :: 0 <= i < MEMORY_SIZE && i != BYTE_ADDR && i != BYTE_ADDR + 1 ==> mem[i] == old(mem[i])
  {
    mem[BYTE_ADDR] := mem[FILE_PTR + y];
    mem[BYTE_ADDR + 1] := mem[BUFFER + y];
    a := mem[Word(mem[BYTE_ADDR], mem[BYTE_ADDR + 1])];
  }

  lemma BufferedByte(m: seq<byte>, image: seq<byte>, y: byte, f: File)
    requires HandleOk(m, image, y, f) && f.ptr < f.extent && Current(m[FLAGS + y])
    ensures m[Word(m[FILE_PTR + y], m[BUFFER + y])] == image[256 * f.start + f.ptr]
  {
    var k := BlockOf(m, y);
    hide BufferHolds, DriveReady, Sectors, Word, Long;
    HeldByte(m, image, y, k.recorded, m[FILE_PTR + y]);
    LowByte(m[FILE_PTR + y], m[FILE_PTR + 1 + y], m[FILE_PTR + 2 + y]);
  }

  lemma HeldByte(m: seq<byte>, image: seq<byte>, y: byte, sector: nat, lo: byte)
    requires BufferHolds(m, image, y, sector)
    ensures m[Word(lo, PageOf(y))] == image[256 * sector + lo]
  {
    var i := Word(lo, PageOf(y));
    assert m[i] == image[256 * sector + i - Word(0, PageOf(y))];
  }

  lemma LowByte(lo: byte, mid: byte, hi: byte)
    ensures Long(lo, mid, hi) == lo + 256 * (Long(lo, mid, hi) / 256)
  {
  }

  method AdvancePointer(mem: array<byte>, y: byte)
    requires mem.Length == MEMORY_SIZE
    requires Long(mem[FILE_PTR + y], mem[FILE_PTR + 1 + y], mem[FILE_PTR + 2 + y]) + 1 < 0x1000000
    modifies mem
    ensures Long(mem[FILE_PTR + y], mem[FILE_PTR + 1 + y], mem[FILE_PTR + 2 + y])
         == old(Long(mem[FILE_PTR + y], mem[FILE_PTR + 1 + y], mem[FILE_PTR + 2 + y])) + 1
    ensures mem[FLAGS + y] == if mem[FILE_PTR + y] == 0 then AndNotBit7(old(mem[FLAGS + y])) else old(mem[FLAGS + y])
    ensures forall i :: 0 <= i < MEMORY_SIZE && !(FILE_PTR + y <= i <= FILE_PTR + 2 + y) && i != FLAGS + y ==>
      mem[i] == old(mem[i])
  {
    hide AndNotBit7;
    mem[FILE_PTR + y] := Inc(mem[FILE_PTR + y]);
    if mem[FILE_PTR + y] == 0 {
      var (mid, c) := Adc(mem[FILE_PTR + 1 + y], 1, 0);
      mem[FILE_PTR + 1 + y] := mid;
      var (hi, _) := Adc(mem[FILE_PTR + 2 + y], 0, c);
      mem[FILE_PTR + 2 + y] := hi;
      mem[FLAGS + y] := AndNotBit7(mem[FLAGS + y]);
    }
  }

  lemma Advanced(m: seq<byte>, m': seq<byte>, image: seq<byte>, y: byte, f: File)
    requires HandleOk(m, image, y, f) && |m'| == MEMORY_SIZE && f.ptr < f.extent
    requires Long(m'[FILE_PTR + y], m'[FILE_PTR + 1 + y], m'[FILE_PTR + 2 + y])
      == Long(m[FILE_PTR + y], m[FILE_PTR + 1 + y], m[FILE_PTR + 2 + y]) + 1
    requires m'[FLAGS + y] == if m'[FILE_PTR + y] == 0 then AndNotBit7(m[FLAGS + y]) else m[FLAGS + y]
    requires forall i :: 0 <= i < MEMORY_SIZE && !IsScratch(i) && !(FILE_PTR + y <= i <= FILE_PTR + 2 + y) ==>
      i != FLAGS + y ==> m'[i] == m[i]
    ensures HandleOk(m', image, y, f.(ptr := f.ptr + 1)) && KeepsOthers(m, m', y)
  {
    hide HandleOk, KeepsOthers, BufferHolds, BlockOk, AndNotBit7;
    HandleBlock(m, image, y, f);
    var k, k' := BlockOf(m, y), BlockOf(m', y);
    assert k' == k.(ptr := k.ptr + 1, flags := m'[FLAGS + y]);
    assert OnlyBlock(m, m', y);
    LowByte(m'[FILE_PTR + y], m'[FILE_PTR + 1 + y], m'[FILE_PTR + 2 + y]);
    BlockAdvanced(k, k'.flags, y, f);
    BlockUpdated(m, m', image, y, f, f.(ptr := f.ptr + 1));
  }

  lemma BlockAdvanced(k: Block, flags: byte, y: byte, f: File)
    requires BlockOk(k, y, f) && f.ptr < f.extent
    requires flags == if (k.ptr + 1) % 256 == 0 then AndNotBit7(k.flags) else k.flags
    ensures BlockOk(k.(ptr := k.ptr + 1, flags := flags), y, f.(ptr := f.ptr + 1)) && flags % 4 == k.flags % 4
  {
    NextPage(f.ptr);
  }

  lemma NextPage(p: nat)
    ensures (p + 1) % 256 != 0 ==> (p + 1) / 256 == p / 256
  {
  }

  // ---- Filling the buffer ----

  // The sector PTR is in, from the handle block.
  function SectorOf(k: Block): nat { k.start + k.ptr / 256 }

  method AddSector(mem: array<byte>, y: byte) returns (lo: byte, hi: byte)
    requires mem.Length == MEMORY_SIZE && SectorOf(BlockOf(mem[..], y)) < 0x10000
    ensures Word(lo, hi) == SectorOf(BlockOf(mem[..], y))
  {
    AddedSector(mem[FILE_START + y], mem[START_PACKED + y] % 4, mem[FILE_PTR + y], mem[FILE_PTR + 1 + y],
      mem[FILE_PTR + 2 + y]);
    var (a, c) := Adc(mem[FILE_START + y], mem[FILE_PTR + 1 + y], 0);
    lo := a;
    hi := Adc(mem[START_PACKED + y] % 4, mem[FILE_PTR + 2 + y], c).0;
  }

  lemma AddedSector(s: byte, t: byte, lo: byte, mid: byte, hi: byte)
    requires Word(s, t) + Long(lo, mid, hi) / 256 < 0x10000
    ensures var (a, c) := Adc(s, mid, 0);
      Word(a, Adc(t, hi, c).0) == Word(s, t) + Long(lo, mid, hi) / 256
  {
    LowByte(lo, mid, hi);
  }

  // The parameters of a one-sector load into the buffer; the handle records the sector
  // and is marked current before the load.
  method PrepareLoad(mem: array<byte>, y: byte)
    requires mem.Length == MEMORY_SIZE && IsOffset(y) && SectorOf(BlockOf(mem[..], y)) < SECTORS_PER_DISK
    modifies mem
    ensures StartSector(mem[..]) == old(SectorOf(BlockOf(mem[..], y))) && ByteLength(mem[..]) == 256
    ensures Word(mem[MEM_ADDR], mem[MEM_ADDR + 1]) == Word(0, old(mem[BUFFER + y]))
    ensures mem[CUR_DRV] == old(mem[FLAGS + y]) % 4 && mem[PACKED] < 4
    ensures BlockOf(mem[..], y) == old(BlockOf(mem[..], y)).(
              flags := OrBit7(old(mem[FLAGS + y])), recorded := old(SectorOf(BlockOf(mem[..], y))))
    ensures OnlyBlock(old(mem[..]), mem[..], y)
    ensures forall i :: EXTENT + y <= i <= ALLOCATED + 1 + y && i != FLAGS + y ==> mem[i] == old(mem[i])
  {
    hide SectorOf, OrBit7;
    ghost var m := mem[..];
    var lo, hi := AddSector(mem, y);
    SectorBytes(lo, hi);
    LoadParameters(mem, y);
    mem[START_LOW], mem[PACKED] := lo, hi;
    RecordSector(mem, y, lo, hi);
    SameWorking(m, mem[..], y, lo, hi);
  }

  method LoadParameters(mem: array<byte>, y: byte)
    requires mem.Length == MEMORY_SIZE && IsOffset(y)
    modifies mem
    ensures mem[MEM_ADDR] == mem[LENGTH_LOW] == 0 && mem[LENGTH_MID] == 1
    ensures mem[MEM_ADDR + 1] == mem[BUFFER + y] && mem[CUR_DRV] == mem[0x0D20] == mem[FLAGS + y] % 4
    ensures mem[DIRECTORY_PARAM] == AndNotBit7(mem[DIRECTORY + y]) && mem[TUBE_ADDR] == mem[TUBE_ADDR + 1] == 0xFF
    ensures forall i :: 0 <= i < MEMORY_SIZE && !IsScratch(i) ==> mem[i] == old(mem[i])
  {
    mem[DIRECTORY_PARAM] := AndNotBit7(mem[DIRECTORY + y]);
    mem[CUR_DRV] := mem[FLAGS + y] % 4;
    mem[0x0D20] := mem[CUR_DRV];
    mem[MEM_ADDR + 1] := mem[BUFFER + y];
    mem[TUBE_ADDR], mem[TUBE_ADDR + 1] := 0xFF, 0xFF;
    mem[MEM_ADDR], mem[LENGTH_LOW], mem[LENGTH_MID] := 0, 0, 1;
  }

  // The buffer is to hold this sector, and counts as current.
  method RecordSector(mem: array<byte>, y: byte, lo: byte, hi: byte)
    requires mem.Length == MEMORY_SIZE && IsOffset(y)
    modifies mem
    ensures mem[BUFFERED + y] == lo && mem[BUFFERED + 1 + y] == hi && mem[FLAGS + y] == OrBit7(old(mem[FLAGS + y]))
    ensures forall i :: 0 <= i < MEMORY_SIZE && i != BUFFERED + y && i != BUFFERED + 1 + y && i != FLAGS + y ==>
      mem[i] == old(mem[i])
  {
    hide OrBit7;
    mem[BUFFERED + y], mem[BUFFERED + 1 + y] := lo, hi;
    mem[FLAGS + y] := OrBit7(mem[FLAGS + y]);
  }

  lemma SameWorking(m: seq<byte>, m': seq<byte>, y: byte, lo: byte, hi: byte)
    requires |m| == |m'| == MEMORY_SIZE && IsOffset(y)
    requires m'[BUFFERED + y] == lo && m'[BUFFERED + 1 + y] == hi && m'[FLAGS + y] == OrBit7(m[FLAGS + y])
    requires forall i :: 0 <= i < MEMORY_SIZE && !IsScratch(i) && i != BUFFERED + y && i != BUFFERED + 1 + y ==>
      i != FLAGS + y ==> m'[i] == m[i]
    ensures BlockOf(m', y) == BlockOf(m, y).(flags := OrBit7(m[FLAGS + y]), recorded := Word(lo, hi))
    ensures OnlyBlock(m, m', y)
  {
    hide OrBit7;
  }

  lemma SectorBytes(lo: byte, hi: byte)
    requires Word(lo, hi) < SECTORS_PER_DISK
    ensures hi % 4 == hi && hi / 16 % 4 == 0 && hi < 4
  {
  }

  // Marked current with PTR's sector recorded, the block still describes its file.
  lemma Prepared(k: Block, y: byte, f: File)
    requires BlockOk(k, y, f) && f.ptr < f.extent
    ensures BlockOk(k.(flags := OrBit7(k.flags), recorded := SectorOf(k)), y, f)
    ensures 2 <= SectorOf(k) && SectorOf(k) + 1 <= SECTORS_PER_DISK
  {
  }

  ghost predicate OnlyLoaded(m: seq<byte>, m': seq<byte>, y: byte) {
    && |m| == |m'| == MEMORY_SIZE
    && forall i :: 0 <= i < MEMORY_SIZE && !InRegion(i, Word(0, PageOf(y)), 256) && !IsMessageVariable(i) ==>
      !IsBlockVariable(i) ==>
         m'[i] == m[i]
  }

  lemma Loaded(m: seq<byte>, m': seq<byte>, image: seq<byte>, y: byte, f: File)
    requires |m| == |m'| == MEMORY_SIZE && |image| == IMAGE_SIZE && IsOffset(y)
    requires BlockOk(BlockOf(m, y), y, f) && DriveReady(m, BlockOf(m, y).flags % 4)
    requires OnlyLoaded(m, m', y)
    requires BufferHolds(m', image, y, BlockOf(m, y).recorded)
    ensures HandleOk(m', image, y, f) && KeepsOthers(m, m', y) && m'[FLAGS + y] == m[FLAGS + y]
  {
    hide BlockOk, BufferHolds, DriveReady, BlockOf, KeepsOthers, OnlyLoaded;
    LoadedBlock(m, m', y);
    LoadFrame(m, m', y);
    SameDrive(m, m', y, BlockOf(m, y).flags % 4);
  }

  lemma LoadedBlock(m: seq<byte>, m': seq<byte>, y: byte)
    requires OnlyLoaded(m, m', y) && IsOffset(y)
    ensures BlockOf(m', y) == BlockOf(m, y) && m'[FLAGS + y] == m[FLAGS + y]
  {
  }

  lemma LoadFrame(m: seq<byte>, m': seq<byte>, y: byte)
    requires OnlyLoaded(m, m', y) && IsOffset(y)
    ensures KeepsOthers(m, m', y)
  {
  }

  lemma KeepsBoth(m: seq<byte>, m': seq<byte>, m'': seq<byte>, y: byte)
    requires KeepsOthers(m, m', y) && KeepsOthers(m', m'', y)
    ensures KeepsOthers(m, m'', y)
  {
    hide Own;
  }

  // A buffer page may receive a sector.
  lemma BufferReceives(y: byte)
    requires IsOffset(y)
    ensures CanReceiveAt(Word(0, PageOf(y)), 256)
  {
  }

  lemma LoadAccepted(m: seq<byte>)
    requires |m| == MEMORY_SIZE && m[CUR_DRV] < 4 && DriveReady(m, m[CUR_DRV])
    requires ByteLength(m) == 256 && StartSector(m) + 1 <= SECTORS_PER_DISK
    ensures Verdict(m) == Accepted
  {
  }

  lemma SliceHeld(m: seq<byte>, image: seq<byte>, y: byte, sector: nat)
    requires |m| == MEMORY_SIZE && |image| == IMAGE_SIZE && IsOffset(y) && sector < SECTORS_PER_DISK
    requires 256 * sector + 256 <= IMAGE_SIZE
    requires m[Word(0, PageOf(y))..Word(0, PageOf(y)) + 256] == image[256 * sector..256 * sector + 256]
    ensures BufferHolds(m, image, y, sector)
  {
    var to := Word(0, PageOf(y));
    forall i {:trigger m[i]} | to <= i < to + 256
      ensures m[i] == image[256 * sector + i - to]
    {
      assert m[to..to + 256][i - to] == image[256 * sector..256 * sector + 256][i - to];
    }
  }

  lemma StartFill(m: seq<byte>, image: seq<byte>, y: byte, f: File)
    requires HandleOk(m, image, y, f) && f.ptr < f.extent
    ensures |m| == MEMORY_SIZE && |image| == IMAGE_SIZE && IsOffset(y)
    ensures SectorOf(BlockOf(m, y)) < SECTORS_PER_DISK && m[BUFFER + y] == PageOf(y)
  {
    HandleBlock(m, image, y, f);
    Prepared(BlockOf(m, y), y, f);
  }

  // What PrepareLoad leaves.
  ghost predicate IsPrepared(m: seq<byte>, m': seq<byte>, y: byte) {
    && |m| == |m'| == MEMORY_SIZE && IsOffset(y) && OnlyBlock(m, m', y)
    && BlockOf(m', y) == BlockOf(m, y).(flags := OrBit7(m[FLAGS + y]), recorded := SectorOf(BlockOf(m, y)))
    && m'[CUR_DRV] == m[FLAGS + y] % 4
    && StartSector(m') == SectorOf(BlockOf(m, y)) && ByteLength(m') == 256
  }

  lemma PreparedLoad(m: seq<byte>, m': seq<byte>, image: seq<byte>, y: byte, f: File)
    requires HandleOk(m, image, y, f) && f.ptr < f.extent && IsPrepared(m, m', y)
    ensures BlockOk(BlockOf(m', y), y, f) && Current(m'[FLAGS + y])
    ensures m'[CUR_DRV] == BlockOf(m', y).flags % 4
    ensures DriveReady(m', m'[CUR_DRV])
    ensures StartSector(m') + 1 <= SECTORS_PER_DISK
    ensures KeepsOthers(m, m', y)
  {
    hide BlockOk, BufferHolds, KeepsOthers, OnlyBlock;
    HandleBlock(m, image, y, f);
    Prepared(BlockOf(m, y), y, f);
    BlockFrame(m, m', y);
    SameDrive(m, m', y, BlockOf(m, y).flags % 4);
  }

  lemma SameDrive(m: seq<byte>, m': seq<byte>, y: byte, drive: byte)
    requires KeepsOthers(m, m', y) && drive < 4 && DriveReady(m, drive)
    ensures DriveReady(m', drive)
  {
  }

  lemma EndFill(m: seq<byte>, m': seq<byte>, m'': seq<byte>, image: seq<byte>, y: byte, f: File, sector: nat)
    requires |m| == |m'| == |m''| == MEMORY_SIZE && |image| == IMAGE_SIZE && IsOffset(y)
    requires KeepsOthers(m, m', y) && OnlyLoaded(m', m'', y)
    requires BlockOk(BlockOf(m', y), y, f) && Current(m'[FLAGS + y])
    requires DriveReady(m', BlockOf(m', y).flags % 4)
    requires sector == BlockOf(m', y).recorded && sector < SECTORS_PER_DISK && 256 * sector + 256 <= IMAGE_SIZE
    requires m''[Word(0, PageOf(y))..Word(0, PageOf(y)) + 256] == image[256 * sector..256 * sector + 256]
    ensures HandleOk(m'', image, y, f) && KeepsOthers(m, m'', y) && Current(m''[FLAGS + y])
  {
    hide BlockOk, DriveReady, KeepsOthers, OnlyLoaded, BlockOf, HandleOk, BufferHolds;
    SliceHeld(m'', image, y, sector);
    Loaded(m', m'', image, y, f);
    KeepsBoth(m, m', m'', y);
  }

  // Everything is set for loading a sector into the buffer at y.
  ghost predicate ReadyToLoad(m: seq<byte>, y: byte, f: File, sector: nat) {
    && |m| == MEMORY_SIZE && IsOffset(y) && sector < SECTORS_PER_DISK && 256 * sector + 256 <= IMAGE_SIZE
    && BlockOk(BlockOf(m, y), y, f) && Current(m[FLAGS + y])
    && DriveReady(m, BlockOf(m, y).flags % 4) && sector == BlockOf(m, y).recorded
  }

  method PrepareFill(mem: array<byte>, y: byte, ghost image: seq<byte>, ghost f: File) returns (ghost sector: nat)
    requires mem.Length == MEMORY_SIZE && HandleOk(mem[..], image, y, f) && f.ptr < f.extent
    modifies mem
    ensures ReadyToLoad(mem[..], y, f, sector) && KeepsOthers(old(mem[..]), mem[..], y)
    ensures mem[CUR_DRV] < 4 && DiskNumber(mem[..], mem[CUR_DRV]) % 32 == 0 && Verdict(mem[..]) == Accepted
    ensures StartSector(mem[..]) == sector && ByteLength(mem[..]) == 256
    ensures Word(mem[MEM_ADDR], mem[MEM_ADDR + 1]) == Word(0, PageOf(y))
  {
    hide HandleOk, KeepsOthers, BlockOk, BlockOf, DriveReady, OnlyBlock, Verdict, SectorOf, ByteLength, StartSector,
      DiskNumber;
    ghost var m := mem[..];
    StartFill(m, image, y, f);
    sector := SectorOf(BlockOf(m, y));
    PrepareLoad(mem, y);
    PreparedLoad(m, mem[..], image, y, f);
    ReadyDrive(mem[..], mem[CUR_DRV]);
    LoadAccepted(mem[..]);
  }

  // Load the sector PTR is in.
  method FillBuffer(b: Beeb, y: byte, ghost image: seq<byte>, ghost f: File)
    requires b.Ready() && b.host.diskImage[..] == image
    requires HandleOk(b.mem[..], image, y, f) && f.ptr < f.extent
    modifies b, b.mem, b.avr, b.avr.usb, b.host.reqBuffer, b.host.rspBuffer
    ensures b.Ready() && b.host.diskImage[..] == image
    ensures HandleOk(b.mem[..], image, y, f) && KeepsOthers(old(b.mem[..]), b.mem[..], y)
    ensures Current(b.mem[FLAGS + y])
  {
    hide Lockstep.Clean, HandleOk, KeepsOthers, BlockOk, BlockOf, DriveReady, CanReceiveAt, Verdict, ByteLength,
      StartSector;
    hide DiskNumber, WireSector, InImage;
    ghost var m0 := b.mem[..];
    ghost var to := Word(0, PageOf(y));
    ghost var sector := PrepareFill(b.mem, y, image, f);
    ghost var m1 := b.mem[..];
    BufferReceives(y);
    AcceptedFits(m1);
    var _ := MmcLoadMemBlock(b, to, sector, 256);
    assert b.host.diskImage[..][256 * sector..256 * sector + 256] == b.host.diskImage[256 * sector..256 * sector + 256];
    EndFill(m0, m1, b.mem[..], image, y, f, sector);
  }

  lemma ReadyDrive(m: seq<byte>, drive: byte)
    requires |m| == MEMORY_SIZE && drive < 4 && DriveReady(m, drive)
    ensures DiskNumber(m, drive) % 32 == 0
  {
  }

  // ---- BGET ----

  method GetFrom(b: Beeb, y: byte, ghost image: seq<byte>, ghost f: File) returns (out: Outcome)
    requires b.Ready() && b.host.diskImage[..] == image && HandleOk(b.mem[..], image, y, f) && OnImage(f, image)
    modifies b, b.mem, b.avr, b.avr.usb, b.host.reqBuffer, b.host.rspBuffer
    ensures b.Ready() && b.host.diskImage[..] == image
    ensures out == GetStep(f, image).1 && HandleOk(b.mem[..], image, y, GetStep(f, image).0)
    ensures KeepsOthers(old(b.mem[..]), b.mem[..], y)
  {
    hide Lockstep.Clean, HandleOk, KeepsOthers, BlockOf;
    ghost var m := b.mem[..];
    HandleState(m, image, y, f);
    var end := AtExtent(b.mem, y);
    if end {
      if Warned(b.mem[FLAGS + y]) {
        out := EofError;
        KeepsSame(m, y);
      } else {
        ReportEnd(b.mem, y, image, f);
        out := EndOfFile;
      }
      return;
    }
    if !Current(b.mem[FLAGS + y]) {
      FillBuffer(b, y, image, f);
    } else {
      KeepsSame(m, y);
    }
    ghost var m' := b.mem[..];
    var a := TakeByte(b.mem, y, image, f);
    KeepsBoth(m, m', b.mem[..], y);
    out := Byte(a);
  }

  lemma HandleState(m: seq<byte>, image: seq<byte>, y: byte, f: File)
    requires HandleOk(m, image, y, f)
    ensures |m| == MEMORY_SIZE && BlockOf(m, y).ptr == f.ptr && BlockOf(m, y).extent == f.extent
    ensures f.ptr <= f.extent && f.warned == Warned(m[FLAGS + y])
  {
  }

  lemma KeepsSame(m: seq<byte>, y: byte)
    requires |m| == MEMORY_SIZE
    ensures KeepsOthers(m, m, y)
  {
  }

  // ---- Setting PTR ----

  // The comparison of EXT with the wanted PTR: no borrow when EXT reaches it.
  lemma ExtentReaches(e0: byte, e1: byte, e2: byte, t0: byte, t1: byte, t2: byte)
    ensures Sbc(e2, t2, Sbc(e1, t1, Cmp(e0, t0)).1).1 == 1 <==> Long(e0, e1, e2) >= Long(t0, t1, t2)
  {
  }

  method StorePointer(mem: array<byte>, y: byte, t0: byte, t1: byte, t2: byte)
    requires mem.Length == MEMORY_SIZE
    modifies mem
    ensures BlockOf(mem[..], y) == old(BlockOf(mem[..], y)).(ptr := Long(t0, t1, t2))
    ensures OnlyBlock(old(mem[..]), mem[..], y)
    ensures forall i :: 0 <= i < MEMORY_SIZE && !(FILE_PTR + y <= i <= FILE_PTR + 2 + y) ==> mem[i] == old(mem[i])
  {
    mem[FILE_PTR + y], mem[FILE_PTR + 1 + y], mem[FILE_PTR + 2 + y] := t0, t1, t2;
  }

  // The buffer is current again if it holds the sector the new PTR is in.
  method Revalidate(mem: array<byte>, y: byte)
    requires mem.Length == MEMORY_SIZE && SectorOf(BlockOf(mem[..], y)) < 0x10000
    modifies mem
    ensures var k := old(BlockOf(mem[..], y));
      var cleared := AndNotBits74(k.flags);
      BlockOf(mem[..], y) == k.(flags := if SectorOf(k) == k.recorded then OrBit7(cleared) else cleared)
    ensures OnlyBlock(old(mem[..]), mem[..], y)
    ensures forall i :: 0 <= i < MEMORY_SIZE && i != FLAGS + y && i != SECTOR_TEMP ==> mem[i] == old(mem[i])
  {
    hide SectorOf, OrBit7, AndNotBits74;
    ghost var k := BlockOf(mem[..], y);
    mem[FLAGS + y] := AndNotBits74(mem[FLAGS + y]);
    assert BlockOf(mem[..], y) == k.(flags := mem[FLAGS + y]);
    SameSector(k, BlockOf(mem[..], y));
    var lo, hi := AddSector(mem, y);
    mem[SECTOR_TEMP] := lo;
    SameWords(lo, hi, mem[BUFFERED + y], mem[BUFFERED + 1 + y]);
    if hi == mem[BUFFERED + 1 + y] && mem[SECTOR_TEMP] == mem[BUFFERED + y] {
      mem[FLAGS + y] := OrBit7(mem[FLAGS + y]);
    }
  }

  lemma SameSector(k: Block, k': Block)
    requires k.start == k'.start && k.ptr == k'.ptr
    ensures SectorOf(k) == SectorOf(k')
  {
  }

  lemma SameWords(lo: byte, hi: byte, lo': byte, hi': byte)
    ensures Word(lo, hi) == Word(lo', hi') <==> lo == lo' && hi == hi'
  {
  }

  method SeekFrom(mem: array<byte>, y: byte, t0: byte, t1: byte, t2: byte, ghost image: seq<byte>, ghost f: File)
    returns (out: Outcome)
    requires mem.Length == MEMORY_SIZE && HandleOk(mem[..], image, y, f)
    modifies mem
    ensures var to := Long(t0, t1, t2);
      out == SeekStep(f, to).1 && HandleOk(mem[..], image, y, SeekStep(f, to).0)
    ensures KeepsOthers(old(mem[..]), mem[..], y)
  {
    hide HandleOk, KeepsOthers, OnlyBlock, BlockOk, SectorOf, OrBit7, AndNotBits74;
    ghost var m := mem[..];
    HandleBlock(m, image, y, f);
    ghost var k := BlockOf(m, y);
    ExtentReaches(mem[EXTENT + y], mem[EXTENT + 1 + y], mem[EXTENT + 2 + y], t0, t1, t2);
    SeekBlock(k, y, f, Long(t0, t1, t2));
    StorePointer(mem, y, mem[EXTENT + y], mem[EXTENT + 1 + y], mem[EXTENT + 2 + y]);
    ghost var m1 := mem[..];
    assert BlockOf(m1, y) == k.(ptr := k.extent);
    if Sbc(mem[EXTENT + 2 + y], t2, Sbc(mem[EXTENT + 1 + y], t1, Cmp(mem[EXTENT + y], t0)).1).1 == 0 {
      BlockUpdated(m, m1, image, y, f, f.(ptr := f.extent));
      // BPUT would extend a file that is open for output.
      return if mem[READ_ONLY + y] >= 128 then ReadOnlyError else Done;
    }
    StorePointer(mem, y, t0, t1, t2);
    ghost var m2 := mem[..];
    Revalidate(mem, y);
    OnlyBlockTwice(m, m1, m2, y);
    OnlyBlockTwice(m, m2, mem[..], y);
    BlockUpdated(m, mem[..], image, y, f, f.(ptr := Long(t0, t1, t2), warned := false));
    out := Done;
  }

  // What a seek makes of a handle block.
  lemma SeekBlock(k: Block, y: byte, f: File, to: nat)
    requires BlockOk(k, y, f)
    ensures BlockOk(k.(ptr := k.extent), y, f.(ptr := f.extent))
    ensures to <= f.extent ==>
      var j := k.(ptr := to);
      var flags := if SectorOf(j) == j.recorded then OrBit7(AndNotBits74(k.flags)) else AndNotBits74(k.flags);
      && SectorOf(j) < 0x10000 && flags % 4 == k.flags % 4
      && BlockOk(j.(flags := flags), y, f.(ptr := to, warned := false))
  {
  }

  lemma OnlyBlockTwice(m: seq<byte>, m': seq<byte>, m'': seq<byte>, y: byte)
    requires OnlyBlock(m, m', y) && OnlyBlock(m', m'', y)
    ensures OnlyBlock(m, m'', y)
  {
  }

  // ---- Handles ----

  // The open file a handle selects: its offset, and whether its bit is set.
  method FindHandle(mem: array<byte>, handle: byte) returns (y: byte, ok: bool)
    requires mem.Length == MEMORY_SIZE
    modifies mem
    ensures y == OffsetOf(handle) == mem[CURRENT] && y % 32 == 0 && ok == InUse(mem[..], y)
    ensures forall i :: 0 <= i < MEMORY_SIZE && i != CURRENT ==> mem[i] == old(mem[i])
  {
    hide MaskOf, And;
    var a: byte := if 0x10 <= handle < 0x18 then handle else 8;
    y := 32 * (a % 8);
    mem[CURRENT] := y;
    if y == 0 {
      return y, false;
    }
    var mask := Mask(y / 32);
    ok := And(mem[OPEN_FILES], mask) != 0;
  }

  // A carry rotated down a zero byte n times.
  method Mask(n: nat) returns (mask: byte)
    requires 1 <= n < 8
    ensures mask == MaskOf(n)
  {
    var c: bit := 1;
    mask := 0;
    var i := n;
    while i != 0
      invariant i <= n
      invariant i == n ==> mask == 0 && c == 1
      invariant i < n ==> mask == MaskOf(n - i) && c == 0
    {
      MaskEven(n - i);
      var (a, d) := Ror(mask, c);
      mask, c := a, d;
      i := i - 1;
    }
  }

  lemma {:induction false} MaskEven(n: nat)
    requires n < 8
    ensures MaskOf(n) < 256 && MaskOf(n) % 2 == 0
  {
    assert MaskOf(3) == 32 && MaskOf(5) == 8 && MaskOf(7) == 2;
  }

  // ---- The calls, on every open file at once ----

  lemma ScratchOk(m: seq<byte>, m': seq<byte>, image: seq<byte>, fs: Files)
    requires AllOk(m, image, fs) && |m'| == MEMORY_SIZE
    requires forall i :: 0 <= i < MEMORY_SIZE && i != CURRENT ==> m'[i] == m[i]
    ensures AllOk(m', image, fs)
  {
    hide HandleOk;
    forall z | z in fs
      ensures HandleOk(m', image, z, fs[z])
    {
      OffsetsOk(m, image, z, fs[z]);
      SameHandle(m, m', image, z, fs[z]);
    }
  }

  // OSBGET on the bytes of the handle blocks is the abstract step.
  method Bget(b: Beeb, handle: byte, ghost image: seq<byte>, ghost fs: Files) returns (out: Outcome, ghost fs': Files)
    requires b.Ready() && b.host.diskImage[..] == image && AllOk(b.mem[..], image, fs) && AllOnImage(fs, image)
    modifies b, b.mem, b.avr, b.avr.usb, b.host.reqBuffer, b.host.rspBuffer
    ensures b.Ready() && b.host.diskImage[..] == image
    ensures (fs', out) == Step(fs, image, Get(handle)) && AllOk(b.mem[..], image, fs')
  {
    hide Lockstep.Clean, HandleOk, KeepsOthers, GetStep, InUse, OffsetOf;
    ghost var m := b.mem[..];
    var y, ok := FindHandle(b.mem, handle);
    ghost var m' := b.mem[..];
    ScratchOk(m, m', image, fs);
    if !ok {
      return ChannelError, fs;
    }
    out := GetFrom(b, y, image, fs[y]);
    fs' := fs[y := GetStep(fs[y], image).0];
    AllStillOk(m', b.mem[..], image, y, fs, fs'[y]);
  }

  // Writing PTR, from the three bytes X points at.
  method SetPtr(b: Beeb, handle: byte, t0: byte, t1: byte, t2: byte, ghost image: seq<byte>, ghost fs: Files)
    returns (out: Outcome, ghost fs': Files)
    requires b.mem.Length == MEMORY_SIZE && AllOk(b.mem[..], image, fs) && AllOnImage(fs, image)
    modifies b.mem
    ensures (fs', out) == Step(fs, image, Seek(handle, Long(t0, t1, t2))) && AllOk(b.mem[..], image, fs')
  {
    hide HandleOk, KeepsOthers, SeekStep, InUse, OffsetOf;
    ghost var m := b.mem[..];
    var y, ok := FindHandle(b.mem, handle);
    ghost var m' := b.mem[..];
    ScratchOk(m, m', image, fs);
    if !ok {
      return ChannelError, fs;
    }
    out := SeekFrom(b.mem, y, t0, t1, t2, image, fs[y]);
    fs' := fs[y := SeekStep(fs[y], Long(t0, t1, t2)).0];
    AllStillOk(m', b.mem[..], image, y, fs, fs'[y]);
  }

  // The value a caller leaves in three bytes at X.
  predicate Fits(op: Op) { op.Seek? ==> op.to < 0x1000000 }

  lemma FitsMeans(op: Op)
    requires Fits(op) && op.Seek?
    ensures op.to < 0x1000000 && Long(op.to % 256, op.to / 256 % 256, op.to / 65536) == op.to
  {
  }

  // Any interleaving of reads and seeks on any open files gives what the plain arrays
  // give.
  method RunOps(b: Beeb, ops: seq<Op>, ghost image: seq<byte>, ghost fs: Files)
    returns (outs: seq<Outcome>, ghost fs': Files)
    requires b.Ready() && b.host.diskImage[..] == image && AllOk(b.mem[..], image, fs) && AllOnImage(fs, image)
    requires forall i :: 0 <= i < |ops| ==> Fits(ops[i])
    modifies b, b.mem, b.avr, b.avr.usb, b.host.reqBuffer, b.host.rspBuffer
    ensures b.Ready() && b.host.diskImage[..] == image
    ensures (fs', outs) == Run(fs, image, ops) && AllOk(b.mem[..], image, fs')
    decreases |ops|
  {
    hide Lockstep.Clean, AllOk, AllOnImage, Step, Fits;
    if ops == [] {
      return [], fs;
    }
    var out;
    match ops[0] {
      case Get(handle) =>
        out, fs' := Bget(b, handle, image, fs);
      case Seek(handle, to) =>
        FitsMeans(ops[0]);
        out, fs' := SetPtr(b, handle, to % 256, to / 256 % 256, to / 65536, image, fs);
    }
    outs, fs' := RunOps(b, ops[1..], image, fs');
    outs := [out] + outs;
  }
}
