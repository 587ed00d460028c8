// The block mover under *COMPACT: sectors copied down the disk through a buffer of
// whole pages. The device is taken to keep what is written to it.

module Mover {
  import opened Bytes
  import opened Layout
  import opened Catalogue
  import opened Device

  const BUFFER_PAGE := 0x10D0
  const BUFFER_PAGES := 0x10D1
  const SOURCE_DRIVE := 0x10D2
  const DEST_DRIVE := 0x10D3
  const COPY_STATE := 0xA8     // bit 7: the destination file is still to be created (*COPY)
  const COUNT_LOW := 0xC6      // sectors still to move
  const COUNT_HIGH := 0xC7
  const SOURCE_LOW := 0xC8
  const SOURCE_HIGH := 0xC9
  const DEST_LOW := 0xCA
  const DEST_HIGH := 0xCB

  // The buffer is clear of the zero page and of everything below $1100.
  predicate IsBuffer(page: byte, pages: byte) { 0x11 <= page && pages > 0 && page + pages <= 0x80 }

  // Variables the mover writes, outside the buffer.
  predicate IsMoveVariable(i: int) {
    LOAD_ADDR <= i <= BLOCK_PAGE || LENGTH_LOW <= i <= DEST_HIGH || i == CUR_DRV || IsDeviceByte(i)
  }

  predicate InBuffer(i: int, page: byte, pages: byte) { 256 * (page as int) <= i < 256 * ((page + pages) as int) }

  ghost predicate CanMove(mem: array<byte>, disk: array<byte>)
    reads mem
  {
    && mem.Length == MEMORY_SIZE && disk.Length == DISK_SIZE && mem != disk
    && IsBuffer(mem[BUFFER_PAGE], mem[BUFFER_PAGES]) && mem[SOURCE_DRIVE] == mem[DEST_DRIVE]
  }

  // Blocks start at a page and are whole pages long.
  predicate WholePages(mem: array<byte>)
    requires mem.Length == MEMORY_SIZE
    reads mem
  {
    mem[LOAD_ADDR] == 0 && mem[LENGTH_LOW] == 0
  }

  // after is before with bytes lo to hi replaced by those delta further on.
  ghost predicate Shifted(before: seq<byte>, after: seq<byte>, lo: nat, hi: nat, delta: nat) {
    && |before| == |after| && hi + delta <= |before|
    && forall i {:trigger after[i]} :: 0 <= i < |after| ==>
      after[i] == if lo <= i < hi then before[i + delta] else before[i]
  }

  // Two shifts in succession, the second starting where the first ended.
  lemma ShiftedOn(s0: seq<byte>, s1: seq<byte>, s2: seq<byte>, lo: nat, mid: nat, hi: nat, delta: nat)
    requires Shifted(s0, s1, lo, mid, delta) && Shifted(s1, s2, mid, hi, delta) && lo <= mid <= hi
    ensures Shifted(s0, s2, lo, hi, delta)
  {
    forall i | 0 <= i < |s2|
      ensures s2[i] == if lo <= i < hi then s0[i + delta] else s0[i]
    {
      if mid <= i < hi {
        assert s1[i + delta] == s0[i + delta];
      }
    }
  }

  // The other variables of the program, and the memory outside the buffer.
  ghost predicate OnlyMoved(before: seq<byte>, after: seq<byte>, page: byte, pages: byte) {
    && |before| == |after| == MEMORY_SIZE
    && forall i :: 0 <= i < MEMORY_SIZE && !IsMoveVariable(i) && !InBuffer(i, page, pages) ==> after[i] == before[i]
  }

  // The smaller of the sectors left and the buffer, by a two-byte comparison.
  method ChunkSize(mem: array<byte>, ghost left: nat) returns (c: byte)
    requires mem.Length == MEMORY_SIZE && left == Word(mem[COUNT_LOW], mem[COUNT_HIGH])
    ensures c == if left < mem[BUFFER_PAGES] then left else mem[BUFFER_PAGES]
  {
    var y := mem[COUNT_LOW];
    var (_, carry) := Sbc(mem[COUNT_HIGH], 0, Cmp(mem[COUNT_LOW], mem[BUFFER_PAGES]));
    c := if carry == 0 then y else mem[BUFFER_PAGES];
  }

  // Add a byte to a two-byte variable.
  method Advance(mem: array<byte>, a: nat, c: byte, ghost v: nat)
    requires mem.Length == MEMORY_SIZE && a + 1 < MEMORY_SIZE && v == Word(mem[a], mem[a + 1]) && v + c < 0x10000
    modifies mem
    ensures Word(mem[a], mem[a + 1]) == v + c
    ensures forall i :: 0 <= i < MEMORY_SIZE && i != a && i != a + 1 ==> mem[i] == old(mem[i])
  {
    var (lo, carry) := Adc(c, mem[a], 0);
    mem[a] := lo;
    if carry == 1 {
      mem[a + 1] := Inc(mem[a + 1]);
    }
  }

  method CountDown(mem: array<byte>, c: byte, ghost left: nat) returns (more: bool)
    requires mem.Length == MEMORY_SIZE && left == Word(mem[COUNT_LOW], mem[COUNT_HIGH]) && c <= left
    modifies mem
    ensures Word(mem[COUNT_LOW], mem[COUNT_HIGH]) == left - c && more == (left > c)
    ensures forall i :: 0 <= i < MEMORY_SIZE && i != COUNT_LOW && i != COUNT_HIGH ==> mem[i] == old(mem[i])
  {
    var (lo, carry) := Sbc(mem[COUNT_LOW], c, 1);
    mem[COUNT_LOW] := lo;
    if carry == 0 {
      mem[COUNT_HIGH] := Dec(mem[COUNT_HIGH]);
    }
    more := lo != 0 || mem[COUNT_HIGH] != 0;
  }

  // One pass of the loop: read a chunk from the source, write it at the destination.
  method MoveChunk(mem: array<byte>, disk: array<byte>, ghost s: nat, ghost d: nat, ghost left: nat) returns (c: byte)
    requires CanMove(mem, disk) && WholePages(mem)
    requires s == Word(mem[SOURCE_LOW], mem[SOURCE_HIGH]) && d == Word(mem[DEST_LOW], mem[DEST_HIGH])
    requires left == Word(mem[COUNT_LOW], mem[COUNT_HIGH]) && left > 0
    requires d < s && s + left <= DISK_SECTORS
    modifies mem, disk
    ensures 0 < c <= left && WholePages(mem)
    ensures Shifted(old(disk[..]), disk[..], 256 * d, 256 * (d + c), 256 * (s - d))
    ensures OnlyMoved(old(mem[..]), mem[..], old(mem[BUFFER_PAGE]), old(mem[BUFFER_PAGES]))
    ensures forall i :: COUNT_LOW <= i <= DEST_HIGH ==> mem[i] == old(mem[i])
  {
    hide Shifted;
    c := ReadChunk(mem, disk, 256 * s, left);
    WriteChunk(mem, disk, 256 * s, 256 * d, 256 * c);
  }

  // What the buffer holds: n bytes of the disk from byte at.
  ghost predicate Buffered(mem: array<byte>, disk: array<byte>, at: nat, n: nat)
    reads mem, disk
  {
    && CanMove(mem, disk) && at + n <= DISK_SIZE && n <= Word(0, mem[BUFFER_PAGES])
    && forall i :: Word(0, mem[BUFFER_PAGE]) <= i < Word(0, mem[BUFFER_PAGE]) + n ==>
         mem[i] == disk[i - Word(0, mem[BUFFER_PAGE]) + at]
  }

  // What one transfer writes in memory besides the buffer.
  predicate IsBlockByte(i: int) {
    i == BLOCK_PAGE || i == BASE_LOW || i == BASE_HIGH || i == CUR_DRV || IsDeviceByte(i)
  }

  // Empty the buffer to the destination.
  method WriteChunk(mem: array<byte>, disk: array<byte>, ghost s: nat, ghost d: nat, ghost n: nat)
    requires Buffered(mem, disk, s, n) && WholePages(mem) && n == Word(0, mem[LENGTH_MID])
    requires d == 256 * Word(mem[DEST_LOW], mem[DEST_HIGH]) && d < s
    modifies mem, disk
    ensures Shifted(old(disk[..]), disk[..], d, d + n, s - d)
    ensures forall i :: 0 <= i < MEMORY_SIZE && !IsBlockByte(i) ==> mem[i] == old(mem[i])
  {
    ghost var page := Word(0, mem[BUFFER_PAGE]);
    mem[CUR_DRV] := mem[DEST_DRIVE];
    SetBlock(mem, DEST_LOW);
    ghost var before, buffer := disk[..], mem[..];
    assert forall i :: page <= i < page + n ==> buffer[i] == before[i - page + s];
    SaveBlock(mem, disk, page, n, d);
    ChunkShifted(before, disk[..], buffer, s, d, n, page);
  }

  // Fill the buffer from the source.
  method ReadChunk(mem: array<byte>, disk: array<byte>, ghost at: nat, ghost left: nat) returns (c: byte)
    requires CanMove(mem, disk) && WholePages(mem)
    requires at == 256 * Word(mem[SOURCE_LOW], mem[SOURCE_HIGH])
    requires left == Word(mem[COUNT_LOW], mem[COUNT_HIGH]) && left > 0
    requires at + 256 * left <= DISK_SIZE
    modifies mem
    ensures 0 < c <= left && c == mem[LENGTH_MID] && WholePages(mem)
    ensures Buffered(mem, disk, at, 256 * c)
    ensures OnlyMoved(old(mem[..]), mem[..], old(mem[BUFFER_PAGE]), old(mem[BUFFER_PAGES]))
    ensures forall i :: COUNT_LOW <= i <= DEST_HIGH ==> mem[i] == old(mem[i])
  {
    c := ChunkSize(mem, left);
    mem[LENGTH_MID] := c;
    mem[CUR_DRV] := mem[SOURCE_DRIVE];
    SetBlock(mem, SOURCE_LOW);
    LoadBlock(mem, disk, Word(0, mem[BUFFER_PAGE]), 256 * c, at);
  }

  lemma ChunkShifted(before: seq<byte>, after: seq<byte>, buffer: seq<byte>, s: nat, d: nat, n: nat, at: nat)
    requires |before| == |after| && d < s && s + n <= |before| && at + n <= |buffer|
    requires forall i :: at <= i < at + n ==> buffer[i] == before[i - at + s]
    requires Stored(before, after, d, n, buffer, at)
    ensures Shifted(before, after, d, d + n, s - d)
  {
  }

  // Point the block at the buffer and at the sector in a two-byte variable.
  method SetBlock(mem: array<byte>, a: nat)
    requires mem.Length == MEMORY_SIZE && (a == SOURCE_LOW || a == DEST_LOW)
    modifies mem
    ensures mem[BLOCK_PAGE] == mem[BUFFER_PAGE] && mem[BASE_LOW] == mem[a] && mem[BASE_HIGH] == mem[a + 1]
    ensures forall i :: 0 <= i < MEMORY_SIZE && i != BLOCK_PAGE && i != BASE_LOW && i != BASE_HIGH ==>
      mem[i] == old(mem[i])
  {
    mem[BASE_LOW] := mem[a];
    mem[BASE_HIGH] := mem[a + 1];
    mem[BLOCK_PAGE] := mem[BUFFER_PAGE];
  }

  // $9e06: however small the buffer and however the ranges overlap, the destination
  // ends up with what the source held, and nothing else on the disk changes.
  method MoveFile(mem: array<byte>, disk: array<byte>, ghost s: nat, ghost d: nat, ghost n: nat)
    requires CanMove(mem, disk) && mem[COPY_STATE] < 128
    requires s == Word(mem[SOURCE_LOW], mem[SOURCE_HIGH]) && d == Word(mem[DEST_LOW], mem[DEST_HIGH])
    requires n == Word(mem[COUNT_LOW], mem[COUNT_HIGH]) && n > 0
    requires d < s && s + n <= DISK_SECTORS
    modifies mem, disk
    ensures Shifted(old(disk[..]), disk[..], 256 * d, 256 * (d + n), 256 * (s - d))
    ensures Word(mem[DEST_LOW], mem[DEST_HIGH]) == d + n
    ensures OnlyMoved(old(mem[..]), mem[..], old(mem[BUFFER_PAGE]), old(mem[BUFFER_PAGES]))
  {
    hide Shifted;
    mem[TUBE_ADDR], mem[TUBE_ADDR + 1] := 0xFF, 0xFF;
    mem[LOAD_ADDR], mem[LENGTH_LOW] := 0, 0;
    ghost var done, page, pages := 0, mem[BUFFER_PAGE], mem[BUFFER_PAGES];
    ShiftedNothing(disk[..], 256 * d, 256 * (s - d));
    var more := true;
    while more
      invariant CanMove(mem, disk) && WholePages(mem)
      invariant 0 <= done <= n && more == (done < n)
      invariant Word(mem[SOURCE_LOW], mem[SOURCE_HIGH]) == s + done
      invariant Word(mem[DEST_LOW], mem[DEST_HIGH]) == d + done
      invariant Word(mem[COUNT_LOW], mem[COUNT_HIGH]) == n - done
      invariant Shifted(old(disk[..]), disk[..], 256 * d, 256 * (d + done), 256 * (s - d))
      invariant OnlyMoved(old(mem[..]), mem[..], page, pages)
      decreases n - done
    {
      ghost var disk1 := disk[..];
      var c := MoveChunk(mem, disk, s + done, d + done, n - done);
      ShiftedOn(old(disk[..]), disk1, disk[..], 256 * d, 256 * (d + done), 256 * (d + done + c), 256 * (s - d));
      Advance(mem, DEST_LOW, c, d + done);
      Advance(mem, SOURCE_LOW, c, s + done);
      more := CountDown(mem, c, n - done);
      done := done + c;
    }
  }

  lemma ShiftedNothing(s: seq<byte>, at: nat, delta: nat)
    requires at + delta <= |s|
    ensures Shifted(s, s, at, at, delta)
  {
  }
}
