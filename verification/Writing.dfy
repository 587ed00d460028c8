// BPUT: bytes put into a file through its one-sector buffer, on a disk that keeps what is
// written to it.

module Writing {
  import opened Bytes
  import opened Layout
  import opened Flags
  import opened Catalogue
  import opened CatalogueEdit
  import opened Device
  import opened Extension
  import Blocks
  import Channels

  // ---- A file open for writing ----

  // Its handle block, the sectors it owns with the zero below them, and its buffer.
  datatype Open = Open(f: Channels.Block, owned: nat, zero: byte, buffer: seq<byte>)

  const OWNED_ZERO := 0x1118

  function OpenAt(m: seq<byte>, y: byte): Open
    requires |m| == MEMORY_SIZE && IsOffset(y) && m[BUFFER + y] < 0x80
  {
    var page: int := 256 * m[BUFFER + y] as int;
    Open(Channels.BlockOf(m, y), Word(m[ALLOCATED + y], m[ALLOCATED + 1 + y]), m[OWNED_ZERO + y],
      m[page..page + 256])
  }

  // The file lies on the disk, PTR within it and it within the sectors it owns; a current
  // buffer is PTR's sector, and one that counts is one of the file's own sectors. Below them
  // nothing has been loaded yet; otherwise the buffer holds its sector, as far as the file
  // goes, or what is to be written to it.
  ghost predicate OpenOk(o: Open, d: seq<byte>) {
    && |d| == DISK_SIZE && |o.buffer| == 256
    && FIRST_SECTOR <= o.f.start && o.f.start + o.owned <= DISK_SECTORS
    && o.f.ptr <= o.f.extent <= 256 * o.owned
    && (Current(o.f.flags) ==> o.f.recorded == o.f.start + o.f.ptr / 256)
    && (Current(o.f.flags) || Dirty(o.f.flags) ==> o.f.start <= o.f.recorded)
    && o.f.recorded < o.f.start + o.owned
    && (o.f.start <= o.f.recorded && !Dirty(o.f.flags) ==> Filled(o, d))
  }

  ghost predicate Filled(o: Open, d: seq<byte>)
    requires |d| == DISK_SIZE && |o.buffer| == 256
  {
    SectorHeld(o.buffer, d, o.f.recorded, 256 * o.f.start + o.f.extent)
  }

  // The sector s in a buffer, as far as the end of a file.
  ghost predicate SectorHeld(buffer: seq<byte>, d: seq<byte>, s: nat, end: nat)
    requires |buffer| == 256 && |d| == DISK_SIZE
  {
    forall i :: 0 <= i < 256 && 256 * s + i < end ==> 256 * s + i < DISK_SIZE && buffer[i] == d[256 * s + i]
  }

  // A byte of the file, as its user sees it.
  function ByteAt(o: Open, d: seq<byte>, i: nat): byte
    requires |d| == DISK_SIZE && |o.buffer| == 256 && 256 * o.f.start + i < DISK_SIZE
  {
    var p, at := 256 * o.f.start + i, 256 * o.f.recorded;
    if Dirty(o.f.flags) && at <= p < at + 256 then o.buffer[p - at] else d[p]
  }

  ghost function Contents(o: Open, d: seq<byte>): (s: seq<byte>)
    requires OpenOk(o, d)
    ensures |s| == o.f.extent
    ensures forall i :: 0 <= i < |s| ==> s[i] == ByteAt(o, d, i)
  {
    seq<byte>(o.f.extent, i requires 0 <= i < o.f.extent => ByteAt(o, d, i))
  }

  // This is what module Extension calls seen, and the sector that of the last fill.
  lemma SeenBytes(m: seq<byte>, d: seq<byte>, y: byte, i: nat)
    requires |m| == MEMORY_SIZE && |d| == DISK_SIZE && IsOffset(y) && m[BUFFER + y] < 0x80
    requires 256 * Channels.BlockOf(m, y).start + i < DISK_SIZE
    ensures BufferSector(m, y) == Channels.BlockOf(m, y).recorded
    ensures ByteAt(OpenAt(m, y), d, i) == Seen(m, d, y, 256 * Channels.BlockOf(m, y).start + i)
  {
    hide Channels.BlockOf, Dirty, BufferSector, OpenAt;
    SectorRecorded(m, y);
    FlagsOf(m, y);
    var at := 256 * BufferSector(m, y);
    var p := 256 * Channels.BlockOf(m, y).start + i;
    if at <= p < at + 256 {
      BufferByte(m, y, p - at);
    }
  }

  lemma SectorRecorded(m: seq<byte>, y: byte)
    requires |m| == MEMORY_SIZE && IsOffset(y)
    ensures BufferSector(m, y) == Channels.BlockOf(m, y).recorded && m[FLAGS + y] == Channels.BlockOf(m, y).flags
  {
  }

  lemma BufferByte(m: seq<byte>, y: byte, j: nat)
    requires |m| == MEMORY_SIZE && IsOffset(y) && m[BUFFER + y] < 0x80 && j < 256
    ensures |OpenAt(m, y).buffer| == 256 && OpenAt(m, y).buffer[j] == m[256 * (m[BUFFER + y] as int) + j]
  {
    hide Channels.BlockOf;
  }

  // A byte put at p, in the file or at its end.
  function PutAt(s: seq<byte>, p: nat, v: byte): seq<byte>
    requires p <= |s|
  {
    if p < |s| then s[p := v] else s + [v]
  }

  function PutAll(s: seq<byte>, p: nat, vs: seq<byte>): seq<byte>
    requires p <= |s|
    decreases |vs|
  {
    if vs == [] then s else PutAll(PutAt(s, p, vs[0]), p + 1, vs[1..])
  }

  // Bytes put one after the other replace those that were there, and go on at the end.
  lemma {:induction false} PutAllMeans(s: seq<byte>, p: nat, vs: seq<byte>)
    requires p <= |s|
    ensures |PutAll(s, p, vs)| == if p + |vs| < |s| then |s| else p + |vs|
    ensures forall i :: 0 <= i < |PutAll(s, p, vs)| ==>
      PutAll(s, p, vs)[i] == if p <= i < p + |vs| then vs[i - p] else s[i]
    decreases |vs|
  {
    if vs != [] {
      PutAllMeans(PutAt(s, p, vs[0]), p + 1, vs[1..]);
    }
  }

  // ---- What one call does to the file ----

  function Emptied(o: Open): Open { o.(f := o.f.(flags := AndNotBit6(o.f.flags))) }

  // The changed buffer has gone to its sector.
  ghost predicate Written(o: Open, d: seq<byte>, d': seq<byte>)
    requires OpenOk(o, d)
  {
    |d'| == DISK_SIZE && forall i :: 0 <= i < 256 * o.owned ==> d'[256 * o.f.start + i] == ByteAt(o, d, i)
  }

  lemma EmptiedKeeps(o: Open, d: seq<byte>, d': seq<byte>)
    requires OpenOk(o, d) && Written(o, d, d') && !Current(o.f.flags)
    ensures OpenOk(Emptied(o), d') && Contents(Emptied(o), d') == Contents(o, d)
  {
    FlagsKept(o.f.flags);
    if o.f.start <= o.f.recorded {
      EmptiedFilled(o, d, d');
    }
    hide AndNotBit6, Filled;
    var s, t := Contents(o, d), Contents(Emptied(o), d');
    forall i | 0 <= i < |t|
      ensures t[i] == s[i]
    {
      assert d'[256 * o.f.start + i] == ByteAt(o, d, i);
    }
  }

  // What has been written is in the buffer still.
  lemma EmptiedFilled(o: Open, d: seq<byte>, d': seq<byte>)
    requires OpenOk(o, d) && Written(o, d, d') && o.f.start <= o.f.recorded
    ensures Filled(Emptied(o), d')
  {
    hide AndNotBit6, Dirty;
    var at := 256 * o.f.recorded;
    forall i | 0 <= i < 256 && at + i < 256 * o.f.start + o.f.extent
      ensures at + i < DISK_SIZE && o.buffer[i] == d'[at + i]
    {
      assert d'[256 * o.f.start + (at + i - 256 * o.f.start)] == ByteAt(o, d, at + i - 256 * o.f.start);
    }
  }

  lemma FlagsKept(v: byte)
    ensures Current(AndNotBit6(v)) == Current(v) && Longer(AndNotBit6(v)) == Longer(v)
    ensures Warned(AndNotBit6(v)) == Warned(v)
  {
    assert (v - 64) / 32 == v / 32 - 2 && (v - 64) / 16 == v / 16 - 4;
    assert v / 64 == v / 128 * 2 + v / 64 % 2;
  }

  function Place(o: Open): nat { o.f.start + o.f.ptr / 256 }

  function Noted(o: Open): Open { o.(f := o.f.(flags := OrBit7(o.f.flags), recorded := Place(o))) }

  // With nothing to be written what is seen is the disk, whatever comes into the buffer.
  lemma NotedKeeps(o: Open, d: seq<byte>, buffer: seq<byte>)
    requires OpenOk(o, d) && !Dirty(o.f.flags) && o.f.ptr < 256 * o.owned && |buffer| == 256
    requires Filled(Noted(o).(buffer := buffer), d)
    ensures var o' := Noted(o).(buffer := buffer);
      OpenOk(o', d) && Contents(o', d) == Contents(o, d)
  {
    hide Filled, OrBit7;
    var o' := Noted(o).(buffer := buffer);
    var s, t := Contents(o, d), Contents(o', d);
    assert forall i :: 0 <= i < |t| ==> t[i] == s[i];
  }

  // The byte is in the buffer, PTR has moved on, and EXT with it at the end.
  ghost predicate IsPut(o: Open, o': Open, v: byte) {
    && |o.buffer| == |o'.buffer| == 256 && o'.owned == o.owned && o'.zero == o.zero
    && (Longer(o'.f.flags) <==> Longer(o.f.flags) || o.f.ptr + 1 >= o.f.extent)
    && (Warned(o'.f.flags) <==> Warned(o.f.flags))
    && o'.buffer == o.buffer[o.f.ptr % 256 := v]
    && Dirty(o'.f.flags) && (Current(o'.f.flags) <==> Current(o.f.flags) && (o.f.ptr + 1) % 256 != 0)
    && o'.f == o.f.(ptr := o.f.ptr + 1, flags := o'.f.flags,
         extent := if o.f.ptr + 1 >= o.f.extent then o.f.ptr + 1 else o.f.extent)
  }

  lemma PutKeeps(o: Open, d: seq<byte>, o': Open, v: byte)
    requires OpenOk(o, d) && Current(o.f.flags) && o.f.ptr < 256 * o.owned && IsPut(o, o', v)
    ensures OpenOk(o', d) && Contents(o', d) == PutAt(Contents(o, d), o.f.ptr, v)
  {
    hide Current, Dirty;
    Channels.NextPage(o.f.ptr);
    assert OpenOk(o', d);
    var s, t := PutAt(Contents(o, d), o.f.ptr, v), Contents(o', d);
    forall i | 0 <= i < |t|
      ensures t[i] == s[i]
    {
      PutByteAt(o, d, o', v, i);
    }
  }

  lemma PutByteAt(o: Open, d: seq<byte>, o': Open, v: byte, i: nat)
    requires OpenOk(o, d) && Current(o.f.flags) && o.f.ptr < 256 * o.owned && IsPut(o, o', v) && i < o'.f.extent
    ensures ByteAt(o', d, i) == if i == o.f.ptr then v else ByteAt(o, d, i)
  {
    hide Current, Dirty;
    PlaceInSector(o.f.start, o.f.ptr, i);
    var p, at := 256 * o.f.start + i, 256 * o.f.recorded;
    if at <= p < at + 256 && i != o.f.ptr && !Dirty(o.f.flags) {
      assert o.buffer[p - at] == d[at + (p - at)];
    }
  }

  // Where byte i of a file stands to the sector of its byte p.
  lemma PlaceInSector(start: nat, p: nat, i: nat)
    ensures var at := 256 * (start + p / 256);
      && (i == p ==> at <= 256 * start + i < at + 256)
      && (256 * start + i - at == p % 256 <==> i == p)
  {
    assert p == 256 * (p / 256) + p % 256;
  }

  // ---- The steps on memory ----

  ghost predicate IsOpen(m: seq<byte>, d: seq<byte>, y: byte) {
    && |m| == MEMORY_SIZE && |d| == DISK_SIZE && IsOffset(y) && 0x12 <= m[BUFFER + y] < 0x80
    && OpenOk(OpenAt(m, y), d)
  }

  // Two memories with the same handle block and buffer.
  lemma SameOpen(m: seq<byte>, m': seq<byte>, y: byte)
    requires |m| == |m'| == MEMORY_SIZE && IsOffset(y) && 0x12 <= m[BUFFER + y] < 0x80
    requires forall i :: 0x1100 + y as int <= i < 0x1120 + y as int || 0x1200 <= i < 0x8000 ==>
      i != FLAGS + y ==> m'[i] == m[i]
    ensures m'[BUFFER + y] == m[BUFFER + y]
    ensures OpenAt(m', y) == OpenAt(m, y).(f := OpenAt(m, y).f.(flags := m'[FLAGS + y]))
  {
    var page: int := 256 * m[BUFFER + y] as int;
    assert m'[page..page + 256] == m[page..page + 256];
  }

  lemma FlagsOf(m: seq<byte>, y: byte)
    requires |m| == MEMORY_SIZE && IsOffset(y) && m[BUFFER + y] < 0x80
    ensures OpenAt(m, y).f.flags == m[FLAGS + y] && OpenAt(m, y).f.page == m[BUFFER + y]
    ensures |OpenAt(m, y).buffer| == 256 && OpenAt(m, y).f == Channels.BlockOf(m, y)
  {
  }

  lemma OpenWithin(m: seq<byte>, d: seq<byte>, y: byte)
    requires IsOpen(m, d, y)
    ensures BufferWithin(m, y, FIRST_SECTOR, DISK_SECTORS)
    ensures BufferWithin(m, y, OpenAt(m, y).f.start, OpenAt(m, y).f.start + OpenAt(m, y).owned)
    ensures OpenAt(m, y).f.ptr < 256 * OpenAt(m, y).owned ==>
      Channels.SectorOf(Channels.BlockOf(m, y)) == Place(OpenAt(m, y)) < DISK_SECTORS
  {
  }

  lemma WrittenBytes(m: seq<byte>, d: seq<byte>, d': seq<byte>, y: byte)
    requires IsOpen(m, d, y) && Flushed(m, d, d', y)
    ensures Written(OpenAt(m, y), d, d')
  {
    var o := OpenAt(m, y);
    hide OpenAt, Channels.BlockOf, ByteAt, Filled;
    FlagsOf(m, y);
    forall i | 0 <= i < 256 * o.owned
      ensures d'[256 * o.f.start + i] == ByteAt(o, d, i)
    {
      SeenBytes(m, d, y, i);
      assert d'[256 * o.f.start + i] == Seen(m, d, y, 256 * o.f.start + i);
    }
  }

  // The changed buffer goes to its sector.
  method Empty(mem: array<byte>, disk: array<byte>, y: byte)
    requires mem.Length == MEMORY_SIZE && disk.Length == DISK_SIZE && mem != disk && IsOpen(mem[..], disk[..], y)
    modifies mem, disk
    ensures mem[BUFFER + y] == old(mem[BUFFER + y]) && OpenAt(mem[..], y) == Emptied(old(OpenAt(mem[..], y)))
    ensures Written(old(OpenAt(mem[..], y)), old(disk[..]), disk[..])
    ensures IsFramed(old(mem[..]), mem[..], y)
    ensures OnlyFile(old(OpenAt(mem[..], y)), old(disk[..]), disk[..])
  {
    hide OpenOk, OpenAt, Written, Flushed, BufferWithin;
    ghost var m, d := mem[..], disk[..];
    OpenWithin(m, d, y);
    FlagsOf(m, y);
    FlushBuffer(mem, disk, y);
    SameOpen(m, mem[..], y);
    WrittenBytes(m, d, disk[..], y);
    OthersKept(m, d, disk[..], y, OpenAt(m, y).f.start, OpenAt(m, y).f.start + OpenAt(m, y).owned);
    assert forall i :: 0 <= i < PAGES_SIZE ==> disk[i] == d[i];
  }

  // What putting a byte writes in memory: scratch variables, the handle block's working part
  // and the buffer.
  predicate IsFrameByte(i: int, y: byte, page: byte) {
    || Channels.IsScratch(i) || IsScratch(i) || FILE_PTR + y as int <= i < FILE_PTR + 16 + y as int
    || 256 * (page as int) <= i < 256 * (page as int) + 256
  }

  ghost predicate IsFramed(m: seq<byte>, m': seq<byte>, y: byte) {
    && |m| == |m'| == MEMORY_SIZE && IsOffset(y)
    && forall i :: 0 <= i < MEMORY_SIZE && !IsFrameByte(i, y, m[BUFFER + y]) ==> m'[i] == m[i]
  }

  // And on the disk: sectors of the file.
  ghost predicate OnlyFile(o: Open, d: seq<byte>, d': seq<byte>) {
    && OnlyWithin(d, d', o.f.start, o.f.start + o.owned)
    && forall i :: 0 <= i < PAGES_SIZE ==> d'[i] == d[i]
  }

  // The sector of PTR comes into the buffer.
  method Fill(mem: array<byte>, disk: array<byte>, y: byte)
    requires mem.Length == MEMORY_SIZE && disk.Length == DISK_SIZE && mem != disk && IsOpen(mem[..], disk[..], y)
    requires OpenAt(mem[..], y).f.ptr < 256 * OpenAt(mem[..], y).owned
    modifies mem
    ensures mem[BUFFER + y] == old(mem[BUFFER + y])
    ensures var at := 256 * Place(old(OpenAt(mem[..], y)));
      && at + 256 <= DISK_SIZE
      && OpenAt(mem[..], y) == Noted(old(OpenAt(mem[..], y))).(buffer := disk[at..at + 256])
    ensures IsFramed(old(mem[..]), mem[..], y)
  {
    hide OpenOk, OpenAt, Channels.BlockOf, Blocks.StartSector, Blocks.ByteLength, OrBit7, IsBlock;
    ghost var m := mem[..];
    ghost var at := 256 * Place(OpenAt(m, y));
    OpenWithin(m, disk[..], y);
    FlagsOf(m, y);
    Channels.PrepareLoad(mem, y);
    ghost var m1 := mem[..];
    FillBlock(mem, m[BUFFER + y], Place(OpenAt(m, y)));
    LoadBlock(mem, disk, Word(0, m[BUFFER + y]), 256, at);
    FilledOpen(m, m1, mem[..], disk[..], y, at);
  }

  lemma FillBlock(mem: array<byte>, page: byte, s: nat)
    requires mem.Length == MEMORY_SIZE && 0x12 <= page < 0x80 && s < DISK_SECTORS
    requires Blocks.StartSector(mem[..]) == s && Blocks.ByteLength(mem[..]) == 256 && mem[Blocks.PACKED] < 4
    requires Word(mem[Blocks.MEM_ADDR], mem[Blocks.MEM_ADDR + 1]) == Word(0, page)
    ensures IsBlock(mem, Word(0, page), 256, 256 * s)
  {
  }

  lemma FilledOpen(m: seq<byte>, m1: seq<byte>, m2: seq<byte>, d: seq<byte>, y: byte, at: nat)
    requires |m| == |m1| == |m2| == MEMORY_SIZE && IsOffset(y) && 0x12 <= m[BUFFER + y] < 0x80
    requires at == 256 * Place(OpenAt(m, y)) && at + 256 <= |d|
    requires Channels.BlockOf(m1, y) == Noted(OpenAt(m, y)).f
    requires forall i :: OWNED_ZERO + y <= i <= ALLOCATED + 1 + y ==> m1[i] == m[i]
    requires forall i :: Word(0, m[BUFFER + y]) <= i < Word(0, m[BUFFER + y]) + 256 ==>
      m2[i] == d[i - Word(0, m[BUFFER + y]) + at]
    requires forall i :: 0x1100 + y as int <= i < 0x1120 + y as int ==> m2[i] == m1[i]
    ensures m2[BUFFER + y] == m[BUFFER + y]
    ensures OpenAt(m2, y) == Noted(OpenAt(m, y)).(buffer := d[at..at + 256])
  {
    hide Channels.BlockOf, Noted;
    NotedFlags(OpenAt(m, y));
    BufferPage(m, m1, y);
    SameBlock(m1, m2, y);
    SliceFrom(m2, d, Word(0, m[BUFFER + y]), at);
  }

  lemma SameBlock(m: seq<byte>, m': seq<byte>, y: byte)
    requires |m| == |m'| == MEMORY_SIZE && IsOffset(y)
    requires forall i :: 0x1100 + y as int <= i < 0x1120 + y as int ==> m'[i] == m[i]
    ensures Channels.BlockOf(m', y) == Channels.BlockOf(m, y) && m'[BUFFER + y] == m[BUFFER + y]
    ensures forall i :: OWNED_ZERO + y <= i <= ALLOCATED + 1 + y ==> m'[i] == m[i]
  {
  }

  lemma BufferPage(m: seq<byte>, m1: seq<byte>, y: byte)
    requires |m| == |m1| == MEMORY_SIZE && IsOffset(y) && m[BUFFER + y] < 0x80
    requires Channels.BlockOf(m1, y) == Noted(OpenAt(m, y)).f
    ensures m1[BUFFER + y] == m[BUFFER + y]
  {
    hide OrBit7;
    FlagsOf(m, y);
    assert Channels.BlockOf(m1, y).page == m1[BUFFER + y];
  }

  lemma SliceFrom(m: seq<byte>, d: seq<byte>, page: nat, at: nat)
    requires page + 256 <= |m| && at + 256 <= |d|
    requires forall i :: page <= i < page + 256 ==> m[i] == d[i - page + at]
    ensures m[page..page + 256] == d[at..at + 256]
  {
    var s, t := m[page..page + 256], d[at..at + 256];
    forall i | 0 <= i < |s|
      ensures s[i] == t[i]
    {
      assert m[page + i] == d[page + i - page + at];
    }
  }

  // At the end of the file and of a sector there is nothing to load: the sector is noted.
  method Note(mem: array<byte>, y: byte)
    requires mem.Length == MEMORY_SIZE && IsOffset(y) && 0x12 <= mem[BUFFER + y] < 0x80
    requires Place(OpenAt(mem[..], y)) < DISK_SECTORS
    modifies mem
    ensures mem[BUFFER + y] == old(mem[BUFFER + y]) && OpenAt(mem[..], y) == Noted(old(OpenAt(mem[..], y)))
    ensures IsFramed(old(mem[..]), mem[..], y)
  {
    hide OrBit7;
    ghost var m := mem[..];
    var lo, hi := Channels.AddSector(mem, y);
    mem[BASE_LOW], mem[BASE_HIGH] := lo, hi;
    Channels.RecordSector(mem, y, lo, hi);
    NotedOpen(m, mem[..], y);
  }

  lemma NotedOpen(m: seq<byte>, m': seq<byte>, y: byte)
    requires |m| == |m'| == MEMORY_SIZE && IsOffset(y) && 0x12 <= m[BUFFER + y] < 0x80
    requires Word(m'[BUFFERED + y], m'[BUFFERED + 1 + y]) == Place(OpenAt(m, y)) &&
      m'[FLAGS + y] == OrBit7(m[FLAGS + y])
    requires forall i :: 0x1100 + y as int <= i < 0x8000 && i != FLAGS + y && i != BUFFERED + y ==>
      i != BUFFERED + 1 + y ==> m'[i] == m[i]
    ensures m'[BUFFER + y] == m[BUFFER + y] && OpenAt(m', y) == Noted(OpenAt(m, y))
  {
    hide OrBit7;
    var page: int := 256 * m[BUFFER + y] as int;
    assert m'[page..page + 256] == m[page..page + 256];
  }

  // $92f8: PTR has come to EXT or passed it.
  method Reaches(mem: array<byte>, y: byte) returns (reached: bool)
    requires mem.Length == MEMORY_SIZE
    ensures reached == (Channels.BlockOf(mem[..], y).ptr >= Channels.BlockOf(mem[..], y).extent)
  {
    if mem[FILE_PTR + 2 + y] != mem[EXTENT + 2 + y] {
      reached := mem[FILE_PTR + 2 + y] >= mem[EXTENT + 2 + y];
    } else if mem[FILE_PTR + 1 + y] != mem[EXTENT + 1 + y] {
      reached := mem[FILE_PTR + 1 + y] >= mem[EXTENT + 1 + y];
    } else {
      reached := mem[FILE_PTR + y] >= mem[EXTENT + y];
    }
  }

  // ---- BPUT ----

  // With nothing to be written, the buffer becomes PTR's sector.
  method Refill(mem: array<byte>, disk: array<byte>, y: byte)
    requires mem.Length == MEMORY_SIZE && disk.Length == DISK_SIZE && mem != disk && IsOpen(mem[..], disk[..], y)
    requires OpenAt(mem[..], y).f.ptr < 256 * OpenAt(mem[..], y).owned && !Dirty(mem[FLAGS + y])
    modifies mem
    ensures mem[BUFFER + y] == old(mem[BUFFER + y]) && IsOpen(mem[..], disk[..], y) && Current(mem[FLAGS + y])
    ensures SameUse(old(OpenAt(mem[..], y)), disk[..], OpenAt(mem[..], y), disk[..])
    ensures IsFramed(old(mem[..]), mem[..], y)
  {
    hide OpenOk, OpenAt, Current, Dirty, Longer, Warned, Contents, Filled, Noted;
    ghost var m, d := mem[..], disk[..];
    ghost var o := OpenAt(m, y);
    FlagsOf(m, y);
    NotNow(o, d);
    ExtentByte(m, y);
    NotedFlags(o);
    var end := false;
    if mem[EXTENT + y] == 0 {
      end := Channels.AtExtent(mem, y);
    }
    if end {
      NothingThere(o, d);
      NotedKeeps(o, d, o.buffer);
      Note(mem, y);
    } else {
      FilledThere(o, d);
      NotedKeeps(o, d, d[256 * Place(o)..256 * Place(o) + 256]);
      Fill(mem, disk, y);
    }
    FlagsOf(mem[..], y);
  }

  // $923d: unless the buffer is PTR's sector it is emptied and made so.
  method MakeCurrent(mem: array<byte>, disk: array<byte>, y: byte)
    requires mem.Length == MEMORY_SIZE && disk.Length == DISK_SIZE && mem != disk && IsOpen(mem[..], disk[..], y)
    requires OpenAt(mem[..], y).f.ptr < 256 * OpenAt(mem[..], y).owned
    modifies mem, disk
    ensures mem[BUFFER + y] == old(mem[BUFFER + y]) && IsOpen(mem[..], disk[..], y) && Current(mem[FLAGS + y])
    ensures SameUse(old(OpenAt(mem[..], y)), old(disk[..]), OpenAt(mem[..], y), disk[..])
    ensures IsFramed(old(mem[..]), mem[..], y) && OnlyFile(old(OpenAt(mem[..], y)), old(disk[..]), disk[..])
  {
    hide OpenOk, OpenAt, Written, Current, Dirty, Longer, Warned, Contents, OnlyFile, AndNotBit6;
    ghost var m, d := mem[..], disk[..];
    ghost var o := OpenAt(m, y);
    FlagsOf(m, y);
    if Current(mem[FLAGS + y]) {
      NothingChanged(m, d, y);
    } else {
      Empty(mem, disk, y);
      FlagsOf(mem[..], y);
      EmptiedKeeps(o, d, disk[..]);
      EmptiedFlags(o);
      Refill(mem, disk, y);
    }
  }

  // The same file to its user.
  ghost predicate SameUse(o: Open, d: seq<byte>, o': Open, d': seq<byte>) {
    && OpenOk(o, d) && OpenOk(o', d') && Contents(o', d') == Contents(o, d)
    && o'.f.start == o.f.start && o'.f.ptr == o.f.ptr && o'.f.extent == o.f.extent && o'.owned == o.owned
    && o'.f.page == o.f.page && o'.zero == o.zero && (Longer(o'.f.flags) <==> Longer(o.f.flags))
    && (Warned(o'.f.flags) <==> Warned(o.f.flags))
  }

  lemma NothingChanged(m: seq<byte>, d: seq<byte>, y: byte)
    requires IsOpen(m, d, y)
    ensures SameUse(OpenAt(m, y), d, OpenAt(m, y), d) && IsFramed(m, m, y) && OnlyFile(OpenAt(m, y), d, d)
  {
  }

  lemma EmptiedFlags(o: Open)
    ensures !Dirty(Emptied(o).f.flags) && Current(Emptied(o).f.flags) == Current(o.f.flags)
    ensures Longer(Emptied(o).f.flags) == Longer(o.f.flags) && Warned(Emptied(o).f.flags) == Warned(o.f.flags)
  {
    FlagsKept(o.f.flags);
  }

  lemma NotedFlags(o: Open)
    ensures Current(Noted(o).f.flags) && Longer(Noted(o).f.flags) == Longer(o.f.flags)
    ensures Warned(Noted(o).f.flags) == Warned(o.f.flags)
    ensures Noted(o).owned == o.owned && Noted(o).zero == o.zero
    ensures Noted(o).f == o.f.(flags := Noted(o).f.flags, recorded := Noted(o).f.recorded)
  {
    LoadedFlags(o.f.flags);
    hide OrBit7, Longer;
  }

  lemma LoadedFlags(v: byte)
    ensures Current(OrBit7(v)) && (Longer(OrBit7(v)) <==> Longer(v)) && (Warned(OrBit7(v)) <==> Warned(v))
  {
    assert (v + 128) / 32 == v / 32 + 4;
    hide Warned;
  }

  lemma NotNow(o: Open, d: seq<byte>)
    requires OpenOk(o, d)
    ensures o.f.ptr < 256 * o.owned ==> Place(o) < DISK_SECTORS
    ensures |o.buffer| == 256
  {
  }

  lemma ExtentByte(m: seq<byte>, y: byte)
    requires |m| == MEMORY_SIZE && IsOffset(y) && m[BUFFER + y] < 0x80
    ensures m[EXTENT + y] == OpenAt(m, y).f.extent % 256 && OpenAt(m, y).f == Channels.BlockOf(m, y)
  {
    Channels.LowByte(m[EXTENT + y], m[EXTENT + 1 + y], m[EXTENT + 2 + y]);
  }

  // A buffer that has been filled and marked as changed.
  function Marked(o: Open, d: seq<byte>): Open
    requires |d| == DISK_SIZE && Place(o) < DISK_SECTORS
  {
    var o' := Noted(o).(buffer := d[256 * Place(o)..256 * Place(o) + 256]);
    o'.(f := o'.f.(flags := OrBit6(o'.f.flags)))
  }

  // Written, it goes to the sector it was read from, and leaves the disk as it was.
  lemma FilledAndWritten(o: Open, d: seq<byte>, d': seq<byte>)
    requires OpenOk(o, d) && !Dirty(o.f.flags) && o.f.ptr < 256 * o.owned
    ensures Place(o) < DISK_SECTORS && OpenOk(Marked(o, d), d)
    ensures Marked(o, d).f.recorded == o.f.start + o.f.ptr / 256
    ensures Written(Marked(o, d), d, d') ==> SameSectors(o, d, d')
  {
    PlacedSector(o, d);
    MarkedOk(o, d);
    hide OpenOk, Marked, Noted, ByteAt;
    if Written(Marked(o, d), d, d') {
      forall p {:trigger d'[p]} | 256 * o.f.start <= p < 256 * (o.f.start + o.owned)
        ensures d'[p] == d[p]
      {
        MarkedByte(o, d, p - 256 * o.f.start);
        assert d'[256 * o.f.start + (p - 256 * o.f.start)] == ByteAt(Marked(o, d), d, p - 256 * o.f.start);
      }
    }
  }

  ghost predicate SameSectors(o: Open, d: seq<byte>, d': seq<byte>) {
    && |d| == |d'| == DISK_SIZE && o.f.start + o.owned <= DISK_SECTORS
    && forall p {:trigger d'[p]} :: 256 * o.f.start <= p < 256 * (o.f.start + o.owned) ==> d'[p] == d[p]
  }

  lemma MarkedOk(o: Open, d: seq<byte>)
    requires OpenOk(o, d) && !Dirty(o.f.flags) && o.f.ptr < 256 * o.owned && Place(o) < DISK_SECTORS
    ensures OpenOk(Marked(o, d), d) && Marked(o, d).f.recorded == Place(o)
    ensures Marked(o, d).f.start == o.f.start && Marked(o, d).owned == o.owned
  {
    FilledThere(o, d);
    NotedKeeps(o, d, d[256 * Place(o)..256 * Place(o) + 256]);
    NotedFlags(o);
    PlacedSector(o, d);
    StoredFlags(Noted(o).f.flags);
    hide OrBit6, OrBit7, Contents, Filled;
  }

  lemma MarkedByte(o: Open, d: seq<byte>, i: nat)
    requires |d| == DISK_SIZE && |o.buffer| == 256 && Place(o) < DISK_SECTORS && 256 * o.f.start + i < DISK_SIZE
    ensures ByteAt(Marked(o, d), d, i) == d[256 * o.f.start + i]
  {
    hide OrBit6, OrBit7;
  }

  lemma PlacedSector(o: Open, d: seq<byte>)
    requires OpenOk(o, d) && o.f.ptr < 256 * o.owned
    ensures o.f.start <= Place(o) < o.f.start + o.owned && Noted(o).f.recorded == Place(o)
  {
  }

  // No byte of the file is in the sector where it ends, if it ends where the sector begins.
  lemma NothingThere(o: Open, d: seq<byte>)
    requires OpenOk(o, d) && o.f.ptr == o.f.extent && o.f.extent % 256 == 0
    ensures Filled(Noted(o), d) && Noted(o).(buffer := o.buffer) == Noted(o)
  {
  }

  lemma FilledThere(o: Open, d: seq<byte>)
    requires OpenOk(o, d) && o.f.ptr < 256 * o.owned
    ensures var at := 256 * Place(o);
      at + 256 <= |d| && Filled(Noted(o).(buffer := d[at..at + 256]), d)
  {
  }

  // The byte into the buffer, by way of $bc.
  method IntoBuffer(mem: array<byte>, y: byte, v: byte)
    requires mem.Length == MEMORY_SIZE && IsOffset(y) && 0x12 <= mem[BUFFER + y] < 0x80
    modifies mem
    ensures mem[FLAGS + y] == OrBit6(old(mem[FLAGS + y]))
    ensures mem[old(Word(mem[FILE_PTR + y], mem[BUFFER + y]))] == v
    ensures forall i :: 0 <= i < MEMORY_SIZE && i != 0xBC && i != 0xBD && i != FLAGS + y ==>
      i != old(Word(mem[FILE_PTR + y], mem[BUFFER + y])) ==> mem[i] == old(mem[i])
  {
    hide OrBit6;
    mem[0xBC], mem[0xBD] := mem[FILE_PTR + y], mem[BUFFER + y];
    mem[Word(mem[0xBC], mem[0xBD])] := v;
    mem[FLAGS + y] := OrBit6(mem[FLAGS + y]);
    mem[0xBC] := Inc(mem[0xBC]);
  }

  // A file that has come to its end goes on: EXT is PTR.
  method Grow(mem: array<byte>, y: byte)
    requires mem.Length == MEMORY_SIZE && IsOffset(y)
    modifies mem
    ensures var f := old(Channels.BlockOf(mem[..], y));
      Channels.BlockOf(mem[..], y) ==
        if f.ptr >= f.extent then f.(extent := f.ptr, flags := OrBit5(f.flags)) else f
    ensures forall i :: 0 <= i < MEMORY_SIZE && !(EXTENT + y <= i <= FLAGS + y) ==> mem[i] == old(mem[i])
  {
    hide OrBit5;
    var reached := Reaches(mem, y);
    if reached {
      mem[FLAGS + y] := OrBit5(mem[FLAGS + y]);
      mem[EXTENT + y], mem[EXTENT + 1 + y], mem[EXTENT + 2 + y] :=
        mem[FILE_PTR + y], mem[FILE_PTR + 1 + y], mem[FILE_PTR + 2 + y];
    }
  }

  // $9259: the byte, the flags, PTR and EXT.
  method StoreByte(mem: array<byte>, y: byte, v: byte)
    requires mem.Length == MEMORY_SIZE && IsOffset(y) && 0x12 <= mem[BUFFER + y] < 0x80
    requires OpenAt(mem[..], y).f.ptr + 1 < 0x1000000
    modifies mem
    ensures mem[BUFFER + y] == old(mem[BUFFER + y]) && IsPut(old(OpenAt(mem[..], y)), OpenAt(mem[..], y), v)
    ensures IsFramed(old(mem[..]), mem[..], y)
  {
    hide OrBit6, OrBit5, AndNotBit7, Long, OpenAt, IsPut;
    ghost var m := mem[..];
    FlagsOf(m, y);
    IntoBuffer(mem, y, v);
    ghost var m1 := mem[..];
    PutPage(m, m1, y, v);
    Channels.AdvancePointer(mem, y);
    ghost var m2 := mem[..];
    Advanced(m1, m2, y);
    Grow(mem, y);
    PutParts(m, m1, m2, mem[..], y, v);
  }

  lemma PutPage(m: seq<byte>, m1: seq<byte>, y: byte, v: byte)
    requires |m| == |m1| == MEMORY_SIZE && IsOffset(y) && 0x12 <= m[BUFFER + y] < 0x80
    requires m1[Word(m[FILE_PTR + y], m[BUFFER + y])] == v
    requires forall i :: 0 <= i < MEMORY_SIZE && i != 0xBC && i != 0xBD && i != FLAGS + y ==>
      i != Word(m[FILE_PTR + y], m[BUFFER + y]) ==> m1[i] == m[i]
    ensures m1[BUFFER + y] == m[BUFFER + y]
    ensures var o := OpenAt(m, y);
      && m[FILE_PTR + y] == o.f.ptr % 256
      && OpenAt(m1, y) == o.(f := o.f.(flags := m1[FLAGS + y]), buffer := o.buffer[o.f.ptr % 256 := v])
  {
    Channels.LowByte(m[FILE_PTR + y], m[FILE_PTR + 1 + y], m[FILE_PTR + 2 + y]);
    assert Channels.BlockOf(m1, y) == Channels.BlockOf(m, y).(flags := m1[FLAGS + y]);
    var page: int := 256 * m[BUFFER + y] as int;
    assert m1[page..page + 256] == m[page..page + 256][m[FILE_PTR + y] as int := v];
  }

  lemma Advanced(m: seq<byte>, m': seq<byte>, y: byte)
    requires |m| == |m'| == MEMORY_SIZE && IsOffset(y) && 0x12 <= m[BUFFER + y] < 0x80
    requires Long(m'[FILE_PTR + y], m'[FILE_PTR + 1 + y], m'[FILE_PTR + 2 + y])
      == Long(m[FILE_PTR + y], m[FILE_PTR + 1 + y], m[FILE_PTR + 2 + y]) + 1
    requires forall i :: 0 <= i < MEMORY_SIZE && !(FILE_PTR + y <= i <= FILE_PTR + 2 + y) && i != FLAGS + y ==>
      m'[i] == m[i]
    ensures m'[BUFFER + y] == m[BUFFER + y]
    ensures var o := OpenAt(m, y);
      && OpenAt(m', y) == o.(f := o.f.(ptr := o.f.ptr + 1, flags := m'[FLAGS + y]))
      && (m'[FILE_PTR + y] == 0 <==> (o.f.ptr + 1) % 256 == 0)
  {
    Channels.LowByte(m'[FILE_PTR + y], m'[FILE_PTR + 1 + y], m'[FILE_PTR + 2 + y]);
    hide Long;
    var page: int := 256 * m[BUFFER + y] as int;
    assert m'[page..page + 256] == m[page..page + 256];
  }

  lemma PutParts(m: seq<byte>, m1: seq<byte>, m2: seq<byte>, m': seq<byte>, y: byte, v: byte)
    requires |m| == |m1| == |m2| == |m'| == MEMORY_SIZE && IsOffset(y)
    requires m[BUFFER + y] == m1[BUFFER + y] == m2[BUFFER + y] && 0x12 <= m[BUFFER + y] < 0x80
    requires var (o, o1, o2) := (OpenAt(m, y), OpenAt(m1, y), OpenAt(m2, y));
      && m1[FLAGS + y] == OrBit6(m[FLAGS + y]) && m[FLAGS + y] == o.f.flags && |o.buffer| == 256
      && o1 == o.(f := o.f.(flags := m1[FLAGS + y]), buffer := o.buffer[o.f.ptr % 256 := v])
      && o2 == o1.(f := o1.f.(ptr := o1.f.ptr + 1, flags := m2[FLAGS + y]))
      && m2[FLAGS + y] == (if (o1.f.ptr + 1) % 256 == 0 then AndNotBit7(m1[FLAGS + y]) else m1[FLAGS + y])
      && var f := Channels.BlockOf(m2, y);
      Channels.BlockOf(m', y) == if f.ptr >= f.extent then f.(extent := f.ptr, flags := OrBit5(f.flags)) else f
    requires forall i :: 0 <= i < MEMORY_SIZE && !(EXTENT + y <= i <= FLAGS + y) ==> m'[i] == m2[i]
    ensures m'[BUFFER + y] == m[BUFFER + y] && IsPut(OpenAt(m, y), OpenAt(m', y), v)
  {
    hide OrBit6, OrBit5, AndNotBit7, Current, Dirty, Longer, Warned, Channels.BlockOf, OpenAt, IsPut;
    FlagsOf(m2, y);
    FlagsOf(m', y);
    SamePage(m2, m', y);
    PutState(OpenAt(m, y), OpenAt(m2, y), OpenAt(m', y), v);
  }

  lemma PutState(o: Open, o2: Open, o': Open, v: byte)
    requires |o.buffer| == 256
    requires var w := OrBit6(o.f.flags);
      o2 == Open(o.f.(ptr := o.f.ptr + 1, flags := if (o.f.ptr + 1) % 256 == 0 then AndNotBit7(w) else w), o.owned,
                 o.zero, o.buffer[o.f.ptr % 256 := v])
    requires o'.owned == o2.owned && o'.zero == o2.zero && o'.buffer == o2.buffer
    requires o'.f == if o2.f.ptr >= o2.f.extent then o2.f.(extent := o2.f.ptr, flags := OrBit5(o2.f.flags)) else o2.f
    ensures IsPut(o, o', v)
  {
    PutFlags(o.f.flags);
    hide OrBit6, OrBit5, AndNotBit7, Current, Dirty, Longer, Warned;
  }

  lemma SamePage(m: seq<byte>, m': seq<byte>, y: byte)
    requires |m| == |m'| == MEMORY_SIZE && IsOffset(y) && 0x12 <= m[BUFFER + y] < 0x80
    requires forall i :: 0 <= i < MEMORY_SIZE && !(EXTENT + y <= i <= FLAGS + y) ==> m'[i] == m[i]
    ensures m'[BUFFER + y] == m[BUFFER + y]
    ensures OpenAt(m', y) == OpenAt(m, y).(f := OpenAt(m', y).f)
  {
    var page: int := 256 * m[BUFFER + y] as int;
    assert m'[page..page + 256] == m[page..page + 256];
  }

  lemma PutFlags(v: byte)
    ensures var w := OrBit6(v);
      && Dirty(w) && (Current(w) <==> Current(v))
      && Dirty(AndNotBit7(w)) && !Current(AndNotBit7(w))
      && Dirty(OrBit5(w)) && (Current(OrBit5(w)) <==> Current(v))
      && Dirty(OrBit5(AndNotBit7(w))) && !Current(OrBit5(AndNotBit7(w)))
      && (Longer(w) <==> Longer(v)) && (Longer(AndNotBit7(w)) <==> Longer(v))
      && (Warned(w) <==> Warned(v)) && (Warned(AndNotBit7(w)) <==> Warned(v))
      && (Warned(OrBit5(w)) <==> Warned(v)) && (Warned(OrBit5(AndNotBit7(w))) <==> Warned(v))
  {
    StoredFlags(v);
    StoredFlags(OrBit6(v));
    GrownFlags(OrBit6(v));
    GrownFlags(AndNotBit7(OrBit6(v)));
    hide OrBit5, OrBit6, AndNotBit7, Current, Dirty, Longer, Warned;
  }

  lemma StoredFlags(v: byte)
    ensures Dirty(OrBit6(v)) && (Current(OrBit6(v)) <==> Current(v)) && (Longer(OrBit6(v)) <==> Longer(v))
    ensures (Warned(OrBit6(v)) <==> Warned(v)) && (Longer(AndNotBit7(v)) <==> Longer(v))
  {
    assert (v + 64) / 32 == v / 32 + 2 && (v + 64) / 16 == v / 16 + 4 && (v - 128) / 32 == v / 32 - 4;
    assert v / 64 == v / 128 * 2 + v / 64 % 2;
  }

  lemma GrownFlags(v: byte)
    ensures Dirty(OrBit5(v)) == Dirty(v) && (Current(OrBit5(v)) <==> Current(v)) && (Warned(OrBit5(v)) <==> Warned(v))
  {
    assert (v + 32) / 16 == v / 16 + 2;
    if !Longer(v) {
      assert v / 32 == 2 * (v / 64) && (v + 32) / 64 == v / 64;
    }
  }

  // BPUT inside the sectors a file owns: its contents, as seen through the buffer, have the
  // byte at PTR, or are longer by it. No data outside the file's sectors changes.
  method PutByte(mem: array<byte>, disk: array<byte>, y: byte, v: byte)
    requires mem.Length == MEMORY_SIZE && disk.Length == DISK_SIZE && mem != disk && IsOpen(mem[..], disk[..], y)
    requires OpenAt(mem[..], y).f.ptr < 256 * OpenAt(mem[..], y).owned
    modifies mem, disk
    ensures mem[BUFFER + y] == old(mem[BUFFER + y]) && IsOpen(mem[..], disk[..], y)
    ensures HasPut(old(OpenAt(mem[..], y)), old(disk[..]), OpenAt(mem[..], y), disk[..], v)
    ensures IsFramed(old(mem[..]), mem[..], y) && OnlyFile(old(OpenAt(mem[..], y)), old(disk[..]), disk[..])
  {
    hide OpenOk, OpenAt, Contents, IsPut, PutAt, Current, OnlyFile, Channels.BlockOf;
    ghost var m, d := mem[..], disk[..];
    MakeCurrent(mem, disk, y);
    ghost var m1 := mem[..];
    FlagsOf(m1, y);
    Bounded(OpenAt(m1, y), disk[..]);
    StoreByte(mem, y, v);
    PutKeeps(OpenAt(m1, y), disk[..], OpenAt(mem[..], y), v);
    PutPlace(OpenAt(m1, y), OpenAt(mem[..], y), v);
  }

  // The same place on the disk, and the contents with a byte put.
  ghost predicate HasPut(o: Open, d: seq<byte>, o': Open, d': seq<byte>, v: byte) {
    && OpenOk(o, d) && OpenOk(o', d') && o.f.ptr <= o.f.extent
    && Contents(o', d') == PutAt(Contents(o, d), o.f.ptr, v)
    && o'.f.start == o.f.start && o'.f.ptr == o.f.ptr + 1 && o'.owned == o.owned && o'.zero == o.zero
    && (Longer(o'.f.flags) <==> Longer(o.f.flags) || o.f.ptr + 1 >= o.f.extent)
    && (Warned(o'.f.flags) <==> Warned(o.f.flags))
    && o'.f.extent == (if o.f.ptr == o.f.extent then o.f.extent + 1 else o.f.extent)
  }

  lemma Bounded(o: Open, d: seq<byte>)
    requires OpenOk(o, d)
    ensures o.f.ptr <= o.f.extent <= 0x32000
  {
  }

  lemma PutPlace(o: Open, o': Open, v: byte)
    requires IsPut(o, o', v) && o.f.ptr <= o.f.extent
    ensures o'.f.start == o.f.start && o'.f.ptr == o.f.ptr + 1 && o'.owned == o.owned && o'.zero == o.zero
    ensures Longer(o'.f.flags) <==> Longer(o.f.flags) || o.f.ptr + 1 >= o.f.extent
    ensures Warned(o'.f.flags) <==> Warned(o.f.flags)
    ensures o'.f.extent == if o.f.ptr == o.f.extent then o.f.extent + 1 else o.f.extent
  {
  }

  // ---- Closing, and BPUT as a whole ----

  // A file whose buffer has been written lies on the disk as it was seen.
  lemma FlushedContents(m: seq<byte>, d: seq<byte>, d': seq<byte>, y: byte)
    requires IsOpen(m, d, y) && Flushed(m, d, d', y)
    ensures OnDisk(OpenAt(m, y), d, d')
  {
    hide OpenAt, Flushed;
    WrittenBytes(m, d, d', y);
    FileBytes(OpenAt(m, y), d, d');
  }

  // The sectors of a file hold its contents.
  ghost predicate OnDisk(o: Open, d: seq<byte>, d': seq<byte>)
    requires OpenOk(o, d)
  {
    && |d'| == DISK_SIZE && 256 * o.f.start + o.f.extent <= DISK_SIZE
    && d'[256 * o.f.start..256 * o.f.start + o.f.extent] == Contents(o, d)
  }

  lemma FileBytes(o: Open, d: seq<byte>, d': seq<byte>)
    requires OpenOk(o, d) && Written(o, d, d')
    ensures OnDisk(o, d, d')
  {
    var at := 256 * o.f.start;
    var s, t := d'[at..at + o.f.extent], Contents(o, d);
    forall i | 0 <= i < |t|
      ensures s[i] == t[i]
    {
      assert d'[256 * o.f.start + i] == ByteAt(o, d, i);
    }
  }

  // The entry of a file on the disk.
  ghost predicate EntryIs(m: seq<byte>, d: seq<byte>, cat: seq<Entry>, k: nat, o: Open) {
    && |m| == MEMORY_SIZE && |d| == DISK_SIZE && IsCatalogue(WithPages(m, d))
    && cat == CatalogueOf(WithPages(m, d)) && k < |cat| && Start(cat[k]) == o.f.start
  }

  // Closing: the catalogue on the disk has the file's length, and its sectors the contents.
  method CloseFile(mem: array<byte>, disk: array<byte>, x: byte, y: byte, ghost k: nat, ghost cat: seq<Entry>)
    requires mem.Length == MEMORY_SIZE && disk.Length == DISK_SIZE && mem != disk && IsOpen(mem[..], disk[..], y)
    requires EntryIs(mem[..], disk[..], cat, k, OpenAt(mem[..], y)) && x == 8 * k
    requires Recorded(mem[..], y, cat[k])
    modifies mem, disk
    ensures OnDisk(old(OpenAt(mem[..], y)), old(disk[..]), disk[..])
    ensures OnlyWithin(old(disk[..]), disk[..], old(OpenAt(mem[..], y).f.start), old(OpenAt(mem[..],
      y).f.start + OpenAt(mem[..], y).owned))
    ensures IsCatalogue(WithPages(mem[..], disk[..]))
    ensures var list, n := CatalogueOf(WithPages(mem[..], disk[..])), old(OpenAt(mem[..], y).f.extent);
      && |list| == |cat| && Length(list[k]) == n && Start(list[k]) == Start(cat[k]) && list[k].name == cat[k].name
      && forall j :: 0 <= j < |cat| && j != k ==> list[j] == cat[j]
  {
    hide OpenAt, OpenOk, Flushed, BufferWithin, Rewritten, Recorded, OnDisk, WithPages, CatalogueOf, Start, Length,
      Touched;
    hide DiskSize, OnlyWithin;
    ghost var m, d := mem[..], disk[..];
    ghost var size := DiskSize(WithPages(m, d));
    OpenWithin(m, d, y);
    Close(mem, disk, x, y, k, cat, size);
    FlushedContents(m, d, disk[..], y);
    OthersKept(m, d, disk[..], y, OpenAt(m, y).f.start, OpenAt(m, y).f.start + OpenAt(m, y).owned);
    if Touched(m[FLAGS + y]) {
      ClosedEntry(m, d, mem[..], disk[..], cat, size, k, y);
    } else {
      UntouchedEntry(m, mem[..], d, cat, k, y);
    }
  }

  lemma ClosedEntry(m: seq<byte>, d: seq<byte>, m': seq<byte>, d': seq<byte>, cat: seq<Entry>, size: nat, k: nat,
    y: byte)
    requires IsOpen(m, d, y) && IsListing(cat) && k < |cat| && Rewritten(m, m', d', cat, size, k, y)
    requires Recorded(m, y, cat[k])
    ensures |m'| == MEMORY_SIZE && |d'| == DISK_SIZE && IsCatalogue(WithPages(m', d'))
    ensures var list, n := CatalogueOf(WithPages(m', d')), OpenAt(m, y).f.extent;
      && |list| == |cat| && Length(list[k]) == n && Start(list[k]) == Start(cat[k]) && list[k].name == cat[k].name
      && forall j :: 0 <= j < |cat| && j != k ==> list[j] == cat[j]
  {
    hide OpenAt, OpenOk, WithPages, CatalogueOf, Start, Length, WithLength, DiskSize, Filled, Long;
    SamePagesRead(m', WithPages(m', d'), d');
    ExtentBytes(m, d, y);
  }

  lemma ExtentBytes(m: seq<byte>, d: seq<byte>, y: byte)
    requires IsOpen(m, d, y)
    ensures m[EXTENT + 2 + y] < 4
    ensures OpenAt(m, y).f.extent == Long(m[EXTENT + y], m[EXTENT + 1 + y], m[EXTENT + 2 + y])
  {
  }

  lemma UntouchedEntry(m: seq<byte>, m': seq<byte>, d: seq<byte>, cat: seq<Entry>, k: nat, y: byte)
    requires IsOpen(m, d, y) && EntryIs(m, d, cat, k, OpenAt(m, y)) && Recorded(m, y, cat[k]) && |m'| == MEMORY_SIZE
    requires !Touched(m[FLAGS + y])
    ensures IsCatalogue(WithPages(m', d)) && CatalogueOf(WithPages(m', d)) == cat
    ensures Length(cat[k]) == OpenAt(m, y).f.extent
  {
    hide WithPages, CatalogueOf, Start, Length, DiskSize;
    SamePagesOver(m, m', d);
    TouchedBits(m[FLAGS + y]);
    ExtentBytes(m, d, y);
  }

  // PTR is at the end of the sectors the file owns.
  method AtOwnedEnd(mem: array<byte>, y: byte) returns (end: bool)
    requires mem.Length == MEMORY_SIZE && IsOffset(y) && mem[OWNED_ZERO + y] == 0 && mem[BUFFER + y] < 0x80
    ensures end == (OpenAt(mem[..], y).f.ptr == 256 * OpenAt(mem[..], y).owned)
  {
    EndBytes(mem[FILE_PTR + y], mem[FILE_PTR + 1 + y], mem[FILE_PTR + 2 + y], mem[ALLOCATED + y],
      mem[ALLOCATED + 1 + y]);
    end := mem[FILE_PTR + 2 + y] == mem[ALLOCATED + 1 + y] && mem[FILE_PTR + 1 + y] == mem[ALLOCATED + y]
           && mem[FILE_PTR + y] == mem[OWNED_ZERO + y];
  }

  lemma EndBytes(lo: byte, mid: byte, hi: byte, l: byte, h: byte)
    ensures Long(lo, mid, hi) == 256 * Word(l, h) <==> lo == 0 && mid == l && hi == h
  {
    Channels.LowByte(lo, mid, hi);
  }

  // The file is the one of entry k, and what it owns is no more than its room.
  ghost predicate IsEntryOf(m: seq<byte>, d: seq<byte>, cat: seq<Entry>, size: nat, k: nat, y: byte) {
    && IsOpen(m, d, y) && m[OWNED_ZERO + y] == 0
    && EntryIs(m, d, cat, k, OpenAt(m, y)) && Recorded(m, y, cat[k])
    && size == DiskSize(WithPages(m, d)) <= DISK_SECTORS && WellFormed(cat, size)
    && Start(cat[k]) <= Top(cat, size, k) && OpenAt(m, y).owned <= Room(cat, size, k)
  }

  // The room has grown, on the disk and in the handle block.
  lemma ExtendedOpen(m: seq<byte>, d: seq<byte>, m': seq<byte>, d': seq<byte>, y: byte, room: nat)
    requires IsOpen(m, d, y) && |m'| == MEMORY_SIZE && |d'| == DISK_SIZE
    requires OpenAt(m, y).owned <= room && OpenAt(m, y).f.start + room <= DISK_SECTORS
    requires Word(m'[ALLOCATED + y], m'[ALLOCATED + 1 + y]) == room
    requires forall i :: 0x1100 + y as int <= i < 0x1120 + y as int || 0x1200 <= i < 0x8000 ==>
      i != ALLOCATED + y && i != ALLOCATED + 1 + y ==> m'[i] == m[i]
    requires forall i :: PAGES_SIZE <= i < DISK_SIZE ==> d'[i] == d[i]
    ensures IsOpen(m', d', y) && OpenAt(m', y) == OpenAt(m, y).(owned := room)
    ensures Contents(OpenAt(m', y), d') == Contents(OpenAt(m, y), d)
  {
    MoreOwned(m, m', y, room);
    hide OpenAt, OpenOk, Contents;
    LargerOk(OpenAt(m, y), d, d', room);
  }

  lemma MoreOwned(m: seq<byte>, m': seq<byte>, y: byte, room: nat)
    requires |m| == |m'| == MEMORY_SIZE && IsOffset(y) && 0x12 <= m[BUFFER + y] < 0x80
    requires Word(m'[ALLOCATED + y], m'[ALLOCATED + 1 + y]) == room
    requires forall i :: 0x1100 + y as int <= i < 0x1120 + y as int || 0x1200 <= i < 0x8000 ==>
      i != ALLOCATED + y && i != ALLOCATED + 1 + y ==> m'[i] == m[i]
    ensures m'[BUFFER + y] == m[BUFFER + y] && OpenAt(m', y) == OpenAt(m, y).(owned := room)
  {
    var page: int := 256 * m[BUFFER + y] as int;
    assert m'[page..page + 256] == m[page..page + 256];
    assert Channels.BlockOf(m', y) == Channels.BlockOf(m, y);
    hide Channels.BlockOf;
  }

  lemma LargerOk(o: Open, d: seq<byte>, d': seq<byte>, room: nat)
    requires OpenOk(o, d) && |d'| == DISK_SIZE && o.owned <= room && o.f.start + room <= DISK_SECTORS
    requires forall i :: PAGES_SIZE <= i < DISK_SIZE ==> d'[i] == d[i]
    ensures OpenOk(o.(owned := room), d') && Contents(o.(owned := room), d') == Contents(o, d)
  {
    hide Current, Dirty;
    var o' := o.(owned := room);
    assert OpenOk(o', d');
    var s, t := Contents(o, d), Contents(o', d');
    assert forall i :: 0 <= i < |t| ==> t[i] == s[i];
  }

  lemma WithinMore(d: seq<byte>, d1: seq<byte>, d2: seq<byte>, lo: nat, mid: nat, hi: nat)
    requires OnlyWithin(d, d1, lo, hi) && OnlyWithin(d1, d2, lo, mid) && mid <= hi
    ensures OnlyWithin(d, d2, lo, hi)
  {
    assert forall i {:trigger d2[i]} :: PAGES_SIZE <= i < DISK_SIZE && !(256 * lo <= i < 256 * hi) ==>
      d2[i] == d1[i] && d1[i] == d[i];
  }

  // A byte has been put into the file it was.
  ghost predicate BytePut(o: Open, d: seq<byte>, o': Open, d': seq<byte>, v: byte) {
    && OpenOk(o, d) && OpenOk(o', d') && o.f.ptr <= o.f.extent
    && Contents(o', d') == PutAt(Contents(o, d), o.f.ptr, v)
    && o'.f.start == o.f.start && o'.f.ptr == o.f.ptr + 1 && o.owned <= o'.owned
    && (Warned(o'.f.flags) <==> Warned(o.f.flags))
  }

  // What BPUT leaves: the byte put, or the file full, closed and on the disk as it was.
  ghost predicate Outcome(o: Open, d: seq<byte>, m': seq<byte>, d': seq<byte>, y: byte, v: byte, ok: bool) {
    && OpenOk(o, d)
    && if ok then IsOpen(m', d', y) && BytePut(o, d, OpenAt(m', y), d', v) else OnDisk(o, d, d')
  }

  // The entry before and after: the same, or with the whole room as its length.
  ghost predicate EntryKept(cat: seq<Entry>, cat': seq<Entry>, size: nat, k: nat)
    requires WellFormed(cat, size) && k < |cat| && Start(cat[k]) <= Top(cat, size, k)
  {
    var room := Room(cat, size, k);
    cat' == cat || (room < 1024 && cat' == cat[k := WithLength(cat[k], 0, room % 256, room / 256)])
  }

  // BPUT, from the point where the file has been found open for writing.
  method Bput(mem: array<byte>, disk: array<byte>, x: byte, y: byte, v: byte,
    ghost k: nat, ghost cat: seq<Entry>, ghost size: nat) returns (ok: bool, ghost cat': seq<Entry>)
    requires mem.Length == MEMORY_SIZE && disk.Length == DISK_SIZE && mem != disk
    requires IsEntryOf(mem[..], disk[..], cat, size, k, y) && x == 8 * k
    modifies mem, disk
    ensures Outcome(old(OpenAt(mem[..], y)), old(disk[..]), mem[..], disk[..], y, v, ok)
    ensures ok <==> old(OpenAt(mem[..], y).f.ptr) < 256 * Room(cat, size, k)
    ensures OnlyWithin(old(disk[..]), disk[..], Start(cat[k]), Top(cat, size, k))
    ensures EntryKept(cat, cat', size, k)
    ensures if ok then IsEntryOf(mem[..], disk[..], cat', size, k, y) else Grown(mem[..], disk[..], cat, size, k)
  {
    hide OpenAt, OpenOk, Flushed, BufferWithin, Recorded, OnDisk, WithPages, CatalogueOf, Start, Length, DiskSize;
    hide OnlyWithin, Grown, WellFormed, Top, Contents, PutAt, AtEnd, OnlyFile, IsEntryOf, WithLength, HasPut, EntryKept;
    ghost var m, d := mem[..], disk[..];
    EntryOpen(m, d, cat, size, k, y);
    ghost var o := OpenAt(m, y);
    EntryFacts(m, d, cat, size, k, y);
    ok, cat' := true, cat;
    var end := AtOwnedEnd(mem, y);
    ghost var m1, d1 := m, d;
    if end {
      ok := BputExtend(mem, disk, x, y, k, cat, size);
      m1, d1 := mem[..], disk[..];
      cat' := GrownEntry(m1, d1, cat, size, k);
      if !ok {
        FlushedContents(m, d, d1, y);
        return;
      }
      ExtendedOpen(m, d, m1, d1, y, Room(cat, size, k));
      ExtendedEntry(m, d, m1, d1, cat, cat', size, k, y);
    } else {
      NothingWithin(d, Start(cat[k]), Top(cat, size, k));
      Unextended(m, d, cat, size, k, y);
    }
    PutByte(mem, disk, y, v);
    PutOutcome(o, d, OpenAt(m1, y), d1, OpenAt(mem[..], y), disk[..], v);
    StillEntry(m1, d1, mem[..], disk[..], cat', size, k, y, v);
    OnlyFileWithin(OpenAt(m1, y), d1, disk[..]);
    WithinMore(d, d1, disk[..], Start(cat[k]), Start(cat[k]) + OpenAt(m1, y).owned, Top(cat, size, k));
  }

  lemma EntryOpen(m: seq<byte>, d: seq<byte>, cat: seq<Entry>, size: nat, k: nat, y: byte)
    requires IsEntryOf(m, d, cat, size, k, y)
    ensures IsOpen(m, d, y) && OpenOk(OpenAt(m, y), d) && m[OWNED_ZERO + y] == 0
    ensures IsCatalogue(WithPages(m, d)) && cat == CatalogueOf(WithPages(m, d)) && size == DiskSize(WithPages(m, d))
    ensures k < |cat| && WellFormed(cat, size) && Recorded(m, y, cat[k]) && Start(cat[k]) <= Top(cat, size, k)
    ensures BufferWithin(m, y, FIRST_SECTOR, DISK_SECTORS) && EntryKept(cat, cat, size, k)
  {
    OpenWithin(m, d, y);
  }

  // All that a put leaves of what is known of the file and its entry, but the length.
  ghost predicate NearEntry(m: seq<byte>, d: seq<byte>, cat: seq<Entry>, size: nat, k: nat, y: byte) {
    && IsOpen(m, d, y) && m[OWNED_ZERO + y] == 0
    && EntryIs(m, d, cat, k, OpenAt(m, y))
    && size == DiskSize(WithPages(m, d)) <= DISK_SECTORS && WellFormed(cat, size)
    && Start(cat[k]) <= Top(cat, size, k) && OpenAt(m, y).owned <= Room(cat, size, k)
    && var f := OpenAt(m, y).f;
    !Longer(f.flags) && f.ptr + 1 < f.extent ==> f.extent == Length(cat[k])
  }

  lemma Unextended(m: seq<byte>, d: seq<byte>, cat: seq<Entry>, size: nat, k: nat, y: byte)
    requires IsEntryOf(m, d, cat, size, k, y)
    ensures NearEntry(m, d, cat, size, k, y)
  {
    ExtentBytes(m, d, y);
    FlagsOf(m, y);
    hide OpenAt, OpenOk, WithPages, CatalogueOf, Start, Length, WellFormed, Long;
  }

  lemma GrownEntry(m: seq<byte>, d: seq<byte>, cat: seq<Entry>, size: nat, k: nat) returns (cat': seq<Entry>)
    requires Grown(m, d, cat, size, k)
    ensures IsCatalogue(m) && cat' == CatalogueOf(m) && EntryKept(cat, cat', size, k) && IsListing(cat')
    ensures WellFormed(cat', size) && |cat'| == |cat| && Start(cat'[k]) == Start(cat[k])
    ensures Top(cat', size, k) == Top(cat, size, k)
  {
    GrownKeeps(m, d, cat, size, k);
    hide CatalogueOf, Start, Length, WellFormed, PagesOnDisk, DiskSize;
    cat' := CatalogueOf(m);
  }

  lemma ExtendedEntry(m: seq<byte>, d: seq<byte>, m1: seq<byte>, d1: seq<byte>, cat: seq<Entry>, cat': seq<Entry>,
    size: nat, k: nat, y: byte)
    requires IsEntryOf(m, d, cat, size, k, y) && Grown(m1, d1, cat, size, k) && IsOpen(m1, d1, y)
    requires IsCatalogue(m1) && cat' == CatalogueOf(m1) && WellFormed(cat', size) && |cat'| == |cat|
    requires Start(cat'[k]) == Start(cat[k]) && Top(cat', size, k) == Top(cat, size, k)
    requires OpenAt(m1, y) == OpenAt(m, y).(owned := Room(cat, size, k))
    requires OpenAt(m, y).f.ptr == 256 * OpenAt(m, y).owned
    ensures NearEntry(m1, d1, cat', size, k, y)
  {
    Bounds(m, d, y);
    SamePagesRead(m1, WithPages(m1, d1), d1);
    ZeroKept(m, m1, y);
    hide OpenAt, OpenOk, WithPages, CatalogueOf, Start, Length, WellFormed, DiskSize, PagesOnDisk, WithLength, Recorded;
  }

  lemma ZeroKept(m: seq<byte>, m': seq<byte>, y: byte)
    requires |m| == |m'| == MEMORY_SIZE && IsOffset(y) && m[BUFFER + y] < 0x80 && m'[BUFFER + y] < 0x80
    ensures OpenAt(m', y).zero == OpenAt(m, y).zero <==> m'[OWNED_ZERO + y] == m[OWNED_ZERO + y]
    ensures OpenAt(m, y).zero == m[OWNED_ZERO + y]
  {
  }

  lemma PutOutcome(o: Open, d: seq<byte>, o1: Open, d1: seq<byte>, o': Open, d': seq<byte>, v: byte)
    requires OpenOk(o, d) && OpenOk(o1, d1) && Contents(o1, d1) == Contents(o, d) && o1 == o.(owned := o1.owned)
    requires o.owned <= o1.owned && HasPut(o1, d1, o', d', v)
    ensures BytePut(o, d, o', d', v)
  {
    hide Contents, PutAt;
  }

  lemma StillEntry(m: seq<byte>, d: seq<byte>, m': seq<byte>, d': seq<byte>, cat: seq<Entry>, size: nat, k: nat,
    y: byte, v: byte)
    requires NearEntry(m, d, cat, size, k, y) && IsOpen(m', d', y)
    requires HasPut(OpenAt(m, y), d, OpenAt(m', y), d', v) && OnlyFile(OpenAt(m, y), d, d')
    ensures IsEntryOf(m', d', cat, size, k, y)
  {
    EntryAfter(m, d, m', d', cat, k, y);
    ZeroKept(m, m', y);
    StillRecorded(m, d, m', d', cat[k], y, v);
    hide OpenAt, OpenOk, WithPages, CatalogueOf, Start, Length, WellFormed, DiskSize, Contents, PutAt, Longer, Room;
    hide Top, OnlyFile, Recorded;
  }

  // A file that has not grown has the length of its entry.
  lemma StillRecorded(m: seq<byte>, d: seq<byte>, m': seq<byte>, d': seq<byte>, e: Entry, y: byte, v: byte)
    requires IsOpen(m, d, y) && IsOpen(m', d', y) && IsEntry(e) && HasPut(OpenAt(m, y), d, OpenAt(m', y), d', v)
    requires var f := OpenAt(m, y).f;
      !Longer(f.flags) && f.ptr + 1 < f.extent ==> f.extent == Length(e)
    ensures Recorded(m', y, e)
  {
    FlagsOf(m', y);
    ExtentBytes(m', d', y);
    hide OpenAt, OpenOk, Length, Contents, PutAt, Long, Longer;
  }

  lemma EntryAfter(m: seq<byte>, d: seq<byte>, m': seq<byte>, d': seq<byte>, cat: seq<Entry>, k: nat, y: byte)
    requires IsOpen(m, d, y) && IsOpen(m', d', y) && OpenAt(m', y).f.start == OpenAt(m, y).f.start
    requires EntryIs(m, d, cat, k, OpenAt(m, y)) && OnlyFile(OpenAt(m, y), d, d')
    ensures EntryIs(m', d', cat, k, OpenAt(m', y)) && DiskSize(WithPages(m', d')) == DiskSize(WithPages(m, d))
  {
    hide OpenAt, OpenOk, WithPages, CatalogueOf, Start, DiskSize, OnlyWithin;
    SamePagesOf(m, d, m', d');
  }

  lemma SamePagesOf(m: seq<byte>, d: seq<byte>, m': seq<byte>, d': seq<byte>)
    requires |m| == |m'| == MEMORY_SIZE && |d| == |d'| == DISK_SIZE && IsCatalogue(WithPages(m, d))
    requires forall i :: 0 <= i < PAGES_SIZE ==> d'[i] == d[i]
    ensures var (r, r') := (WithPages(m, d), WithPages(m', d'));
      IsCatalogue(r') && CatalogueOf(r') == CatalogueOf(r) && DiskSize(r') == DiskSize(r)
  {
    assert PagesOnDisk(WithPages(m', d'), d);
    SamePagesRead(WithPages(m, d), WithPages(m', d'), d);
  }

  lemma NothingWithin(d: seq<byte>, lo: nat, hi: nat)
    requires |d| == DISK_SIZE
    ensures OnlyWithin(d, d, lo, hi)
  {
  }

  lemma OnlyFileWithin(o: Open, d: seq<byte>, d': seq<byte>)
    requires OnlyFile(o, d, d')
    ensures OnlyWithin(d, d', o.f.start, o.f.start + o.owned)
  {
  }

  lemma EntryFacts(m: seq<byte>, d: seq<byte>, cat: seq<Entry>, size: nat, k: nat, y: byte)
    requires IsEntryOf(m, d, cat, size, k, y)
    ensures var o := OpenAt(m, y);
      && o.f.ptr <= 256 * o.owned && o.f.start == Start(cat[k]) && o.f.start + Room(cat, size, k) <= DISK_SECTORS
      && o.owned <= Room(cat, size, k) && o.f.start + Room(cat, size, k) == Top(cat, size, k)
      && o.owned == Word(m[ALLOCATED + y], m[ALLOCATED + 1 + y])
      && (o.f.ptr == 256 * o.owned ==> AtEnd(m, y))
      && BufferWithin(m, y, Start(cat[k]), Top(cat, size, k))
  {
    Bounds(m, d, y);
    OpenWithin(m, d, y);
    TopOnDisk(cat, size, k);
    hide OpenAt, OpenOk, WithPages, CatalogueOf, Start, Length, DiskSize, WellFormed, BufferSector, Recorded;
  }

  lemma Bounds(m: seq<byte>, d: seq<byte>, y: byte)
    requires IsOpen(m, d, y)
    ensures var o := OpenAt(m, y);
      && o.f.ptr <= o.f.extent <= 256 * o.owned && o.owned == Word(m[ALLOCATED + y], m[ALLOCATED + 1 + y])
      && (o.f.ptr == 256 * o.owned ==> AtEnd(m, y))
  {
  }

  lemma TopOnDisk(cat: seq<Entry>, size: nat, k: nat)
    requires WellFormed(cat, size) && k < |cat|
    ensures Top(cat, size, k) <= size
  {
    WellFormedMeans(cat, size);
  }
}
