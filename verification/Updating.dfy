// A file open for reading and writing is an array of bytes with a pointer: BGET, BPUT and
// PTR# in any order, and what is on the disk when it is closed.

module Updating {
  import opened Bytes
  import opened Layout
  import opened Flags
  import opened Catalogue
  import opened CatalogueEdit
  import opened Device
  import opened Extension
  import opened Writing
  import Channels

  // ---- The file as its user sees it ----

  datatype Plain = Plain(bytes: seq<byte>, ptr: nat, warned: bool)

  datatype Op = Get | Put(value: byte) | Seek(to: nat)

  datatype Reply =
    | Byte(value: byte)
    | EndOfFile              // $fe with carry set
    | EofError
    | Full                   // "Can't extend"; the file is closed
    | Done

  function Zeros(n: nat): seq<byte> { seq(n, _ => 0) }

  function Step(p: Plain, room: nat, op: Op): (r: (Plain, Reply))
    requires p.ptr <= |p.bytes| <= room
    ensures r.0.ptr <= |r.0.bytes| <= room
  {
    match op
    case Get =>
      if p.ptr < |p.bytes| then (p.(ptr := p.ptr + 1), Byte(p.bytes[p.ptr]))
      else if p.warned then (p, EofError)
      else (p.(warned := true), EndOfFile)
    case Put(v) =>
      if p.ptr == room then (p, Full) else (p.(bytes := PutAt(p.bytes, p.ptr, v), ptr := p.ptr + 1), Done)
    case Seek(to) =>
      if to <= |p.bytes| then (p.(ptr := to, warned := false), Done)
      else if to <= room then (Plain(p.bytes + Zeros(to - |p.bytes|), to, false), Done)
      else (Plain(p.bytes + Zeros(room - |p.bytes|), room, p.warned), Full)
  }

  // A run ends when the file is full.
  function Run(p: Plain, room: nat, ops: seq<Op>): (r: (Plain, seq<Reply>))
    requires p.ptr <= |p.bytes| <= room
    ensures r.0.ptr <= |r.0.bytes| <= room && |r.1| <= |ops|
    decreases |ops|
  {
    if ops == [] then (p, [])
    else
      var (next, out) := Step(p, room, ops[0]);
      if out == Full then (next, [Full])
      else
        var (after, outs) := Run(next, room, ops[1..]);
        (after, [out] + outs)
  }

  // Every seek beyond the end of the file starts in the sector where it ends.
  predicate Careful(p: Plain, room: nat, ops: seq<Op>)
    requires p.ptr <= |p.bytes| <= room
    decreases |ops|
  {
    ops == [] || (
      && (ops[0].Seek? && ops[0].to > |p.bytes| ==> p.ptr / 256 == |p.bytes| / 256)
      && var (next, out) := Step(p, room, ops[0]);
      out != Full ==> Careful(next, room, ops[1..]))
  }

  ghost function View(o: Open, d: seq<byte>): (p: Plain)
    requires OpenOk(o, d)
    ensures p.ptr <= |p.bytes| <= 256 * o.owned
  {
    Plain(Contents(o, d), o.f.ptr, Warned(o.f.flags))
  }

  // ---- Moving PTR ----

  function Moved(o: Open, p: nat): Open { o.(f := o.f.(ptr := p)) }

  // A current buffer is the sector where the file ends.
  ghost predicate Fresh(o: Open) { Current(o.f.flags) ==> o.f.recorded == o.f.start + o.f.extent / 256 }

  // A seek beyond EXT begins by setting PTR to EXT and leaves bit 7 as it is. What is known
  // of the file then still holds if and only if the buffer is not current, or is EXT's sector.
  lemma AtEndOk(o: Open, d: seq<byte>)
    requires OpenOk(o, d)
    ensures OpenOk(Moved(o, o.f.extent), d) <==> Fresh(o)
    ensures o.f.ptr / 256 == o.f.extent / 256 ==> Fresh(o)
  {
    hide Current, Dirty, Filled;
    FilledAs(o, Moved(o, o.f.extent), d);
  }

  // It can be another: 300 bytes with PTR 10, after a BGET.
  lemma StaleFile(d: seq<byte>)
    requires |d| == DISK_SIZE
    ensures var o := Open(Channels.Block(2, 300, 10, 0x12, 0x80, 2, false), 2, 0, d[512..768]);
      OpenOk(o, d) && !Fresh(o)
  {
  }

  // Then the first zero of the padding destroys a byte of the file, in the sector that
  // is in the buffer, and the byte at its end is what the disk held there.
  lemma StaleLoses(o: Open, d: seq<byte>, o': Open)
    requires OpenOk(o, d) && !Fresh(o) && o.f.extent < 256 * o.owned && IsPut(Moved(o, o.f.extent), o', 0)
    ensures var lost := 256 * (o.f.ptr / 256) + o.f.extent % 256;
      && lost < o.f.extent && ByteAt(o', d, lost) == 0
      && o'.f.extent == o.f.extent + 1 && ByteAt(o', d, o.f.extent) == d[256 * o.f.start + o.f.extent]
  {
    hide Current, Dirty, Filled;
    assert o.f.ptr == 256 * (o.f.ptr / 256) + o.f.ptr % 256;
    assert o.f.extent == 256 * (o.f.extent / 256) + o.f.extent % 256;
  }

  // The new PTR, and the buffer current if it holds its sector.
  ghost predicate Sought(o: Open, o': Open, p: nat) {
    && o' == Moved(o, p).(f := Moved(o, p).f.(flags := o'.f.flags))
    && (Current(o'.f.flags) <==> Place(o') == o.f.recorded) && !Warned(o'.f.flags)
    && (Dirty(o'.f.flags) <==> Dirty(o.f.flags)) && (Longer(o'.f.flags) <==> Longer(o.f.flags))
  }

  lemma SoughtOk(o: Open, d: seq<byte>, o': Open, p: nat)
    requires OpenOk(o, d) && p <= o.f.extent && Sought(o, o', p)
    ensures OpenOk(o', d) && View(o', d) == Plain(Contents(o, d), p, false)
  {
    hide Current, Dirty, Longer, Filled;
    assert o'.buffer == o.buffer && o'.f.recorded == o.f.recorded;
    FilledAs(o, o', d);
    assert OpenOk(o', d);
    var s, t := Contents(o, d), Contents(o', d);
    assert forall i :: 0 <= i < |t| ==> t[i] == s[i];
  }

  lemma FilledAs(o: Open, o': Open, d: seq<byte>)
    requires |d| == DISK_SIZE && |o.buffer| == 256
    requires o'.buffer == o.buffer && o'.f.recorded == o.f.recorded && o'.f.start == o.f.start
    requires o'.f.extent == o.f.extent
    ensures Filled(o', d) == Filled(o, d)
  {
  }

  // The stores at $92c3, and those of mmc_set_ptr_to_ext.
  method MovePointer(mem: array<byte>, y: byte, t0: byte, t1: byte, t2: byte)
    requires mem.Length == MEMORY_SIZE && IsOffset(y) && 0x12 <= mem[BUFFER + y] < 0x80
    modifies mem
    ensures mem[BUFFER + y] == old(mem[BUFFER + y])
    ensures OpenAt(mem[..], y) == Moved(old(OpenAt(mem[..], y)), Long(t0, t1, t2))
    ensures forall i :: 0 <= i < MEMORY_SIZE && !(FILE_PTR + y <= i <= FILE_PTR + 2 + y) ==> mem[i] == old(mem[i])
  {
    hide Channels.BlockOf;
    ghost var m := mem[..];
    Channels.StorePointer(mem, y, t0, t1, t2);
    SameRest(m, mem[..], y);
  }

  // Whatever has been done to the block's first half, the rest is as it was.
  lemma SameRest(m: seq<byte>, m': seq<byte>, y: byte)
    requires |m| == |m'| == MEMORY_SIZE && IsOffset(y) && 0x12 <= m[BUFFER + y] < 0x80
    requires m'[BUFFER + y] == m[BUFFER + y]
    requires forall i :: 0x1118 + y as int <= i < 0x1120 + y as int || 0x1200 <= i < 0x8000 ==> m'[i] == m[i]
    ensures OpenAt(m', y) == OpenAt(m, y).(f := Channels.BlockOf(m', y))
  {
    hide Channels.BlockOf;
    var page: int := 256 * m[BUFFER + y] as int;
    assert m'[page..page + 256] == m[page..page + 256];
  }

  // $92cf on: the flags after a seek.
  method Recheck(mem: array<byte>, y: byte, ghost o: Open, ghost d: seq<byte>, ghost p: nat)
    requires mem.Length == MEMORY_SIZE && IsOffset(y) && 0x12 <= mem[BUFFER + y] < 0x80
    requires OpenOk(o, d) && p <= o.f.extent && OpenAt(mem[..], y) == Moved(o, p)
    modifies mem
    ensures mem[BUFFER + y] == old(mem[BUFFER + y]) && Sought(o, OpenAt(mem[..], y), p)
    ensures forall i :: 0 <= i < MEMORY_SIZE && i != FLAGS + y && i != Channels.SECTOR_TEMP ==> mem[i] == old(mem[i])
  {
    hide Channels.BlockOf, OrBit7, AndNotBits74, OpenAt, Sought;
    ghost var m := mem[..];
    FlagsOf(m, y);
    PlaceBound(o, d, p);
    Channels.Revalidate(mem, y);
    SameRest(m, mem[..], y);
    SoughtFlags(o.f.flags);
    SoughtState(o, OpenAt(mem[..], y), p);
  }

  lemma PlaceBound(o: Open, d: seq<byte>, p: nat)
    requires OpenOk(o, d) && p <= o.f.extent
    ensures Channels.SectorOf(Moved(o, p).f) == Place(Moved(o, p)) < 0x10000
  {
  }

  lemma SoughtFlags(v: byte)
    ensures var w := AndNotBits74(v);
      && !Current(w) && !Warned(w) && (Dirty(w) <==> Dirty(v)) && (Longer(w) <==> Longer(v))
      && Current(OrBit7(w)) && !Warned(OrBit7(w)) && (Dirty(OrBit7(w)) <==> Dirty(v))
      && (Longer(OrBit7(w)) <==> Longer(v))
  {
    var w := AndNotBits74(v);
    LoadedFlags(w);
    LongerKept(v);
    hide OrBit7, Longer, AndNotBits74;
  }

  lemma LongerKept(v: byte)
    ensures Longer(AndNotBits74(v)) <==> Longer(v)
  {
    var w := AndNotBit7(v);
    Unset7(v);
    hide AndNotBit7;
    assert Warned(w) ==> w == 32 * (w / 32) + 16 + w % 16;
  }

  lemma Unset7(v: byte)
    ensures Longer(AndNotBit7(v)) <==> Longer(v)
  {
    assert (v - 128) / 32 == v / 32 - 4;
  }

  lemma SoughtState(o: Open, o': Open, p: nat)
    requires var k := Moved(o, p).f;
      var w := AndNotBits74(o.f.flags);
      o' == Moved(o, p).(f := k.(flags := if Channels.SectorOf(k) == k.recorded then OrBit7(w) else w))
    ensures Sought(o, o', p)
  {
    SoughtFlags(o.f.flags);
    hide OrBit7, AndNotBits74, Current, Dirty, Longer, Warned;
  }

  // ---- BGET ----

  // $90e0: unless the buffer is PTR's sector it is emptied and the sector loaded.
  method LoadCurrent(mem: array<byte>, disk: array<byte>, y: byte)
    requires mem.Length == MEMORY_SIZE && disk.Length == DISK_SIZE && mem != disk && IsOpen(mem[..], disk[..], y)
    requires OpenAt(mem[..], y).f.ptr < OpenAt(mem[..], y).f.extent
    modifies mem, disk
    ensures mem[BUFFER + y] == old(mem[BUFFER + y]) && IsOpen(mem[..], disk[..], y) && Current(mem[FLAGS + y])
    ensures SameUse(old(OpenAt(mem[..], y)), old(disk[..]), OpenAt(mem[..], y), disk[..])
    ensures IsFramed(old(mem[..]), mem[..], y) && OnlyFile(old(OpenAt(mem[..], y)), old(disk[..]), disk[..])
  {
    hide OpenOk, OpenAt, Written, Current, Dirty, Longer, Warned, Contents, OnlyFile, AndNotBit6, Filled, Noted;
    ghost var m, d := mem[..], disk[..];
    ghost var o := OpenAt(m, y);
    FlagsOf(m, y);
    if Current(mem[FLAGS + y]) {
      NothingChanged(m, d, y);
    } else {
      InOwned(o, d);
      Empty(mem, disk, y);
      EmptiedKeeps(o, d, disk[..]);
      EmptiedFlags(o);
      ghost var e := Emptied(o);
      FilledThere(e, disk[..]);
      NotNow(e, disk[..]);
      NotedKeeps(e, disk[..], disk[256 * Place(e)..256 * Place(e) + 256]);
      NotedFlags(e);
      Fill(mem, disk, y);
      FlagsOf(mem[..], y);
    }
  }

  lemma InOwned(o: Open, d: seq<byte>)
    requires OpenOk(o, d) && o.f.ptr < o.f.extent
    ensures o.f.ptr < 256 * o.owned
  {
  }

  // The file as it was, with the byte at PTR or the end reported.
  ghost predicate HasGot(o: Open, d: seq<byte>, o': Open, d': seq<byte>, r: Reply) {
    && OpenOk(o, d) && OpenOk(o', d') && StaysFile(o, o')
    && (View(o', d'), r) == Step(View(o, d), 256 * o.owned, Get)
  }

  ghost predicate StaysFile(o: Open, o': Open) {
    && o'.f.start == o.f.start && o'.f.extent == o.f.extent && o'.owned == o.owned && o'.zero == o.zero
    && (Longer(o'.f.flags) <==> Longer(o.f.flags))
  }

  // The buffer has the byte at PTR.
  lemma CurrentByte(o: Open, d: seq<byte>)
    requires OpenOk(o, d) && Current(o.f.flags) && o.f.ptr < o.f.extent
    ensures o.buffer[o.f.ptr % 256] == Contents(o, d)[o.f.ptr]
  {
    hide Current, Dirty;
    var i := o.f.ptr % 256;
    assert o.f.ptr == 256 * (o.f.ptr / 256) + i && 256 * o.f.recorded + i == 256 * o.f.start + o.f.ptr;
    assert ByteAt(o, d, o.f.ptr) == o.buffer[i];
  }

  ghost predicate PointerOn(o: Open, o': Open) {
    && o' == Moved(o, o.f.ptr + 1).(f := Moved(o, o.f.ptr + 1).f.(flags := o'.f.flags))
    && o'.f.flags == if (o.f.ptr + 1) % 256 == 0 then AndNotBit7(o.f.flags) else o.f.flags
  }

  lemma GotKeeps(o: Open, d: seq<byte>, o': Open)
    requires OpenOk(o, d) && o.f.ptr < o.f.extent && PointerOn(o, o')
    ensures OpenOk(o', d) && StaysFile(o, o')
    ensures View(o', d) == Plain(Contents(o, d), o.f.ptr + 1, Warned(o.f.flags))
  {
    StoredFlags(o.f.flags);
    hide AndNotBit7, Current, Dirty, Longer, Warned, Filled;
    Channels.NextPage(o.f.ptr);
    FilledAs(o, o', d);
    assert OpenOk(o', d);
    var s, t := Contents(o, d), Contents(o', d);
    assert forall i :: 0 <= i < |t| ==> t[i] == s[i];
  }

  // $90ef: the byte at PTR, and PTR on.
  method FetchOn(mem: array<byte>, y: byte, ghost d: seq<byte>) returns (a: byte)
    requires mem.Length == MEMORY_SIZE && IsOpen(mem[..], d, y) && Current(mem[FLAGS + y])
    requires OpenAt(mem[..], y).f.ptr < OpenAt(mem[..], y).f.extent
    modifies mem
    ensures mem[BUFFER + y] == old(mem[BUFFER + y]) && PointerOn(old(OpenAt(mem[..], y)), OpenAt(mem[..], y))
    ensures a == old(Contents(OpenAt(mem[..], y), d)[OpenAt(mem[..], y).f.ptr])
    ensures IsFramed(old(mem[..]), mem[..], y)
  {
    hide OpenAt, OpenOk, Contents, Current, AndNotBit7, Long, Channels.BlockOf, PointerOn;
    ghost var m := mem[..];
    PointerBytes(m, d, y);
    CurrentByte(OpenAt(m, y), d);
    a := Channels.FetchByte(mem, y);
    ghost var m1 := mem[..];
    Unmoved(m, m1, y);
    Channels.AdvancePointer(mem, y);
    PointedOn(m1, mem[..], y);
  }

  lemma Unmoved(m: seq<byte>, m': seq<byte>, y: byte)
    requires |m| == |m'| == MEMORY_SIZE && IsOffset(y) && 0x12 <= m[BUFFER + y] < 0x80
    requires forall i :: 0x100 <= i < MEMORY_SIZE ==> m'[i] == m[i]
    ensures m'[BUFFER + y] == m[BUFFER + y] && OpenAt(m', y) == OpenAt(m, y)
  {
    hide Channels.BlockOf, OpenAt;
    SameRest(m, m', y);
    SameBlock(m, m', y);
    FlagsOf(m, y);
  }

  lemma PointedOn(m: seq<byte>, m': seq<byte>, y: byte)
    requires |m| == |m'| == MEMORY_SIZE && IsOffset(y) && 0x12 <= m[BUFFER + y] < 0x80
    requires Long(m'[FILE_PTR + y], m'[FILE_PTR + 1 + y], m'[FILE_PTR + 2 + y])
      == Long(m[FILE_PTR + y], m[FILE_PTR + 1 + y], m[FILE_PTR + 2 + y]) + 1
    requires m'[FLAGS + y] == if m'[FILE_PTR + y] == 0 then AndNotBit7(m[FLAGS + y]) else m[FLAGS + y]
    requires forall i :: 0 <= i < MEMORY_SIZE && !(FILE_PTR + y <= i <= FILE_PTR + 2 + y) && i != FLAGS + y ==>
      m'[i] == m[i]
    ensures m'[BUFFER + y] == m[BUFFER + y] && PointerOn(OpenAt(m, y), OpenAt(m', y))
  {
    hide Channels.BlockOf, OpenAt, AndNotBit7, Long;
    Advanced(m, m', y);
    FlagsOf(m, y);
  }

  lemma PointerBytes(m: seq<byte>, d: seq<byte>, y: byte)
    requires IsOpen(m, d, y)
    ensures var o := OpenAt(m, y);
      && |o.buffer| == 256 && o.f == Channels.BlockOf(m, y) && o.f.flags == m[FLAGS + y]
      && Long(m[FILE_PTR + y], m[FILE_PTR + 1 + y], m[FILE_PTR + 2 + y]) == o.f.ptr < 0x40000
      && m[Word(m[FILE_PTR + y], m[BUFFER + y])] == o.buffer[o.f.ptr % 256]
  {
    Channels.LowByte(m[FILE_PTR + y], m[FILE_PTR + 1 + y], m[FILE_PTR + 2 + y]);
    BufferByte(m, y, m[FILE_PTR + y]);
    FlagsOf(m, y);
    Bounded(OpenAt(m, y), d);
  }

  // BGET, from the point where the handle has been found in use.
  method GetByte(mem: array<byte>, disk: array<byte>, y: byte) returns (r: Reply)
    requires mem.Length == MEMORY_SIZE && disk.Length == DISK_SIZE && mem != disk && IsOpen(mem[..], disk[..], y)
    modifies mem, disk
    ensures mem[BUFFER + y] == old(mem[BUFFER + y]) && IsOpen(mem[..], disk[..], y)
    ensures HasGot(old(OpenAt(mem[..], y)), old(disk[..]), OpenAt(mem[..], y), disk[..], r)
    ensures IsFramed(old(mem[..]), mem[..], y) && OnlyFile(old(OpenAt(mem[..], y)), old(disk[..]), disk[..])
  {
    hide OpenAt, OpenOk, Contents, Current, Longer, Warned, OnlyFile, PointerOn, SameUse, HasGot, Channels.BlockOf;
    ghost var m, d := mem[..], disk[..];
    ghost var o := OpenAt(m, y);
    FlagsOf(m, y);
    NothingChanged(m, d, y);
    SameUsed(o, d, o, d);
    var end := Channels.AtExtent(mem, y);
    if end {
      if Warned(mem[FLAGS + y]) {
        EndGot(o, d, o, EofError);
        return EofError;
      }
      mem[FLAGS + y] := OrBit4(mem[FLAGS + y]);
      SameOpen(m, mem[..], y);
      ReportedOk(o, d);
      EndGot(o, d, OpenAt(mem[..], y), EndOfFile);
      return EndOfFile;
    }
    LoadCurrent(mem, disk, y);
    ghost var o1, d1 := OpenAt(mem[..], y), disk[..];
    SameUsed(o, d, o1, d1);
    var a := FetchOn(mem, y, d1);
    GotKeeps(o1, d1, OpenAt(mem[..], y));
    ByteGot(o, d, o1, d1, OpenAt(mem[..], y), a);
    r := Byte(a);
  }

  lemma EndGot(o: Open, d: seq<byte>, o': Open, r: Reply)
    requires OpenOk(o, d) && OpenOk(o', d) && o.f.ptr == o.f.extent && StaysFile(o, o')
    requires View(o', d) == View(o, d).(warned := true)
    requires r == if Warned(o.f.flags) then EofError else EndOfFile
    ensures HasGot(o, d, o', d, r)
  {
    hide OpenOk, Warned, Longer;
  }

  lemma ByteGot(o: Open, d: seq<byte>, o1: Open, d1: seq<byte>, o': Open, a: byte)
    requires OpenOk(o, d) && OpenOk(o1, d1) && OpenOk(o', d1) && View(o1, d1) == View(o, d) && o.f.ptr < o.f.extent
    requires StaysFile(o, o1) && StaysFile(o1, o') && a == Contents(o1, d1)[o1.f.ptr]
    requires View(o', d1) == Plain(Contents(o1, d1), o1.f.ptr + 1, Warned(o1.f.flags))
    ensures HasGot(o, d, o', d1, Byte(a))
  {
    hide OpenOk, Warned, Longer;
  }

  lemma SameUsed(o: Open, d: seq<byte>, o': Open, d': seq<byte>)
    requires SameUse(o, d, o', d')
    ensures OpenOk(o, d) && OpenOk(o', d') && View(o', d') == View(o, d) && StaysFile(o, o')
    ensures o'.f.ptr == o.f.ptr <= o.f.extent == |Contents(o, d)|
  {
  }

  lemma ReportedOk(o: Open, d: seq<byte>)
    requires OpenOk(o, d)
    ensures var o' := o.(f := o.f.(flags := OrBit4(o.f.flags)));
      OpenOk(o', d) && StaysFile(o, o') && View(o', d) == View(o, d).(warned := true)
  {
    var o' := o.(f := o.f.(flags := OrBit4(o.f.flags)));
    ReportedFlags(o.f.flags);
    hide OrBit4, Current, Dirty, Longer, Warned, Filled;
    FilledAs(o, o', d);
    assert OpenOk(o', d);
    var s, t := Contents(o, d), Contents(o', d);
    assert forall i :: 0 <= i < |t| ==> t[i] == s[i];
  }

  lemma ReportedFlags(v: byte)
    ensures Longer(OrBit4(v)) <==> Longer(v)
  {
    assert v == 32 * (v / 32) + 16 * (v / 16 % 2) + v % 16;
    assert !Warned(v) ==> (v + 16) / 32 == v / 32;
  }

  // ---- PTR# ----

  // Two states of one file and its entry; only the entry's length may have become its room.
  ghost predicate SameEntries(cat: seq<Entry>, cat': seq<Entry>, size: nat, k: nat) {
    && WellFormed(cat, size) && WellFormed(cat', size) && IsListing(cat) && IsListing(cat')
    && k < |cat| == |cat'| && Start(cat[k]) <= Top(cat, size, k) && EntryKept(cat, cat', size, k)
    && Start(cat'[k]) == Start(cat[k]) && Top(cat', size, k) == Top(cat, size, k)
  }

  lemma KeptOnce(cat: seq<Entry>, cat': seq<Entry>, size: nat, k: nat)
    requires WellFormed(cat, size) && k < |cat| && Start(cat[k]) <= Top(cat, size, k)
    requires EntryKept(cat, cat', size, k) && WellFormed(cat', size)
    ensures SameEntries(cat, cat', size, k)
  {
    hide WithLength;
  }

  lemma KeptTwice(cat: seq<Entry>, cat1: seq<Entry>, cat2: seq<Entry>, size: nat, k: nat)
    requires SameEntries(cat, cat1, size, k) && SameEntries(cat1, cat2, size, k)
    ensures SameEntries(cat, cat2, size, k)
  {
    hide WellFormed, Top, Start;
    var room := Room(cat, size, k);
    if cat1 != cat && cat2 != cat1 {
      LengthTwice(cat[k], room % 256, room / 256);
    }
  }

  lemma LengthTwice(e: Entry, mid: byte, hi: byte)
    requires IsEntry(e) && hi < 4
    ensures WithLength(WithLength(e, 0, mid, hi), 0, mid, hi) == WithLength(e, 0, mid, hi)
  {
    BitsTwice(e.info[6], hi);
    hide LengthBits;
    var f := WithLength(e, 0, mid, hi);
    assert f.info[4 := 0] == f.info && f.info[5 := mid] == f.info;
  }

  lemma BitsTwice(p: byte, hi: byte)
    requires hi < 4
    ensures LengthBits(LengthBits(p, hi), hi) == LengthBits(p, hi)
  {
    var q := LengthBits(p, hi);
    assert q / 64 == p / 64 && q % 16 == p % 16;
  }

  lemma GrownTwice(m: seq<byte>, d: seq<byte>, cat: seq<Entry>, cat1: seq<Entry>, size: nat, k: nat)
    requires SameEntries(cat, cat1, size, k) && Grown(m, d, cat1, size, k)
    ensures Grown(m, d, cat, size, k)
  {
    hide WellFormed, Top, Start, WithLength, CatalogueOf, PagesOnDisk, DiskSize;
    var room := Room(cat, size, k);
    if cat1 != cat {
      LengthTwice(cat[k], room % 256, room / 256);
    }
  }

  lemma WithinTwice(d: seq<byte>, d1: seq<byte>, d2: seq<byte>, lo: nat, hi: nat)
    requires OnlyWithin(d, d1, lo, hi) && OnlyWithin(d1, d2, lo, hi)
    ensures OnlyWithin(d, d2, lo, hi)
  {
    WithinMore(d, d1, d2, lo, hi, hi);
  }

  // A file's bytes on the disk.
  ghost predicate FileHolds(d: seq<byte>, start: nat, bytes: seq<byte>) {
    256 * start + |bytes| <= |d| && d[256 * start..256 * start + |bytes|] == bytes
  }

  // What an operation leaves: the file open, or full and closed.
  ghost predicate Reached(m: seq<byte>, d: seq<byte>, cat: seq<Entry>, cat': seq<Entry>, size: nat, k: nat, y: byte,
    p: Plain, full: bool)
  {
    && SameEntries(cat, cat', size, k)
    && if full then
         && Grown(m, d, cat, size, k) && FileHolds(d, Start(cat[k]), p.bytes)
         && |p.bytes| == 256 * Room(cat, size, k)
       else IsEntryOf(m, d, cat', size, k, y) && View(OpenAt(m, y), d) == p
  }

  lemma InRoom(m: seq<byte>, d: seq<byte>, cat: seq<Entry>, size: nat, k: nat, y: byte)
    requires IsEntryOf(m, d, cat, size, k, y)
    ensures k < |cat| && SameEntries(cat, cat, size, k) && IsOpen(m, d, y) && OpenOk(OpenAt(m, y), d)
    ensures IsListing(cat) && Start(cat[k]) <= Top(cat, size, k)
    ensures var o := OpenAt(m, y);
      o.f.ptr <= o.f.extent == |Contents(o, d)| <= 256 * o.owned <= 256 * Room(cat, size, k)
    ensures OpenAt(m, y).f.start == Start(cat[k])
  {
    EntryOpen(m, d, cat, size, k, y);
    EntryFacts(m, d, cat, size, k, y);
    KeptOnce(cat, cat, size, k);
    hide OpenAt, WellFormed, Top, Start;
  }

  // Nothing the entry depends on has changed.
  lemma EntryStays(m: seq<byte>, d: seq<byte>, m': seq<byte>, d': seq<byte>, cat: seq<Entry>, size: nat, k: nat,
    y: byte)
    requires IsEntryOf(m, d, cat, size, k, y) && IsOpen(m', d', y) && StaysFile(OpenAt(m, y), OpenAt(m', y))
    requires OnlyFile(OpenAt(m, y), d, d')
    ensures IsEntryOf(m', d', cat, size, k, y)
  {
    EntryAfter(m, d, m', d', cat, k, y);
    ZeroKept(m, m', y);
    RecordStays(m, d, m', d', cat[k], y);
    hide Recorded, OpenAt, OpenOk, WithPages, CatalogueOf, Start, Length, WellFormed, DiskSize, Long, Longer, Room, Top,
      OnlyFile;
  }

  lemma RecordStays(m: seq<byte>, d: seq<byte>, m': seq<byte>, d': seq<byte>, e: Entry, y: byte)
    requires IsOpen(m, d, y) && IsOpen(m', d', y) && StaysFile(OpenAt(m, y), OpenAt(m', y))
    requires IsEntry(e) && Recorded(m, y, e)
    ensures Recorded(m', y, e)
  {
    FlagsOf(m, y);
    FlagsOf(m', y);
    ExtentBytes(m, d, y);
    ExtentBytes(m', d', y);
    hide OpenAt, OpenOk, Length, Long, Longer;
  }

  // EXT has not come to the wanted PTR.
  method Falls(mem: array<byte>, y: byte, t0: byte, t1: byte, t2: byte) returns (short: bool)
    requires mem.Length == MEMORY_SIZE
    ensures short == (Channels.BlockOf(mem[..], y).extent < Long(t0, t1, t2))
  {
    Channels.ExtentReaches(mem[EXTENT + y], mem[EXTENT + 1 + y], mem[EXTENT + 2 + y], t0, t1, t2);
    hide Sbc, Cmp, Long;
    var borrow := Sbc(mem[EXTENT + 2 + y], t2, Sbc(mem[EXTENT + 1 + y], t1, Cmp(mem[EXTENT + y], t0)).1).1;
    short := borrow == 0;
  }

  function Padded(p: Plain, n: nat): Plain
    requires |p.bytes| <= n
  {
    Plain(p.bytes + Zeros(n - |p.bytes|), n, p.warned)
  }

  lemma PadStep(o: Open, d: seq<byte>, o': Open, d': seq<byte>, p: Plain)
    requires BytePut(o, d, o', d', 0) && o.f.ptr == o.f.extent && |p.bytes| <= o.f.extent
    requires View(o, d) == Padded(p, o.f.extent)
    ensures o'.f.ptr == o'.f.extent == o.f.extent + 1 && View(o', d') == Padded(p, o.f.extent + 1)
  {
    hide OpenOk, Warned;
    var n := o.f.extent - |p.bytes|;
    assert Zeros(n + 1) == Zeros(n) + [0];
    assert Contents(o', d') == Contents(o, d) + [0];
  }

  lemma FullFile(o: Open, d: seq<byte>, d': seq<byte>)
    requires OpenOk(o, d) && OnDisk(o, d, d')
    ensures FileHolds(d', o.f.start, View(o, d).bytes)
  {
  }

  lemma SameRoom(cat: seq<Entry>, cat': seq<Entry>, size: nat, k: nat)
    requires SameEntries(cat, cat', size, k)
    ensures Start(cat[k]) <= Top(cat, size, k) && Start(cat'[k]) <= Top(cat', size, k)
    ensures Room(cat', size, k) == Room(cat, size, k) && Start(cat'[k]) == Start(cat[k])
    ensures Top(cat', size, k) == Top(cat, size, k)
  {
    hide WellFormed, EntryKept, Start, Top;
  }

  predicate EndsAt(o: Open, n: nat) { o.f.ptr == o.f.extent == n }

  // One zero of the padding.
  method PadOne(mem: array<byte>, disk: array<byte>, x: byte, y: byte,
    ghost k: nat, ghost cat: seq<Entry>, ghost cat1: seq<Entry>, ghost size: nat, ghost p: Plain)
    returns (ok: bool, ghost cat': seq<Entry>)
    requires mem.Length == MEMORY_SIZE && disk.Length == DISK_SIZE && mem != disk
    requires IsEntryOf(mem[..], disk[..], cat1, size, k, y) && SameEntries(cat, cat1, size, k) && x == 8 * k
    requires OpenAt(mem[..], y).f.ptr == OpenAt(mem[..], y).f.extent >= |p.bytes|
    requires View(OpenAt(mem[..], y), disk[..]) == Padded(p, OpenAt(mem[..], y).f.extent)
    modifies mem, disk
    ensures var end, room := old(OpenAt(mem[..], y).f.extent), 256 * Room(cat, size, k);
      && (ok <==> end < room) && end <= room
      && (ok ==> IsOpen(mem[..], disk[..], y) && EndsAt(OpenAt(mem[..], y), end + 1))
      && Reached(mem[..], disk[..], cat, cat', size, k, y, Padded(p, if ok then end + 1 else room), !ok)
    ensures OnlyWithin(old(disk[..]), disk[..], Start(cat[k]), Top(cat, size, k))
  {
    hide OpenAt, OpenOk, IsEntryOf, SameEntries, OnlyWithin, View, Padded, Contents, Start, Top, Grown, OnDisk;
    hide EntryKept, FileHolds, WellFormed, Room, BytePut;
    ghost var m, d := mem[..], disk[..];
    SameRoom(cat, cat1, size, k);
    InRoom(m, d, cat1, size, k, y);
    EntryOpen(m, d, cat1, size, k, y);
    ghost var o := OpenAt(m, y);
    ok, cat' := Bput(mem, disk, x, y, 0, k, cat1, size);
    if ok {
      PadStep(o, d, OpenAt(mem[..], y), disk[..], p);
      EntryOpen(mem[..], disk[..], cat', size, k, y);
      KeptOnce(cat1, cat', size, k);
      KeptTwice(cat, cat1, cat', size, k);
    } else {
      cat' := cat;
      Reentered(cat, cat1, size, k);
      GrownTwice(mem[..], disk[..], cat, cat1, size, k);
      FullFile(o, d, disk[..]);
      PaddedLength(p, o.f.extent);
    }
  }

  lemma Reentered(cat: seq<Entry>, cat1: seq<Entry>, size: nat, k: nat)
    requires SameEntries(cat, cat1, size, k)
    ensures SameEntries(cat, cat, size, k) && k < |cat| && IsListing(cat) && Start(cat[k]) <= Top(cat, size, k)
  {
    hide WellFormed, Top, Start;
  }

  lemma PaddedLength(p: Plain, n: nat)
    requires |p.bytes| <= n
    ensures |Padded(p, n).bytes| == n
  {
  }

  // BPUT of zeros from EXT on, until EXT is the wanted PTR.
  method PadTo(mem: array<byte>, disk: array<byte>, x: byte, y: byte, t0: byte, t1: byte, t2: byte,
    ghost k: nat, ghost cat: seq<Entry>, ghost size: nat) returns (ok: bool, ghost cat': seq<Entry>)
    requires mem.Length == MEMORY_SIZE && disk.Length == DISK_SIZE && mem != disk
    requires IsEntryOf(mem[..], disk[..], cat, size, k, y) && x == 8 * k
    requires OpenAt(mem[..], y).f.ptr == OpenAt(mem[..], y).f.extent < Long(t0, t1, t2)
    modifies mem, disk
    ensures ok <==> Long(t0, t1, t2) <= 256 * Room(cat, size, k)
    ensures var p, room := old(View(OpenAt(mem[..], y), disk[..])), 256 * Room(cat, size, k);
      && |p.bytes| <= room
      && Reached(mem[..], disk[..], cat, cat', size, k, y, Padded(p, if ok then Long(t0, t1, t2) else room), !ok)
    ensures OnlyWithin(old(disk[..]), disk[..], Start(cat[k]), Top(cat, size, k))
  {
    hide OpenAt, OpenOk, IsEntryOf, SameEntries, OnlyWithin, View, Padded, Contents, Start, Top, Grown, OnDisk, Long;
    hide EntryKept, FileHolds, WellFormed, Room;
    InRoom(mem[..], disk[..], cat, size, k, y);
    ghost var d0, p := disk[..], View(OpenAt(mem[..], y), disk[..]);
    ViewStarts(OpenAt(mem[..], y), disk[..]);
    NothingWithin(d0, Start(cat[k]), Top(cat, size, k));
    ok, cat' := true, cat;
    var short := true;
    ghost var to: int, end: int := Long(t0, t1, t2), OpenAt(mem[..], y).f.extent;
    while short
      invariant IsEntryOf(mem[..], disk[..], cat', size, k, y) && SameEntries(cat, cat', size, k)
      invariant IsOpen(mem[..], disk[..], y) && |p.bytes| <= end <= to && short == (end < to)
      invariant end == OpenAt(mem[..], y).f.extent == OpenAt(mem[..], y).f.ptr
      invariant View(OpenAt(mem[..], y), disk[..]) == Padded(p, end)
      invariant OnlyWithin(d0, disk[..], Start(cat[k]), Top(cat, size, k))
      decreases (to - end) as int
    {
      ghost var d := disk[..];
      ok, cat' := PadOne(mem, disk, x, y, k, cat, cat', size, p);
      WithinTwice(d0, d, disk[..], Start(cat[k]), Top(cat, size, k));
      if !ok {
        return;
      }
      end := end + 1;
      FlagsOf(mem[..], y);
      short := Falls(mem, y, t0, t1, t2);
    }
    InRoom(mem[..], disk[..], cat', size, k, y);
    SameRoom(cat, cat', size, k);
  }

  lemma ViewStarts(o: Open, d: seq<byte>)
    requires OpenOk(o, d)
    ensures |View(o, d).bytes| == o.f.extent
    ensures o.f.ptr == o.f.extent ==> View(o, d) == Padded(View(o, d), o.f.extent)
  {
  }

  // PTR at the end of the file, and the file still as it was.
  lemma AtEndEntry(m: seq<byte>, m': seq<byte>, d: seq<byte>, cat: seq<Entry>, size: nat, k: nat, y: byte)
    requires IsEntryOf(m, d, cat, size, k, y) && Fresh(OpenAt(m, y))
    requires |m'| == MEMORY_SIZE && m'[BUFFER + y] == m[BUFFER + y]
    requires OpenAt(m', y) == Moved(OpenAt(m, y), OpenAt(m, y).f.extent)
    ensures IsEntryOf(m', d, cat, size, k, y) && OpenOk(OpenAt(m', y), d)
    ensures View(OpenAt(m', y), d) == View(OpenAt(m, y), d).(ptr := OpenAt(m, y).f.extent)
  {
    hide OpenAt, OpenOk, IsEntryOf, Fresh, WellFormed, Contents;
    InRoom(m, d, cat, size, k, y);
    var o := OpenAt(m, y);
    AtEndOk(o, d);
    SameContents(o, d, o.f.extent);
    NothingChanged(m, d, y);
    EntryStays(m, d, m', d, cat, size, k, y);
  }

  lemma SameContents(o: Open, d: seq<byte>, p: nat)
    requires OpenOk(o, d) && OpenOk(Moved(o, p), d)
    ensures Contents(Moved(o, p), d) == Contents(o, d)
  {
    hide Current, Dirty, Filled;
    var s, t := Contents(o, d), Contents(Moved(o, p), d);
    assert forall i :: 0 <= i < |t| ==> t[i] == s[i];
  }

  lemma PlainOf(o: Open, d: seq<byte>)
    requires OpenOk(o, d)
    ensures View(o, d) == Plain(Contents(o, d), o.f.ptr, Warned(o.f.flags))
  {
  }

  // The end of PTR#=: the wanted PTR, and the flags; o is the file before it was moved.
  method Settle(mem: array<byte>, disk: array<byte>, y: byte, t0: byte, t1: byte, t2: byte,
    ghost m: seq<byte>, ghost k: nat, ghost cat: seq<Entry>, ghost size: nat)
    requires mem.Length == MEMORY_SIZE && disk.Length == DISK_SIZE && mem != disk
    requires IsEntryOf(m, disk[..], cat, size, k, y) && IsOpen(m, disk[..], y)
    requires mem[BUFFER + y] == m[BUFFER + y]
    requires Long(t0, t1, t2) <= OpenAt(m, y).f.extent
    requires OpenAt(mem[..], y) == Moved(OpenAt(m, y), OpenAt(mem[..], y).f.ptr)
    modifies mem
    ensures IsEntryOf(mem[..], disk[..], cat, size, k, y) && OpenOk(OpenAt(mem[..], y), disk[..])
    ensures View(OpenAt(mem[..], y), disk[..]) == Plain(Contents(OpenAt(m, y), disk[..]), Long(t0, t1, t2), false)
  {
    hide OpenAt, OpenOk, IsEntryOf, WellFormed, Contents, Long, Sought;
    ghost var o, p := OpenAt(m, y), Long(t0, t1, t2);
    MovePointer(mem, y, t0, t1, t2);
    Recheck(mem, y, o, disk[..], p);
    ghost var o' := OpenAt(mem[..], y);
    SoughtOk(o, disk[..], o', p);
    SoughtStays(o, o', p);
    NothingChanged(m, disk[..], y);
    EntryStays(m, disk[..], mem[..], disk[..], cat, size, k, y);
  }

  lemma SoughtStays(o: Open, o': Open, p: nat)
    requires Sought(o, o', p)
    ensures StaysFile(o, o')
  {
    hide Longer, Current, Dirty, Warned;
  }

  lemma SeekPadded(p: Plain, room: nat, to: nat)
    requires p.ptr <= |p.bytes| <= room && |p.bytes| < to
    ensures var q := p.(ptr := |p.bytes|);
      Step(p, room, Seek(to)) ==
        if to <= room then (Padded(q, to).(warned := false), Done) else (Padded(q, room), Full)
  {
  }

  // PTR#= on a file open for writing, from the point where the handle has been found in use:
  // within the file PTR moves; beyond it the file is padded with zeros, or it is full and is
  // closed.
  method SetPtr(mem: array<byte>, disk: array<byte>, x: byte, y: byte, t0: byte, t1: byte, t2: byte,
    ghost k: nat, ghost cat: seq<Entry>, ghost size: nat) returns (ok: bool, ghost cat': seq<Entry>)
    requires mem.Length == MEMORY_SIZE && disk.Length == DISK_SIZE && mem != disk
    requires IsEntryOf(mem[..], disk[..], cat, size, k, y) && x == 8 * k
    requires Long(t0, t1, t2) > OpenAt(mem[..], y).f.extent ==> Fresh(OpenAt(mem[..], y))
    modifies mem, disk
    ensures Start(cat[k]) <= Top(cat, size, k)
    ensures var p, room := old(View(OpenAt(mem[..], y), disk[..])), 256 * Room(cat, size, k);
      && |p.bytes| <= room
      && var (q, r) := Step(p, room, Seek(Long(t0, t1, t2)));
      ok == (r == Done) && Reached(mem[..], disk[..], cat, cat', size, k, y, q, !ok)
    ensures OnlyWithin(old(disk[..]), disk[..], Start(cat[k]), Top(cat, size, k))
  {
    hide OpenAt, OpenOk, IsEntryOf, SameEntries, OnlyWithin, View, Padded, Contents, Start, Top, Grown, OnDisk, Long;
    hide EntryKept, FileHolds, WellFormed, Room, Fresh, Sought;
    ghost var m, d := mem[..], disk[..];
    InRoom(m, d, cat, size, k, y);
    ghost var o := OpenAt(m, y);
    ViewStarts(o, d);
    PlainOf(o, d);
    FlagsOf(m, y);
    NothingWithin(d, Start(cat[k]), Top(cat, size, k));
    MovePointer(mem, y, mem[EXTENT + y], mem[EXTENT + 1 + y], mem[EXTENT + 2 + y]);
    ok, cat' := true, cat;
    FlagsOf(mem[..], y);
    ghost var m1 := m;
    var short := Falls(mem, y, t0, t1, t2);
    if short {
      AtEndEntry(m, mem[..], d, cat, size, k, y);
      SeekPadded(View(o, d), 256 * Room(cat, size, k), Long(t0, t1, t2));
      ok, cat' := PadTo(mem, disk, x, y, t0, t1, t2, k, cat, size);
      if !ok {
        return;
      }
      m1 := mem[..];
      SameRoom(cat, cat', size, k);
      InRoom(m1, disk[..], cat', size, k, y);
      ViewStarts(OpenAt(m1, y), disk[..]);
      PlainOf(OpenAt(m1, y), disk[..]);
    }
    Settle(mem, disk, y, t0, t1, t2, m1, k, cat', size);
  }

  // ---- Runs ----

  predicate Fits(op: Op) { op.Seek? ==> op.to < 0x1000000 }

  lemma FitsMeans(to: nat)
    requires to < 0x1000000
    ensures Long(to % 256, to / 256 % 256, to / 65536) == to
  {
  }

  // BPUT's bytes and PTR, as a step of the plain file.
  lemma PutStep(o: Open, d: seq<byte>, m': seq<byte>, d': seq<byte>, y: byte, v: byte, ok: bool, room: nat)
    requires Outcome(o, d, m', d', y, v, ok) && o.f.ptr <= o.f.extent <= room && (ok <==> o.f.ptr < room)
    ensures |View(o, d).bytes| == o.f.extent
    ensures var (q, r) := Step(View(o, d), room, Put(v));
      && ok == (r == Done) && r != EndOfFile && (!ok ==> r == Full)
      && (ok ==> View(OpenAt(m', y), d') == q)
      && (!ok ==> FileHolds(d', o.f.start, q.bytes) && |q.bytes| == room)
  {
    hide OpenOk, OpenAt, Warned, PutAt;
  }

  lemma GotStep(o: Open, d: seq<byte>, o': Open, d': seq<byte>, r: Reply, room: nat)
    requires HasGot(o, d, o', d', r) && |View(o, d).bytes| <= room
    ensures (View(o', d'), r) == Step(View(o, d), room, Get) && r != Full && StaysFile(o, o')
  {
    hide OpenOk, View, StaysFile;
  }

  lemma WithinRoom(o: Open, d: seq<byte>, d': seq<byte>, hi: nat)
    requires OnlyFile(o, d, d') && |d| == DISK_SIZE && o.f.start + o.owned <= hi
    ensures OnlyWithin(d, d', o.f.start, hi)
  {
    OnlyFileWithin(o, d, d');
    NothingWithin(d, o.f.start, hi);
    WithinMore(d, d, d', o.f.start, o.f.start + o.owned, hi);
  }

  lemma RoomEnds(m: seq<byte>, d: seq<byte>, cat: seq<Entry>, size: nat, k: nat, y: byte)
    requires IsEntryOf(m, d, cat, size, k, y)
    ensures OpenAt(m, y).f.start + OpenAt(m, y).owned <= Top(cat, size, k)
  {
    EntryFacts(m, d, cat, size, k, y);
    hide OpenAt;
  }

  // One operation on a file and its entry.
  method DoOp(mem: array<byte>, disk: array<byte>, x: byte, y: byte, op: Op,
    ghost k: nat, ghost cat: seq<Entry>, ghost size: nat) returns (r: Reply, ghost cat': seq<Entry>)
    requires mem.Length == MEMORY_SIZE && disk.Length == DISK_SIZE && mem != disk
    requires IsEntryOf(mem[..], disk[..], cat, size, k, y) && x == 8 * k && Fits(op)
    requires op.Seek? && op.to > OpenAt(mem[..], y).f.extent ==> Fresh(OpenAt(mem[..], y))
    modifies mem, disk
    ensures Start(cat[k]) <= Top(cat, size, k)
    ensures var p, room := old(View(OpenAt(mem[..], y), disk[..])), 256 * Room(cat, size, k);
      && |p.bytes| <= room
      && var (q, out) := Step(p, room, op);
      r == out && Reached(mem[..], disk[..], cat, cat', size, k, y, q, r == Full)
    ensures OnlyWithin(old(disk[..]), disk[..], Start(cat[k]), Top(cat, size, k))
  {
    hide OpenAt, OpenOk, IsEntryOf, SameEntries, OnlyWithin, View, Contents, Start, Top, Grown, Long;
    hide EntryKept, FileHolds, WellFormed, Room, Fresh, OnlyFile, Outcome, HasGot;
    ghost var m, d := mem[..], disk[..];
    InRoom(m, d, cat, size, k, y);
    ghost var o := OpenAt(m, y);
    ViewStarts(o, d);
    PlainOf(o, d);
    match op {
      case Get =>
        r := GetByte(mem, disk, y);
        cat' := cat;
        GotStep(o, d, OpenAt(mem[..], y), disk[..], r, 256 * Room(cat, size, k));
        EntryStays(m, d, mem[..], disk[..], cat, size, k, y);
        RoomEnds(m, d, cat, size, k, y);
        WithinRoom(o, d, disk[..], Top(cat, size, k));
      case Put(v) =>
        EntryOpen(m, d, cat, size, k, y);
        var ok;
        ok, cat' := Bput(mem, disk, x, y, v, k, cat, size);
        PutStep(o, d, mem[..], disk[..], y, v, ok, 256 * Room(cat, size, k));
        if ok {
          EntryOpen(mem[..], disk[..], cat', size, k, y);
          KeptOnce(cat, cat', size, k);
        } else {
          cat' := cat;
        }
        r := if ok then Done else Full;
      case Seek(to) =>
        FitsMeans(to);
        var ok;
        ok, cat' := SetPtr(mem, disk, x, y, to % 256, to / 256 % 256, to / 65536, k, cat, size);
        r := if ok then Done else Full;
    }
  }

  // A careful seek meets the condition of PTR#=.
  lemma CarefulSeek(m: seq<byte>, d: seq<byte>, cat: seq<Entry>, size: nat, k: nat, y: byte, ops: seq<Op>)
    requires IsEntryOf(m, d, cat, size, k, y) && ops != []
    requires IsOpen(m, d, y) && Start(cat[k]) <= Top(cat, size, k)
    requires var p := View(OpenAt(m, y), d);
      |p.bytes| <= 256 * Room(cat, size, k) && Careful(p, 256 * Room(cat, size, k), ops)
    ensures ops[0].Seek? && ops[0].to > OpenAt(m, y).f.extent ==> Fresh(OpenAt(m, y))
  {
    AtEndOk(OpenAt(m, y), d);
    ViewStarts(OpenAt(m, y), d);
    hide OpenAt, OpenOk, Fresh, Room, Start, Top, Step, Contents;
  }

  lemma ReachedOn(m: seq<byte>, d: seq<byte>, cat: seq<Entry>, cat1: seq<Entry>, cat': seq<Entry>, size: nat, k: nat,
    y: byte, p: Plain, full: bool)
    requires SameEntries(cat, cat1, size, k) && Reached(m, d, cat1, cat', size, k, y, p, full)
    ensures Reached(m, d, cat, cat', size, k, y, p, full)
  {
    hide SameEntries, IsEntryOf, OpenAt, View, Grown, Start, Top, Room, FileHolds;
    KeptTwice(cat, cat1, cat', size, k);
    SameRoom(cat, cat1, size, k);
    if full {
      GrownTwice(m, d, cat, cat1, size, k);
    }
  }

  // Any run of BGET, BPUT and PTR# gives what an array of bytes gives, as long as seeks
  // beyond the end are careful. Only sectors of the file's room change.
  method RunOps(mem: array<byte>, disk: array<byte>, x: byte, y: byte, ops: seq<Op>,
    ghost k: nat, ghost cat: seq<Entry>, ghost size: nat) returns (outs: seq<Reply>, open: bool, ghost cat': seq<Entry>)
    requires mem.Length == MEMORY_SIZE && disk.Length == DISK_SIZE && mem != disk
    requires IsEntryOf(mem[..], disk[..], cat, size, k, y) && x == 8 * k
    requires forall i :: 0 <= i < |ops| ==> Fits(ops[i])
    requires IsOpen(mem[..], disk[..], y) && IsListing(cat) && k < |cat| && Start(cat[k]) <= Top(cat, size, k)
    requires var p := View(OpenAt(mem[..], y), disk[..]);
      |p.bytes| <= 256 * Room(cat, size, k) && Careful(p, 256 * Room(cat, size, k), ops)
    modifies mem, disk
    ensures var (q, rs) := Run(old(View(OpenAt(mem[..], y), disk[..])), 256 * Room(cat, size, k), ops);
      outs == rs && Reached(mem[..], disk[..], cat, cat', size, k, y, q, !open)
    ensures open <==> Full !in outs
    ensures OnlyWithin(old(disk[..]), disk[..], Start(cat[k]), Top(cat, size, k))
    decreases |ops|
  {
    hide OpenAt, OpenOk, IsEntryOf, SameEntries, OnlyWithin, View, Start, Top, Grown, Step, Fits;
    hide EntryKept, FileHolds, Room, Fresh;
    ghost var d := disk[..];
    InRoom(mem[..], d, cat, size, k, y);
    if ops == [] {
      NothingWithin(d, Start(cat[k]), Top(cat, size, k));
      return [], true, cat;
    }
    CarefulSeek(mem[..], d, cat, size, k, y, ops);
    ghost var p := View(OpenAt(mem[..], y), d);
    var r;
    ghost var cat1;
    r, cat1 := DoOp(mem, disk, x, y, ops[0], k, cat, size);
    if r == Full {
      return [Full], false, cat1;
    }
    ghost var d1 := disk[..];
    SameRoom(cat, cat1, size, k);
    InRoom(mem[..], d1, cat1, size, k, y);
    outs, open, cat' := RunOps(mem, disk, x, y, ops[1..], k, cat1, size);
    WithinTwice(d, d1, disk[..], Start(cat[k]), Top(cat, size, k));
    ghost var p1 := Step(p, 256 * Room(cat, size, k), ops[0]).0;
    ReachedOn(mem[..], disk[..], cat, cat1, cat', size, k, y, Run(p1, 256 * Room(cat, size, k), ops[1..]).0, !open);
    outs := [r] + outs;
  }

  // ---- A whole session ----

  // The entry has the file's length and its sectors the bytes; the other entries are as they
  // were.
  ghost predicate Saved(m: seq<byte>, d: seq<byte>, cat: seq<Entry>, k: nat, bytes: seq<byte>) {
    && |m| == MEMORY_SIZE && |d| == DISK_SIZE && IsCatalogue(WithPages(m, d)) && IsListing(cat)
    && var list := CatalogueOf(WithPages(m, d));
    && k < |cat| == |list| && Length(list[k]) == |bytes| && list[k].name == cat[k].name
    && Start(list[k]) == Start(cat[k]) && FileHolds(d, Start(cat[k]), bytes)
    && forall j :: 0 <= j < |cat| && j != k ==> list[j] == cat[j]
  }

  // A full file is closed with its whole room as its length.
  lemma FullSaved(m: seq<byte>, d: seq<byte>, cat: seq<Entry>, cat': seq<Entry>, size: nat, k: nat, y: byte, p: Plain)
    requires Reached(m, d, cat, cat', size, k, y, p, true)
    ensures Saved(m, d, cat, k, p.bytes)
  {
    SamePagesRead(m, WithPages(m, d), d);
    RoomLength(Room(cat, size, k));
    hide WithPages, CatalogueOf, WellFormed, DiskSize, Start, Length, Top, FileHolds, Room, Long, WithLength;
  }

  lemma RoomLength(room: nat)
    requires room < 1024
    ensures Long(0, room % 256, room / 256) == 256 * room
  {
  }

  lemma EntryParts(m: seq<byte>, d: seq<byte>, cat: seq<Entry>, size: nat, k: nat, y: byte)
    requires IsEntryOf(m, d, cat, size, k, y)
    ensures IsOpen(m, d, y) && EntryIs(m, d, cat, k, OpenAt(m, y)) && IsListing(cat) && Recorded(m, y, cat[k])
    ensures OpenAt(m, y).f.start + OpenAt(m, y).owned <= Top(cat, size, k)
  {
    RoomEnds(m, d, cat, size, k, y);
    hide OpenAt, Top, Recorded;
  }

  lemma ClosedSaved(o: Open, d: seq<byte>, m': seq<byte>, d': seq<byte>, cat: seq<Entry>, cat': seq<Entry>,
    size: nat, k: nat)
    requires OpenOk(o, d) && OnDisk(o, d, d') && SameEntries(cat, cat', size, k) && o.f.start == Start(cat[k])
    requires |m'| == MEMORY_SIZE && IsCatalogue(WithPages(m', d'))
    requires var list := CatalogueOf(WithPages(m', d'));
      && |list| == |cat'| && Length(list[k]) == o.f.extent && Start(list[k]) == Start(cat'[k])
      && list[k].name == cat'[k].name && forall j :: 0 <= j < |cat'| && j != k ==> list[j] == cat'[j]
    ensures Saved(m', d', cat, k, View(o, d).bytes)
  {
    FullFile(o, d, d');
    ViewStarts(o, d);
    hide WithPages, CatalogueOf, WellFormed, Start, Length, Top, FileHolds, OpenOk, WithLength, View, Contents;
    assert cat'[k].name == cat[k].name;
  }

  // Open to close: the disk holds what the array of bytes is at the end.
  method Session(mem: array<byte>, disk: array<byte>, x: byte, y: byte, ops: seq<Op>,
    ghost k: nat, ghost cat: seq<Entry>, ghost size: nat) returns (outs: seq<Reply>)
    requires mem.Length == MEMORY_SIZE && disk.Length == DISK_SIZE && mem != disk
    requires IsEntryOf(mem[..], disk[..], cat, size, k, y) && x == 8 * k
    requires forall i :: 0 <= i < |ops| ==> Fits(ops[i])
    requires IsOpen(mem[..], disk[..], y) && IsListing(cat) && k < |cat| && Start(cat[k]) <= Top(cat, size, k)
    requires var p := View(OpenAt(mem[..], y), disk[..]);
      |p.bytes| <= 256 * Room(cat, size, k) && Careful(p, 256 * Room(cat, size, k), ops)
    modifies mem, disk
    ensures var (q, rs) := Run(old(View(OpenAt(mem[..], y), disk[..])), 256 * Room(cat, size, k), ops);
      outs == rs && Saved(mem[..], disk[..], cat, k, q.bytes)
    ensures OnlyWithin(old(disk[..]), disk[..], Start(cat[k]), Top(cat, size, k))
  {
    hide OpenAt, OpenOk, IsEntryOf, SameEntries, OnlyWithin, View, Start, Top, Grown, Step, Fits, Careful, Run, Saved;
    hide EntryKept, FileHolds, Room, OnDisk, WithPages, CatalogueOf, Length, Recorded;
    ghost var d := disk[..];
    ghost var p := View(OpenAt(mem[..], y), d);
    ghost var q := Run(p, 256 * Room(cat, size, k), ops).0;
    var open;
    ghost var cat';
    outs, open, cat' := RunOps(mem, disk, x, y, ops, k, cat, size);
    if !open {
      FullSaved(mem[..], disk[..], cat, cat', size, k, y, q);
      return;
    }
    ghost var m1, d1 := mem[..], disk[..];
    SameRoom(cat, cat', size, k);
    InRoom(m1, d1, cat', size, k, y);
    EntryParts(m1, d1, cat', size, k, y);
    CloseFile(mem, disk, x, y, k, cat');
    ClosedSaved(OpenAt(m1, y), d1, mem[..], disk[..], cat, cat', size, k);
    WithinMore(d, d1, disk[..], Start(cat[k]), Start(cat[k]) + OpenAt(m1, y).owned, Top(cat, size, k));
  }

  // ---- What the runs mean ----

  function Puts(vs: seq<byte>): seq<Op> { seq(|vs|, i requires 0 <= i < |vs| => Put(vs[i])) }

  function Gets(n: nat): seq<Op> { seq(n, _ => Get) }

  function Read(vs: seq<byte>): seq<Reply> { seq(|vs|, i requires 0 <= i < |vs| => Byte(vs[i])) }

  function Dones(n: nat): seq<Reply> { seq(n, _ => Done) }

  lemma FirstStep(p: Plain, room: nat, op: Op, ops: seq<Op>)
    requires p.ptr <= |p.bytes| <= room && Step(p, room, op).1 != Full
    ensures var (next, out) := Step(p, room, op);
      Run(p, room, [op] + ops) == (Run(next, room, ops).0, [out] + Run(next, room, ops).1)
  {
    hide Step;
    assert ([op] + ops)[1..] == ops;
  }

  // One run after another.
  lemma {:induction false} RunBoth(p: Plain, room: nat, a: seq<Op>, b: seq<Op>)
    requires p.ptr <= |p.bytes| <= room && Full !in Run(p, room, a).1
    ensures var (q, rs) := Run(p, room, a);
      Run(p, room, a + b) == (Run(q, room, b).0, rs + Run(q, room, b).1)
    decreases |a|
  {
    hide Step;
    if a == [] {
      assert [] + b == b && [] + Run(p, room, b).1 == Run(p, room, b).1;
    } else {
      var (next, out) := Step(p, room, a[0]);
      assert Run(p, room, a).1[0] == out;
      hide Run;
      FirstStep(p, room, a[0], a[1..]);
      assert a == [a[0]] + a[1..];
      RunBoth(next, room, a[1..], b);
      FirstStep(p, room, a[0], a[1..] + b);
      assert a + b == [a[0]] + (a[1..] + b);
      var q := Run(next, room, a[1..]).0;
      assert [out] + (Run(next, room, a[1..]).1 + Run(q, room, b).1) == Run(p, room, a).1 + Run(q, room, b).1;
    }
  }

  lemma {:induction false} PutsRun(p: Plain, room: nat, vs: seq<byte>)
    requires p.ptr <= |p.bytes| <= room && p.ptr + |vs| <= room
    ensures Run(p, room, Puts(vs)) == (Plain(PutAll(p.bytes, p.ptr, vs), p.ptr + |vs|, p.warned), Dones(|vs|))
    decreases |vs|
  {
    if vs == [] {
      assert Puts(vs) == [] && Dones(0) == [];
    } else {
      var next := p.(bytes := PutAt(p.bytes, p.ptr, vs[0]), ptr := p.ptr + 1);
      assert Step(p, room, Put(vs[0])) == (next, Done);
      hide Run, Step;
      PutsRun(next, room, vs[1..]);
      FirstStep(p, room, Put(vs[0]), Puts(vs[1..]));
      assert Puts(vs) == [Put(vs[0])] + Puts(vs[1..]) && [Done] + Dones(|vs| - 1) == Dones(|vs|);
    }
  }

  lemma {:induction false} GetsRun(p: Plain, room: nat, n: nat)
    requires p.ptr + n <= |p.bytes| <= room
    ensures Run(p, room, Gets(n)) == (p.(ptr := p.ptr + n), Read(p.bytes[p.ptr..p.ptr + n]))
    decreases n
  {
    if n == 0 {
      assert Gets(n) == [] && p.bytes[p.ptr..p.ptr + n] == [] && Read([]) == [];
    } else {
      var next := p.(ptr := p.ptr + 1);
      assert Step(p, room, Get) == (next, Byte(p.bytes[p.ptr]));
      hide Run, Step;
      GetsRun(next, room, n - 1);
      FirstStep(p, room, Get, Gets(n - 1));
      assert Gets(n) == [Get] + Gets(n - 1);
      assert [Byte(p.bytes[p.ptr])] + Read(p.bytes[p.ptr + 1..p.ptr + n]) == Read(p.bytes[p.ptr..p.ptr + n]);
    }
  }

  lemma SeekRun(p: Plain, room: nat, to: nat)
    requires p.ptr <= |p.bytes| <= room && to <= room
    ensures var (q, rs) := Run(p, room, [Seek(to)]);
      && rs == [Done] && q.ptr == to && !q.warned && |q.bytes| == (if to <= |p.bytes| then |p.bytes| else to)
      && forall i :: 0 <= i < |q.bytes| ==> q.bytes[i] == if i < |p.bytes| then p.bytes[i] else 0
  {
    var q := Step(p, room, Seek(to)).0;
    assert [Seek(to)][1..] == [] && Run(q, room, []) == (q, []);
  }

  // Bytes put anywhere in the file, or at or beyond its end, are read back from there; the
  // gap, if any, reads as zeros and every other byte as before.
  lemma PutsReadBack(p: Plain, room: nat, at: nat, vs: seq<byte>)
    requires p.ptr <= |p.bytes| <= room && at + |vs| <= room
    ensures var (q, rs) := Run(p, room, [Seek(at)] + (Puts(vs) + ([Seek(at)] + Gets(|vs|))));
      && rs == [Done] + (Dones(|vs|) + ([Done] + Read(vs)))
      && |q.bytes| == (if at + |vs| <= |p.bytes| then |p.bytes| else at + |vs|)
      && forall i :: 0 <= i < |q.bytes| ==>
        q.bytes[i] == if at <= i < at + |vs| then vs[i - at] else if i < |p.bytes| then p.bytes[i] else 0
  {
    hide Run, Step;
    SeekRun(p, room, at);
    var q1 := Run(p, room, [Seek(at)]).0;
    PutsRun(q1, room, vs);
    var q2 := Plain(PutAll(q1.bytes, at, vs), at + |vs|, false);
    PutAllMeans(q1.bytes, at, vs);
    ReadsBack(q2, room, at, vs);
    RunBoth(q1, room, Puts(vs), [Seek(at)] + Gets(|vs|));
    RunBoth(p, room, [Seek(at)], Puts(vs) + ([Seek(at)] + Gets(|vs|)));
  }

  lemma ReadsBack(p: Plain, room: nat, at: nat, vs: seq<byte>)
    requires p.ptr <= |p.bytes| <= room && at + |vs| <= |p.bytes|
    requires forall i :: at <= i < at + |vs| ==> p.bytes[i] == vs[i - at]
    ensures var (q, rs) := Run(p, room, [Seek(at)] + Gets(|vs|));
      rs == [Done] + Read(vs) && q.bytes == p.bytes
  {
    var q := p.(ptr := at, warned := false);
    assert Step(p, room, Seek(at)) == (q, Done);
    hide Run, Step;
    FirstStep(p, room, Seek(at), Gets(|vs|));
    GetsRun(q, room, |vs|);
    assert q.bytes[at..at + |vs|] == vs;
  }

  // The end is reported once, then it is an error; putting a byte does not change that, a
  // seek does.
  lemma EndReported(p: Plain, room: nat, v: byte)
    requires p.ptr == |p.bytes| < room
    ensures Run(p.(warned := false), room, [Get, Get, Put(v), Get]).1 == [EndOfFile, EofError, Done, EofError]
    ensures Run(p.(warned := true), room, [Get, Seek(p.ptr), Get, Get]).1 == [EofError, Done, EndOfFile, EofError]
  {
    var (u, w) := (p.(warned := false), p.(warned := true));
    var q := w.(bytes := PutAt(w.bytes, w.ptr, v), ptr := w.ptr + 1);
    Four(u, w, w, q, q, room, [Get, Get, Put(v), Get]);
    Four(w, w, u, w, w, room, [Get, Seek(p.ptr), Get, Get]);
  }

  // Four steps, and the states between them.
  lemma Four(p0: Plain, p1: Plain, p2: Plain, p3: Plain, p4: Plain, room: nat, ops: seq<Op>)
    requires |ops| == 4
    requires forall p :: p in {p0, p1, p2, p3} ==> p.ptr <= |p.bytes| <= room
    requires Step(p0, room, ops[0]).0 == p1 && Step(p1, room, ops[1]).0 == p2
    requires Step(p2, room, ops[2]).0 == p3 && Step(p3, room, ops[3]).0 == p4
    requires Step(p0, room, ops[0]).1 != Full && Step(p1, room, ops[1]).1 != Full
    requires Step(p2, room, ops[2]).1 != Full && Step(p3, room, ops[3]).1 != Full
    ensures Run(p0, room, ops) == (p4, [Step(p0, room, ops[0]).1, Step(p1, room, ops[1]).1,
      Step(p2, room, ops[2]).1, Step(p3, room, ops[3]).1])
  {
    FirstStep(p3, room, ops[3], []);
    FirstStep(p2, room, ops[2], ops[3..]);
    FirstStep(p1, room, ops[1], ops[2..]);
    FirstStep(p0, room, ops[0], ops[1..]);
    var (a, b) := (Step(p0, room, ops[0]).1, Step(p1, room, ops[1]).1);
    var (c, d) := (Step(p2, room, ops[2]).1, Step(p3, room, ops[3]).1);
    assert [a] + ([b] + ([c] + ([d] + []))) == [a, b, c, d];
    hide Step;
    assert Run(p4, room, []) == (p4, []);
    assert ops == [ops[0]] + ops[1..] && ops[1..] == [ops[1]] + ops[2..];
    assert ops[2..] == [ops[2]] + ops[3..] && ops[3..] == [ops[3]] + [];
  }

  // A full file takes nothing more: the run ends, with the file as it was.
  lemma FullStops(p: Plain, room: nat, v: byte, ops: seq<Op>)
    requires p.ptr == |p.bytes| == room
    ensures Run(p, room, [Put(v)] + ops) == (p, [Full])
    ensures Run(p, room, [Seek(room + 1)] + ops).1 == [Full]
  {
  }
}
