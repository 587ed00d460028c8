// Block addressing and the block reads: from a drive, a sector and a byte length to
// bytes of the host's disk image in memory.

module Blocks {
  import opened Bytes
  import opened Layout
  import opened Server
  import opened Transfer

  const DISK_LOW := 0x0D0C     // per drive: low byte of the disk number
  const DISK_HIGH := 0x0D10    // bit 0 is its ninth bit, bit 7 means no disk

  // The parameter block of a block operation.
  const MEM_ADDR := 0xBE
  const PACKED := 0xC4         // bits 0-1 sector high, bits 4-5 length high
  const START_LOW := 0xC5

  const SECTORS_PER_DISK := 800

  function DiskNumber(m: seq<byte>, drive: byte): (d: nat)
    requires |m| == MEMORY_SIZE && drive < 4
    ensures d < 512
  {
    Word(m[DISK_LOW + drive], m[DISK_HIGH + drive] % 2)
  }

  function Sector24(m: seq<byte>): nat
    requires |m| == MEMORY_SIZE
  {
    Long(m[SECTOR], m[SECTOR + 1], m[SECTOR + 2])
  }

  // The block asked for: first sector on its disk, and byte count.
  function StartSector(m: seq<byte>): nat
    requires |m| == MEMORY_SIZE
  {
    Word(m[START_LOW], m[PACKED] % 4)
  }

  function ByteLength(m: seq<byte>): nat
    requires |m| == MEMORY_SIZE
  {
    Long(m[LENGTH_LOW], m[LENGTH_MID], m[PACKED] / 16 % 4)
  }

  // The byte count that a sector count and a last-sector length stand for.
  function Reencoded(count: byte, last: byte): int {
    if last == 0 then Word(0, count) else Word(last, count) - 256
  }

  // ROR of the low byte of the sector.
  method RorSector(mem: array<byte>, c: bit) returns (carry: bit)
    requires mem.Length == MEMORY_SIZE
    modifies mem
    ensures (mem[SECTOR], carry) == Ror(old(mem[SECTOR]), c)
    ensures forall k :: 0 <= k < MEMORY_SIZE && k != SECTOR ==> mem[k] == old(mem[k])
  {
    var (v, c') := Ror(mem[SECTOR], c);
    mem[SECTOR], carry := v, c';
  }

  // The upper two bytes become three times the disk number, that is 768 times it.
  method TripleNumber(mem: array<byte>, number: byte, h: bit) returns (c: bit)
    requires mem.Length == MEMORY_SIZE
    modifies mem
    ensures Word(mem[SECTOR + 1], mem[SECTOR + 2]) == 3 * Word(number, h) && mem[SECTOR] == 0 && c == 0
    ensures forall k :: 0 <= k < MEMORY_SIZE && !(SECTOR <= k <= SECTOR + 2) ==> mem[k] == old(mem[k])
  {
    hide Asl, Rol, Adc;
    DoubleWord(number, h);
    AddWords(number, h, Asl(number).0, 2 * h + number / 128);
    mem[SECTOR] := 0;
    var (top, c0) := Rol(0, h);
    mem[SECTOR + 2] := top;
    var (twice, c1) := Asl(number);
    var (high, c2) := Rol(mem[SECTOR + 2], c1);
    mem[SECTOR + 2] := high;
    mem[SECTOR + 1] := twice;
    var (thrice, c3) := Adc(number, mem[SECTOR + 1], c2);
    mem[SECTOR + 1] := thrice;
    var (t, c4) := Adc(top, 0, c3);
    var (u, c5) := Adc(t, mem[SECTOR + 2], c4);
    mem[SECTOR + 2] := u;
    c := c5;
  }

  // Three right shifts of the nine-bit number leave its eighth part in A and the
  // remainder at the top of the sector's low byte: 32 times the number in all.
  method EighthNumber(mem: array<byte>, number: byte, h: bit) returns (a: byte, c: bit)
    requires mem.Length == MEMORY_SIZE && mem[SECTOR] == 0
    modifies mem
    ensures Word(mem[SECTOR], a) == 32 * Word(number, h) && c == 0
    ensures forall k :: 0 <= k < MEMORY_SIZE && k != SECTOR ==> mem[k] == old(mem[k])
  {
    Eighths(number, h);
    var (r1, d1) := Ror(number, h);
    c := RorSector(mem, d1);
    var (r2, d2) := Lsr(r1);
    c := RorSector(mem, d2);
    var (r3, d3) := Lsr(r2);
    c := RorSector(mem, d3);
    a := r3;
  }

  // $aa7e: the first sector of the disk in a drive is 800 times its number.
  method DiskBase(mem: array<byte>, x: byte) returns (ok: bool)
    requires mem.Length == MEMORY_SIZE && x < 4
    modifies mem
    ensures ok == (old(mem[DISK_HIGH + x]) < 128)
    ensures ok ==> Sector24(mem[..]) == 800 * DiskNumber(old(mem[..]), x)
    ensures forall k :: 0 <= k < MEMORY_SIZE && !(SECTOR <= k <= SECTOR + 2) ==> mem[k] == old(mem[k])
    ensures !ok ==> mem[..] == old(mem[..])
  {
    hide Adc, Word, Long;
    if mem[DISK_HIGH + x] >= 128 {
      return false;
    }
    ghost var d := DiskNumber(mem[..], x);
    var anyCarry: bit := *;
    var (_, h) := Ror(mem[DISK_HIGH + x], anyCarry);
    var number := mem[DISK_LOW + x];
    var c := TripleNumber(mem, number, h);
    c := RorSector(mem, c);
    var a;
    a, c := EighthNumber(mem, number, h);
    AddEighth(mem[SECTOR], a, mem[SECTOR + 1], mem[SECTOR + 2], d);
    var (mid, c') := Adc(a, mem[SECTOR + 1], c);
    mem[SECTOR + 1] := mid;
    var (high, _) := Adc(mem[SECTOR + 2], 0, c');
    mem[SECTOR + 2] := high;
    ok := true;
  }

  // 768 times a disk number in the upper bytes and 32 times it across the lower ones.
  lemma AddEighth(lo: byte, a: byte, mid: byte, hi: byte, d: nat)
    requires Word(mid, hi) == 3 * d && Word(lo, a) == 32 * d && d < 512
    ensures var (m, c) := Adc(a, mid, 0);
      Long(lo, m, Adc(hi, 0, c).0) == 800 * d
  {
  }

  // ASL of the low byte and ROL of the high byte double a word.
  lemma DoubleWord(lo: byte, hi: byte)
    requires hi < 128
    ensures var (l, c) := Asl(lo);
      var (h, d) := Rol(hi, c);
      Word(l, h) == 2 * Word(lo, hi) && d == 0 && h == 2 * hi + lo / 128
    ensures hi < 2 ==> Rol(0, hi) == (hi, 0)
  {
  }

  // Adding the low bytes, and then the high bytes with the carry, adds two words.
  lemma AddWords(lo: byte, hi: byte, l: byte, h: byte)
    requires hi + h < 255
    ensures var (s, c) := Adc(lo, l, 0);
      var (t, d) := Adc(hi, 0, c);
      var (u, e) := Adc(t, h, d);
      Word(s, u) == Word(lo, hi) + Word(l, h) && d == 0 && e == 0
  {
  }

  lemma Eighths(number: byte, h: bit)
    ensures var (r1, d1) := Ror(number, h);
      var (s1, _) := Ror(0, d1);
      var (r2, d2) := Lsr(r1);
      var (s2, _) := Ror(s1, d2);
      var (r3, d3) := Lsr(r2);
      var (s3, e) := Ror(s2, d3);
      Word(s3, r3) == 32 * Word(number, h) && e == 0
  {
  }

  // ---- $aad6 ----

  datatype Setup = Accepted | NoDisk | BlockTooBig | DiskOverflow

  // The checks a parameter block must pass: a disk in the drive, at most 255 sectors,
  // and all of them on the disk.
  function Verdict(m: seq<byte>): Setup
    requires |m| == MEMORY_SIZE && m[CUR_DRV] < 4
  {
    if m[DISK_HIGH + m[CUR_DRV]] >= 128 then NoDisk
    else if ByteLength(m) > 0xFF00 then BlockTooBig
    else if StartSector(m) + Sectors(ByteLength(m)) > SECTORS_PER_DISK then DiskOverflow
    else Accepted
  }

  // $aad6: turn the parameter block into a sector on the card, a sector count and
  // the length of the last sector, checking both sizes.
  method SetupBlock(mem: array<byte>) returns (r: Setup)
    requires mem.Length == MEMORY_SIZE && mem[CUR_DRV] < 4
    modifies mem
    ensures r == Verdict(old(mem[..]))
    ensures r == Accepted ==>
      var m := old(mem[..]);
      && Sector24(mem[..]) == 800 * DiskNumber(m, m[CUR_DRV]) + StartSector(m)
      && mem[SECTOR_COUNT] == Sectors(ByteLength(m))
      && Reencoded(mem[SECTOR_COUNT], mem[BYTES_LAST_SECTOR]) == ByteLength(m)
      && Word(mem[DATA_PTR], mem[DATA_PTR + 1]) == Word(m[MEM_ADDR], m[MEM_ADDR + 1])
    ensures forall k :: 0 <= k < MEMORY_SIZE && !IsBlockVariable(k) ==> mem[k] == old(mem[k])
  {
    mem[DATA_PTR] := mem[MEM_ADDR];
    mem[DATA_PTR + 1] := mem[MEM_ADDR + 1];
    var ok := DiskBase(mem, mem[CUR_DRV]);
    if !ok {
      return NoDisk;
    }
    AddStart(mem);
    r := CheckLength(mem);
    if r != Accepted {
      return;
    }
    r := CheckWindow(mem);
  }

  // The variables $aad6 writes.
  predicate IsBlockVariable(k: int) {
    DATA_PTR <= k <= SECTOR_COUNT || k == BYTES_LAST_SECTOR
  }

  // A ten-bit sector added to the twenty-four-bit base.
  method AddStart(mem: array<byte>)
    requires mem.Length == MEMORY_SIZE && Sector24(mem[..]) + StartSector(mem[..]) < 0x1000000
    modifies mem
    ensures Sector24(mem[..]) == old(Sector24(mem[..]) + StartSector(mem[..]))
    ensures forall k :: 0 <= k < MEMORY_SIZE && !(SECTOR <= k <= SECTOR + 2) ==> mem[k] == old(mem[k])
  {
    var (lo, c) := Adc(mem[START_LOW], mem[SECTOR], 0);
    mem[SECTOR] := lo;
    var (mid, c') := Adc(mem[PACKED] % 4, mem[SECTOR + 1], c);
    mem[SECTOR + 1] := mid;
    if c' == 1 {
      mem[SECTOR + 2] := Inc(mem[SECTOR + 2]);
    }
  }

  // Sector count and last-sector length, for lengths of at most 255 sectors.
  method CheckLength(mem: array<byte>) returns (r: Setup)
    requires mem.Length == MEMORY_SIZE
    modifies mem
    ensures r == if ByteLength(old(mem[..])) > 0xFF00 then BlockTooBig else Accepted
    ensures r == Accepted ==>
      var n := ByteLength(old(mem[..]));
      && mem[SECTOR_COUNT] == Sectors(n)
      && Reencoded(mem[SECTOR_COUNT], mem[BYTES_LAST_SECTOR]) == n
    ensures forall k :: 0 <= k < MEMORY_SIZE && k != SECTOR_COUNT && k != BYTES_LAST_SECTOR ==> mem[k] == old(mem[k])
  {
    mem[SECTOR_COUNT] := mem[LENGTH_MID];
    if mem[PACKED] / 16 % 4 != 0 {
      return BlockTooBig;
    }
    mem[BYTES_LAST_SECTOR] := mem[LENGTH_LOW];
    if mem[LENGTH_LOW] != 0 {
      mem[SECTOR_COUNT] := Inc(mem[SECTOR_COUNT]);
      if mem[SECTOR_COUNT] == 0 {
        return BlockTooBig;
      }
    }
    r := Accepted;
  }

  // The last sector must lie on the disk: the end is compared with $320.
  method CheckWindow(mem: array<byte>) returns (r: Setup)
    requires mem.Length == MEMORY_SIZE
    ensures r == if StartSector(mem[..]) + mem[SECTOR_COUNT] > SECTORS_PER_DISK then DiskOverflow else Accepted
  {
    var (x, c) := Adc(mem[START_LOW], mem[SECTOR_COUNT], 0);
    var (a, _) := Adc(mem[PACKED] % 4, 0, c);
    if a < 3 {
      return Accepted;
    }
    if a != 3 {
      return DiskOverflow;
    }
    return if x >= 0x21 then DiskOverflow else Accepted;
  }

  // ---- Reads over the cable ----

  // The variables a block read writes besides the destination.
  predicate IsMessageVariable(k: int) {
    k == DATA_PTR || k == DATA_PTR + 1 || BASE <= k < BLOCK_DATA + 4
  }

  // A READ_BLOCK message: its header, the four bytes of its body at from, and where
  // the reply goes.
  ghost predicate IsReadMessage(b: Beeb, from: nat, block: nat, n: nat, to: nat)
    requires b.mem.Length == MEMORY_SIZE && from + 4 <= MEMORY_SIZE
    reads b, b.mem
  {
    && b.mem[CHANNEL] == DEFAULT && b.mem[COMMAND] == READ_BLOCK
    && b.mem[PARAM1] == b.mem[PARAM2] == 0
    && b.WordAt(SEND_LENGTH) == 4
    && b.WordAt(SEND_ADDR) == from
    && b.WordAt(RECV_ADDR) == to
    && Word(b.mem[from], b.mem[from + 1] % 4) == block
    && Word(b.mem[from + 2], b.mem[from + 3]) == n
  }

  method SendReadMessage(b: Beeb, ghost from: nat, ghost block: nat, ghost n: nat, ghost to: nat)
    requires b.Ready() && CanSendFrom(from, 4)
    requires IsReadMessage(b, from, block, n, to)
    requires 256 * block + n <= IMAGE_SIZE
    requires CanReceiveAt(to, n)
    modifies b, b.mem, b.avr, b.avr.usb, b.host.reqBuffer, b.host.rspBuffer
    ensures b.Ready()
    ensures b.mem[CHANNEL] == RC_SUCCESS && b.WordAt(SEND_LENGTH) == n
    ensures b.mem[to..to + n] == b.host.diskImage[256 * block..256 * block + n]
    ensures forall i :: 0 <= i < MEMORY_SIZE && !InRegion(i, to, n) && !IsWorking(i) ==> b.mem[i] == old(b.mem[i])
    ensures b.strobes == old(b.strobes) + 15 + n
    ensures b.pcr == old(b.pcr) && b.acr == old(b.acr)
  {
    hide Lockstep.Clean, CanReceiveAt;
    var body := b.BodyBytes();
    assert b.HeaderBytes()
      == [b.mem[BASE], b.mem[BASE + 1], b.mem[BASE + 2], b.mem[BASE + 3], b.mem[BASE + 4], b.mem[BASE + 5]];
    assert forall j :: 0 <= j < 4 ==> body[j] == b.mem[from + j];
    assert Block(body) == block && NumBytes(body) == n;
    assert b.host.diskImage[..][256 * block..256 * block + n] == b.host.diskImage[256 * block..256 * block + n];
    b.SendMsg();
  }

  // The command block of a four-byte READ_BLOCK message.
  method StoreReadHeader(mem: array<byte>)
    requires mem.Length == MEMORY_SIZE
    modifies mem
    ensures mem[CHANNEL] == mem[PARAM1] == mem[PARAM2] == mem[SEND_LENGTH + 1] == 0
    ensures mem[COMMAND] == READ_BLOCK && mem[SEND_LENGTH] == 4
    ensures forall i :: 0 <= i < MEMORY_SIZE && !(CHANNEL <= i <= SEND_LENGTH + 1) ==> mem[i] == old(mem[i])
  {
    mem[CHANNEL], mem[PARAM1], mem[PARAM2], mem[SEND_LENGTH + 1] := 0, 0, 0, 0;
    mem[COMMAND], mem[SEND_LENGTH] := 1, 4;
  }

  // The four bytes of the body: the sector in ten bits and the byte count.
  method StoreReadBody(mem: array<byte>)
    requires mem.Length == MEMORY_SIZE
    modifies mem
    ensures mem[BLOCK_DATA] == old(mem[SECTOR]) && mem[BLOCK_DATA + 1] == old(mem[SECTOR + 1])
    ensures Word(mem[BLOCK_DATA + 2], mem[BLOCK_DATA + 3])
      == Reencoded(old(mem[SECTOR_COUNT]), old(mem[BYTES_LAST_SECTOR]))
         || Reencoded(old(mem[SECTOR_COUNT]), old(mem[BYTES_LAST_SECTOR])) < 0
    ensures forall i :: 0 <= i < MEMORY_SIZE && !(BLOCK_DATA <= i < BLOCK_DATA + 4) ==> mem[i] == old(mem[i])
  {
    mem[BLOCK_DATA + 1] := mem[SECTOR + 1];
    mem[BLOCK_DATA] := mem[SECTOR];
    var a, x := mem[SECTOR_COUNT], mem[BYTES_LAST_SECTOR];
    mem[BLOCK_DATA + 2] := x;
    if x != 0 {
      a := Sbc(a, 1, 1).0;
    }
    mem[BLOCK_DATA + 3] := a;
  }

  // The body and the message around it.
  method PrepareReadBlock(b: Beeb, ghost n: nat)
    requires b.mem.Length == MEMORY_SIZE
    requires n == Reencoded(b.mem[SECTOR_COUNT], b.mem[BYTES_LAST_SECTOR])
    modifies b.mem
    ensures IsReadMessage(b, BLOCK_DATA, old(Word(b.mem[SECTOR], b.mem[SECTOR + 1] % 4)), n, old(b.WordAt(DATA_PTR)))
    ensures forall i :: 0 <= i < MEMORY_SIZE && !(BASE <= i < BLOCK_DATA + 4) ==> b.mem[i] == old(b.mem[i])
  {
    hide Reencoded;
    var mem := b.mem;
    StoreReadBody(mem);
    StoreReadHeader(mem);
    mem[SEND_ADDR + 1], mem[SEND_ADDR] := BLOCK_DATA / 256, BLOCK_DATA % 256;
    mem[RECV_ADDR + 1], mem[RECV_ADDR] := mem[DATA_PTR + 1], mem[DATA_PTR];
  }

  // mmc_read_block: n bytes from the given sector of the image to data_ptr.
  method MmcReadBlock(b: Beeb, ghost n: nat, ghost block: nat, ghost to: nat)
    requires b.Ready()
    requires n == Reencoded(b.mem[SECTOR_COUNT], b.mem[BYTES_LAST_SECTOR])
    requires block == Word(b.mem[SECTOR], b.mem[SECTOR + 1] % 4) && 256 * block + n <= IMAGE_SIZE
    requires to == b.WordAt(DATA_PTR) && CanReceiveAt(to, n)
    modifies b, b.mem, b.avr, b.avr.usb, b.host.reqBuffer, b.host.rspBuffer
    ensures b.Ready()
    ensures b.mem[CHANNEL] == RC_SUCCESS && b.WordAt(SEND_LENGTH) == n
    ensures b.mem[to..to + n] == b.host.diskImage[256 * block..256 * block + n]
    ensures forall i :: 0 <= i < MEMORY_SIZE && !InRegion(i, to, n) && !IsMessageVariable(i) ==>
      b.mem[i] == old(b.mem[i])
    ensures b.strobes == old(b.strobes) + 15 + n
  {
    hide Lockstep.Clean, CanReceiveAt;
    PrepareReadBlock(b, n);
    SendReadMessage(b, BLOCK_DATA, block, n, to);
  }

  // A READ_BLOCK message whose body lies where its reply is to go.
  method PrepareReadCat(b: Beeb)
    requires b.mem.Length == MEMORY_SIZE
    modifies b.mem
    ensures IsReadMessage(b, 0x0E00, 0, 512, 0x0E00)
    ensures forall i :: 0 <= i < MEMORY_SIZE && !(BASE <= i < BLOCK_DATA) && !(0x0E00 <= i < 0x0E04) ==>
      b.mem[i] == old(b.mem[i])
  {
    var mem := b.mem;
    mem[0x0E00], mem[0x0E01], mem[0x0E02], mem[0x0E03] := 0, 0, 0, 2;
    StoreReadHeader(mem);
    mem[SEND_ADDR], mem[RECV_ADDR] := 0, 0;
    mem[SEND_ADDR + 1], mem[RECV_ADDR + 1] := 0x0E, 0x0E;
  }

  // The catalogue is the first two sectors of the image, read to $0e00.
  method MmcReadCat(b: Beeb)
    requires b.Ready()
    modifies b, b.mem, b.avr, b.avr.usb, b.host.reqBuffer, b.host.rspBuffer
    ensures b.Ready()
    ensures b.mem[0x0E00..0x1000] == b.host.diskImage[..512]
    ensures forall i :: 0 <= i < MEMORY_SIZE && !InRegion(i, 0x0E00, 512) && !IsMessageVariable(i) ==>
      b.mem[i] == old(b.mem[i])
  {
    hide Lockstep.Clean, IsReadMessage, CanReceiveAt, CanSendFrom;
    CatalogueReceives();
    PrepareReadCat(b);
    SendReadMessage(b, 0x0E00, 0, 512, 0x0E00);
  }

  lemma CatalogueReceives()
    ensures CanReceiveAt(0x0E00, 512) && CanSendFrom(0x0E00, 4)
  {
  }

  // The sector number travels to the host in ten bits.
  function WireSector(disk: nat, start: nat): nat { (SECTORS_PER_DISK * disk + start) % 1024 }

  // The bytes the host sends for a block lie in its image, which holds one disk.
  predicate InImage(disk: nat, start: nat, n: nat) { 256 * WireSector(disk, start) + n <= IMAGE_SIZE }

  // The disk in the current drive.
  function CurrentDisk(m: seq<byte>): nat
    requires |m| == MEMORY_SIZE && m[CUR_DRV] < 4
  {
    DiskNumber(m, m[CUR_DRV])
  }

  // mmc_load_mem_block, for every disk: either the request is refused with only the block
  // variables touched, or memory receives exactly the bytes at the sector the host sees.
  method MmcLoadMemBlock(b: Beeb, ghost to: nat, ghost start: nat, ghost n: nat) returns (r: Setup)
    requires b.Ready() && b.mem[CUR_DRV] < 4
    requires to == b.WordAt(MEM_ADDR) && start == StartSector(b.mem[..]) && n == ByteLength(b.mem[..])
    requires Verdict(b.mem[..]) == Accepted ==> CanReceiveAt(to, n) && InImage(CurrentDisk(b.mem[..]), start, n)
    modifies b, b.mem, b.avr, b.avr.usb, b.host.reqBuffer, b.host.rspBuffer
    ensures b.Ready()
    ensures r == Verdict(old(b.mem[..]))
    ensures r == Accepted ==>
      var block := WireSector(old(CurrentDisk(b.mem[..])), start);
      && b.mem[CHANNEL] == RC_SUCCESS && b.WordAt(SEND_LENGTH) == n
      && 256 * block + n <= IMAGE_SIZE
      && b.mem[to..to + n] == b.host.diskImage[256 * block..256 * block + n]
    ensures forall i :: 0 <= i < MEMORY_SIZE && !InRegion(i, to, n) && !IsMessageVariable(i) && !IsBlockVariable(i) ==>
      b.mem[i] == old(b.mem[i])
    ensures r != Accepted ==> forall i :: 0 <= i < MEMORY_SIZE && !IsBlockVariable(i) ==> b.mem[i] == old(b.mem[i])
  {
    hide Lockstep.Clean, CanReceiveAt, Verdict, Reencoded, Sectors, ByteLength, StartSector, DiskNumber, CurrentDisk,
      WireSector;
    ghost var m := b.mem[..];
    r := SetupSector(b.mem, m);
    if r == Accepted {
      MmcReadBlock(b, n, WireSector(CurrentDisk(m), start), to);
    }
  }

  // $aad6 and the ten bits of the sector that mmc_read_block sends.
  method SetupSector(mem: array<byte>, ghost m: seq<byte>) returns (r: Setup)
    requires mem.Length == MEMORY_SIZE && m == mem[..] && m[CUR_DRV] < 4
    modifies mem
    ensures r == Verdict(m)
    ensures r == Accepted ==>
      && Word(mem[SECTOR], mem[SECTOR + 1] % 4) == WireSector(CurrentDisk(m), StartSector(m))
      && ByteLength(m) == Reencoded(mem[SECTOR_COUNT], mem[BYTES_LAST_SECTOR])
      && Word(mem[DATA_PTR], mem[DATA_PTR + 1]) == Word(m[MEM_ADDR], m[MEM_ADDR + 1])
    ensures forall k :: 0 <= k < MEMORY_SIZE && !IsBlockVariable(k) ==> mem[k] == m[k]
  {
    hide Verdict, Reencoded, Sectors, ByteLength, StartSector, DiskNumber, Sector24, IsBlockVariable;
    r := SetupBlock(mem);
    if r == Accepted {
      TenBits(mem[..]);
    }
  }

  lemma TenBits(m: seq<byte>)
    requires |m| == MEMORY_SIZE
    ensures Word(m[SECTOR], m[SECTOR + 1] % 4) == Sector24(m) % 1024
  {
    var mid: nat, hi: nat := m[SECTOR + 1], m[SECTOR + 2];
    assert Sector24(m) == m[SECTOR] + 256 * (mid % 4) + 1024 * (mid / 4 + 64 * hi);
  }

  // The server sees the sector asked for exactly on disks whose number is a multiple of 32.
  lemma ServerSeesStart(disk: nat, start: nat)
    requires start < 1024
    ensures WireSector(disk, start) == start <==> disk % 32 == 0
  {
    var x := 800 * disk + start;
    if disk % 32 == 0 {
      SameRemainder(x, 25 * (disk / 32), start);
    }
    if x % 1024 == start {
      var k: int := x / 1024;
      assert 25 * disk == 32 * k;
      MultipleOf32(disk, 9 * k - 7 * disk);
    }
  }

  lemma SameRemainder(x: nat, m: nat, r: nat)
    requires x == 1024 * m + r && r < 1024
    ensures x % 1024 == r
  {
  }

  lemma MultipleOf32(x: nat, m: int)
    requires x == 32 * m
    ensures x % 32 == 0
  {
  }

  // A block that $aad6 accepts stays inside the image exactly if the host sees it at a
  // sector where the whole block fits.
  lemma InImageMeans(disk: nat, start: nat, n: nat)
    ensures InImage(disk, start, n) <==> WireSector(disk, start) + Sectors(n) <= SECTORS_PER_DISK
  {
    hide WireSector;
  }

  // So all blocks of a disk are inside if and only if its number is a multiple of 32: on any
  // other the host can be asked for a byte beyond the image.
  lemma DiskInImage(disk: nat)
    ensures (forall start: nat, n: nat :: start + Sectors(n) <= SECTORS_PER_DISK ==> InImage(disk, start, n))
       <==> disk % 32 == 0
  {
    hide WireSector, Sectors, InImage;
    if disk % 32 == 0 {
      forall start: nat, n: nat | start + Sectors(n) <= SECTORS_PER_DISK
        ensures InImage(disk, start, n)
      {
        ServerSeesStart(disk, start);
        InImageMeans(disk, start, n);
      }
    } else {
      var start := BeyondImage(disk);
      InImageMeans(disk, start, 1);
    }
  }

  // Where one byte is already too many: sector 0 of disk 1 is such a place.
  lemma BeyondImage(disk: nat) returns (start: nat)
    requires disk % 32 != 0
    ensures start < SECTORS_PER_DISK <= WireSector(disk, start) && Sectors(1) == 1
    ensures disk == 1 ==> start == 0
  {
    var r := WireSector(disk, 0);
    ServerSeesStart(disk, 0);
    start := if r >= SECTORS_PER_DISK then 0 else SECTORS_PER_DISK - r;
    SameRemainder(800 * disk + start, 800 * disk / 1024, r + start);
  }

  // An accepted block of such a disk is read from the sector asked for.
  lemma AcceptedFits(m: seq<byte>)
    requires |m| == MEMORY_SIZE && m[CUR_DRV] < 4 && Verdict(m) == Accepted && CurrentDisk(m) % 32 == 0
    ensures WireSector(CurrentDisk(m), StartSector(m)) == StartSector(m)
    ensures InImage(CurrentDisk(m), StartSector(m), ByteLength(m))
  {
    hide WireSector, InImage, ByteLength, CurrentDisk;
    ServerSeesStart(CurrentDisk(m), StartSector(m));
    InImageMeans(CurrentDisk(m), StartSector(m), ByteLength(m));
  }
}
