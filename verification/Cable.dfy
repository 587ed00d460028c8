// Files and blocks read over the cable: a file of the catalogue by its information bytes, and
// the reads that module Device takes for granted.

module Cable {
  import opened Bytes
  import opened Layout
  import opened Server
  import opened Transfer
  import opened Blocks
  import Catalogue
  import Device

  // $be to $c5 hold the information bytes of a catalogue entry.
  predicate HoldsInfo(m: seq<byte>, e: Catalogue.Entry) {
    |m| == MEMORY_SIZE && Catalogue.IsEntry(e) && forall i :: 0 <= i < 8 ==> m[MEM_ADDR + i] == e.info[i]
  }

  // The outcome of loading a file, by its entry.
  function LoadVerdict(present: bool, e: Catalogue.Entry): Setup
    requires Catalogue.IsEntry(e)
  {
    if !present then NoDisk
    else if Catalogue.Length(e) > 0xFF00 then BlockTooBig
    else if Catalogue.End(e) > SECTORS_PER_DISK then DiskOverflow
    else Accepted
  }

  lemma InfoMeans(m: seq<byte>, e: Catalogue.Entry)
    requires HoldsInfo(m, e)
    ensures Catalogue.IsEntry(e)
    ensures StartSector(m) == Catalogue.Start(e) && ByteLength(m) == Catalogue.Length(e)
    ensures Word(m[MEM_ADDR], m[MEM_ADDR + 1]) == Word(e.info[0], e.info[1])
    ensures m[CUR_DRV] < 4 ==> Verdict(m) == LoadVerdict(m[DISK_HIGH + m[CUR_DRV]] < 128, e)
  {
    assert m[MEM_ADDR + 4] == e.info[4] && m[MEM_ADDR + 5] == e.info[5];
    assert m[MEM_ADDR + 6] == e.info[6] && m[MEM_ADDR + 7] == e.info[7];
  }

  // A file is refused for want of a disk, if it is longer than 255 sectors, or if it ends
  // beyond the disk; otherwise every byte of it arrives at its load address.
  method LoadFile(b: Beeb, ghost e: Catalogue.Entry) returns (r: Setup)
    requires b.Ready() && b.mem[CUR_DRV] < 4 && HoldsInfo(b.mem[..], e)
    requires CurrentDisk(b.mem[..]) % 32 == 0
    requires LoadVerdict(b.mem[DISK_HIGH + b.mem[CUR_DRV]] < 128, e) == Accepted ==>
      CanReceiveAt(Word(e.info[0], e.info[1]), Catalogue.Length(e))
    modifies b, b.mem, b.avr, b.avr.usb, b.host.reqBuffer, b.host.rspBuffer
    ensures b.Ready()
    ensures r == LoadVerdict(old(b.mem[DISK_HIGH + b.mem[CUR_DRV]] < 128), e)
    ensures r == Accepted ==>
      var (to, n, at) := (Word(e.info[0], e.info[1]), Catalogue.Length(e), 256 * Catalogue.Start(e));
      at + n <= IMAGE_SIZE && b.mem[to..to + n] == b.host.diskImage[at..at + n]
    ensures forall i :: 0 <= i < MEMORY_SIZE && !IsMessageVariable(i) && !IsBlockVariable(i) ==>
      b.mem[i] == old(b.mem[i]) ||
      (r == Accepted && InRegion(i, Word(e.info[0], e.info[1]), Catalogue.Length(e)))
  {
    hide Lockstep.Clean, CanReceiveAt, Verdict, ByteLength, StartSector, CurrentDisk, WireSector, InImage;
    hide Catalogue.Start, Catalogue.Length, HoldsInfo;
    InfoMeans(b.mem[..], e);
    if Verdict(b.mem[..]) == Accepted {
      AcceptedFits(b.mem[..]);
    }
    r := MmcLoadMemBlock(b, Word(e.info[0], e.info[1]), Catalogue.Start(e), Catalogue.Length(e));
  }

  // ---- The disk of module Device ----

  // A block of it is a parameter block that is accepted, for the same bytes.
  lemma BlockMeans(mem: array<byte>, to: nat, n: nat, at: nat)
    requires mem.Length == MEMORY_SIZE && Device.IsBlock(mem, to, n, at)
    requires mem[CUR_DRV] < 4 && mem[DISK_HIGH + mem[CUR_DRV]] < 128
    ensures ByteLength(mem[..]) == n && 256 * StartSector(mem[..]) == at && CanReceiveAt(to, n)
    ensures Word(mem[MEM_ADDR], mem[MEM_ADDR + 1]) == to && Verdict(mem[..]) == Accepted
  {
    PlainBlock(mem[LENGTH_LOW], mem[LENGTH_MID], mem[START_LOW], mem[PACKED]);
    hide Word, Long, Sectors;
  }

  lemma PlainBlock(lo: byte, mid: byte, s: byte, p: byte)
    requires 256 * Word(s, p) + Word(lo, mid) <= Device.DISK_SIZE && Word(lo, mid) < 0x6F01
    ensures Long(lo, mid, p / 16 % 4) == Word(lo, mid) && Word(s, p % 4) == Word(s, p)
    ensures Word(s, p) + Sectors(Word(lo, mid)) <= SECTORS_PER_DISK
  {
    assert p < 4;
  }

  // Its LoadBlock is what mmc_load_mem_block does.
  method LoadBlock(b: Beeb, ghost to: nat, ghost n: nat, ghost at: nat)
    requires b.Ready() && Device.IsBlock(b.mem, to, n, at)
    requires b.mem[CUR_DRV] < 4 && b.mem[DISK_HIGH + b.mem[CUR_DRV]] < 128 && CurrentDisk(b.mem[..]) % 32 == 0
    modifies b, b.mem, b.avr, b.avr.usb, b.host.reqBuffer, b.host.rspBuffer
    ensures b.Ready()
    ensures forall i :: to <= i < to + n ==> b.mem[i] == b.host.diskImage[i - to + at]
    ensures forall i :: 0 <= i < MEMORY_SIZE && !Device.IsDeviceByte(i) && !(to <= i < to + n) ==>
      b.mem[i] == old(b.mem[i])
  {
    hide Lockstep.Clean, CanReceiveAt, Verdict, ByteLength, StartSector, CurrentDisk, WireSector, InImage;
    BlockMeans(b.mem, to, n, at);
    AcceptedFits(b.mem[..]);
    var _ := MmcLoadMemBlock(b, to, StartSector(b.mem[..]), n);
    SliceBytes(b.mem, b.host.diskImage, to, n, at);
  }

  lemma SliceBytes(mem: array<byte>, image: array<byte>, to: nat, n: nat, at: nat)
    requires to + n <= mem.Length && at + n <= image.Length && mem[to..to + n] == image[at..at + n]
    ensures forall i :: to <= i < to + n ==> mem[i] == image[i - to + at]
  {
    forall i | to <= i < to + n
      ensures mem[i] == image[i - to + at]
    {
      assert mem[to..to + n][i - to] == image[at..at + n][i - to];
    }
  }

  // And its LoadPages what mmc_load_cur_drv_cat does.
  method LoadPages(b: Beeb)
    requires b.Ready() && b.mem[CUR_DRV] < 4 && b.mem[DISK_HIGH + b.mem[CUR_DRV]] < 128
    modifies b, b.mem, b.avr, b.avr.usb, b.host.reqBuffer, b.host.rspBuffer
    ensures b.Ready() && Device.PagesOnDisk(b.mem[..], b.host.diskImage[..])
    ensures forall i :: 0 <= i < MEMORY_SIZE && !Device.IsPageByte(i) && !Device.IsDeviceByte(i) ==>
      b.mem[i] == old(b.mem[i])
  {
    hide Lockstep.Clean, CanReceiveAt, DiskNumber;
    b.mem[0x0D20] := b.mem[CUR_DRV];
    var _ := DiskBase(b.mem, b.mem[CUR_DRV]);
    MmcReadCat(b);
    SliceBytes(b.mem, b.host.diskImage, 0x0E00, 512, 0);
    b.mem[0x1082] := b.mem[CUR_DRV];
  }
}
