// A disk that keeps what is written to it, and the catalogue in its first two sectors.

module Device {
  import opened Bytes
  import opened Layout
  import opened Catalogue

  const DISK_SECTORS := 800
  const DISK_SIZE := 204800

  const PAGES := 0x0E00        // the two catalogue pages, sectors 0 and 1 of the disk
  const PAGES_SIZE := 512
  const BLOCK_PAGE := 0xBF     // high byte of a block's address

  // What the routines between the file system and the disk write besides the block: the
  // sector and its counts, the drive last used and the one whose catalogue is in memory, the
  // parameter block of a message and the Tube's address and flag.
  predicate IsDeviceByte(i: int) {
    || 0xA0 <= i <= 0xA7 || i == 0x0D20 || 0x0D42 <= i < 0x0D50
    || 0x1072 <= i <= 0x1075 || i == 0x1082 || i == 0x10D6
  }

  // Their values afterwards are arbitrary.
  method UseDevice(mem: array<byte>)
    requires mem.Length == MEMORY_SIZE
    modifies mem
    ensures forall i :: 0 <= i < MEMORY_SIZE && !IsDeviceByte(i) ==> mem[i] == old(mem[i])
  {
    for i := 0 to MEMORY_SIZE
      invariant forall k :: 0 <= k < MEMORY_SIZE && !IsDeviceByte(k) ==> mem[k] == old(mem[k])
    {
      if IsDeviceByte(i) {
        var any: byte := *;
        mem[i] := any;
      }
    }
  }

  // ---- Blocks ----

  // after is before with n bytes at d replaced by those of buffer from at.
  ghost predicate Stored(before: seq<byte>, after: seq<byte>, d: nat, n: nat, buffer: seq<byte>, at: nat) {
    && |before| == |after| && at + n <= |buffer| && d + n <= |after|
    && forall i {:trigger after[i]} :: 0 <= i < |after| ==>
         after[i] == if d <= i < d + n then buffer[i - d + at] else before[i]
  }

  // A block is given by its address at $be/$bf, its length at $c2/$c3 and its first sector at
  // $c5/$c4. It lies above the file system's variables and below the ROM.
  predicate IsBlock(mem: array<byte>, to: nat, n: nat, at: nat)
    requires mem.Length == MEMORY_SIZE
    reads mem
  {
    && to == Word(mem[LOAD_ADDR], mem[BLOCK_PAGE]) && n == Word(mem[LENGTH_LOW], mem[LENGTH_MID])
    && at == 256 * Word(mem[BASE_LOW], mem[BASE_HIGH])
    && 0x1100 <= to && to + n <= 0x8000 && at + n <= DISK_SIZE
  }

  // mmc_load_mem_block.
  method LoadBlock(mem: array<byte>, disk: array<byte>, ghost to: nat, ghost n: nat, ghost at: nat)
    requires mem.Length == MEMORY_SIZE && disk.Length == DISK_SIZE && mem != disk && IsBlock(mem, to, n, at)
    modifies mem
    ensures forall i :: to <= i < to + n ==> mem[i] == disk[i - to + at]
    ensures forall i :: 0 <= i < MEMORY_SIZE && !IsDeviceByte(i) && !(to <= i < to + n) ==> mem[i] == old(mem[i])
  {
    UseDevice(mem);
    var dst: int, src: int := Word(mem[LOAD_ADDR], mem[BLOCK_PAGE]), 256 * Word(mem[BASE_LOW], mem[BASE_HIGH]);
    var count: int := Word(mem[LENGTH_LOW], mem[LENGTH_MID]);
    forall i | dst <= i < dst + count {
      mem[i] := disk[i - dst + src];
    }
  }

  // mmc_save_mem_block.
  method SaveBlock(mem: array<byte>, disk: array<byte>, ghost from: nat, ghost n: nat, ghost at: nat)
    requires mem.Length == MEMORY_SIZE && disk.Length == DISK_SIZE && mem != disk && IsBlock(mem, from, n, at)
    modifies mem, disk
    ensures Stored(old(disk[..]), disk[..], at, n, old(mem[..]), from)
    ensures forall i :: 0 <= i < MEMORY_SIZE && !IsDeviceByte(i) ==> mem[i] == old(mem[i])
  {
    UseDevice(mem);
    var src: int, dst: int := Word(mem[LOAD_ADDR], mem[BLOCK_PAGE]), 256 * Word(mem[BASE_LOW], mem[BASE_HIGH]);
    var count: int := Word(mem[LENGTH_LOW], mem[LENGTH_MID]);
    forall i | dst <= i < dst + count {
      disk[i] := mem[i - dst + src];
    }
  }

  // ---- The catalogue ----

  // The pages in memory are those on the disk.
  ghost predicate PagesOnDisk(m: seq<byte>, d: seq<byte>) {
    && |m| == MEMORY_SIZE && |d| == DISK_SIZE
    && forall i {:trigger d[i]} :: 0 <= i < PAGES_SIZE ==> d[i] == m[PAGES + i]
  }

  predicate IsPageByte(i: int) { PAGES <= i < PAGES + PAGES_SIZE }

  // Memory with the catalogue pages of a disk.
  function WithPages(m: seq<byte>, d: seq<byte>): (r: seq<byte>)
    requires |m| == MEMORY_SIZE && |d| == DISK_SIZE
    ensures |r| == MEMORY_SIZE && PagesOnDisk(r, d)
  {
    seq(MEMORY_SIZE, i requires 0 <= i < MEMORY_SIZE => if IsPageByte(i) then d[i - PAGES] else m[i])
  }

  method LoadPages(mem: array<byte>, disk: array<byte>)
    requires mem.Length == MEMORY_SIZE && disk.Length == DISK_SIZE && mem != disk
    modifies mem
    ensures PagesOnDisk(mem[..], disk[..])
    ensures forall i :: 0 <= i < MEMORY_SIZE && !IsPageByte(i) && !IsDeviceByte(i) ==> mem[i] == old(mem[i])
  {
    UseDevice(mem);
    forall i | PAGES <= i < PAGES + PAGES_SIZE {
      mem[i] := disk[i - PAGES];
    }
  }

  method WritePages(mem: array<byte>, disk: array<byte>)
    requires mem.Length == MEMORY_SIZE && disk.Length == DISK_SIZE && mem != disk
    modifies mem, disk
    ensures PagesOnDisk(mem[..], disk[..])
    ensures forall i :: 0 <= i < MEMORY_SIZE && !IsDeviceByte(i) ==> mem[i] == old(mem[i])
    ensures forall i :: PAGES_SIZE <= i < DISK_SIZE ==> disk[i] == old(disk[i])
  {
    UseDevice(mem);
    forall i | 0 <= i < PAGES_SIZE {
      disk[i] := mem[PAGES + i];
    }
  }

  // $8ab4: count the change and write the pages.
  method SavePages(mem: array<byte>, disk: array<byte>)
    requires mem.Length == MEMORY_SIZE && disk.Length == DISK_SIZE && mem != disk
    modifies mem, disk
    ensures mem[CYCLE] == NextCycle(old(mem[CYCLE]))
    ensures forall i :: 0 <= i < MEMORY_SIZE && i != CYCLE && !IsDeviceByte(i) ==> mem[i] == old(mem[i])
    ensures PagesOnDisk(mem[..], disk[..])
    ensures forall i :: PAGES_SIZE <= i < DISK_SIZE ==> disk[i] == old(disk[i])
  {
    SaveCatalogue(mem);
    WritePages(mem, disk);
  }

  // Work on variables outside the pages leaves list and disk in step.
  lemma KeepsPages(m: seq<byte>, m': seq<byte>, d: seq<byte>)
    requires IsCatalogue(m) && PagesOnDisk(m, d) && |m'| == MEMORY_SIZE
    requires forall i :: PAGES <= i < PAGES + PAGES_SIZE ==> m'[i] == m[i]
    ensures IsCatalogue(m') && CatalogueOf(m') == CatalogueOf(m) && DiskSize(m') == DiskSize(m)
    ensures PagesOnDisk(m', d)
  {
    SamePages(m, m');
  }

  // Reading the pages again gives the catalogue of the disk, whatever memory held.
  lemma SamePagesRead(m: seq<byte>, m': seq<byte>, d: seq<byte>)
    requires IsCatalogue(m) && PagesOnDisk(m, d) && PagesOnDisk(m', d)
    ensures IsCatalogue(m') && CatalogueOf(m') == CatalogueOf(m) && DiskSize(m') == DiskSize(m)
  {
    forall i | PAGES <= i < PAGES + PAGES_SIZE
      ensures m'[i] == m[i]
    {
      assert d[i - PAGES] == m[i] && d[i - PAGES] == m'[i];
    }
    SamePages(m, m');
  }
}
