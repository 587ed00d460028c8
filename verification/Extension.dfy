// BPUT at the end of the sectors a file owns: the file takes the room up to its upper
// neighbour, or is closed if there is none. The disk keeps what is written to it.

module Extension {
  import opened Bytes
  import opened Layout
  import opened Flags
  import opened Bits
  import opened Catalogue
  import opened CatalogueEdit
  import opened Device

  const CLOSING := 0xB4        // the file a refusal closes
  const FOUND := 0x10C4        // offset of the entry found
  const SAVED_X := 0x10C6
  const SEARCHED := 0x10CE     // and where the search stands

  // PTR is at the end of what the file owns, and EXT is never below PTR nor beyond that end.
  predicate AtEnd(m: seq<byte>, y: byte)
    requires |m| == MEMORY_SIZE && IsOffset(y)
  {
    var ptr := Long(m[FILE_PTR + y], m[FILE_PTR + 1 + y], m[FILE_PTR + 2 + y]);
    var ext := Long(m[EXTENT + y], m[EXTENT + 1 + y], m[EXTENT + 2 + y]);
    var owned := Word(m[ALLOCATED + y], m[ALLOCATED + 1 + y]);
    ptr == 256 * owned && ptr <= ext <= 256 * owned
  }

  // Unless the file has grown since it was opened, which bit 5 of its flags records, EXT is
  // the length in the catalogue.
  predicate Recorded(m: seq<byte>, y: byte, e: Entry)
    requires |m| == MEMORY_SIZE && IsEntry(e) && IsOffset(y)
  {
    !Longer(m[FLAGS + y]) ==> Long(m[EXTENT + y], m[EXTENT + 1 + y], m[EXTENT + 2 + y]) == Length(e)
  }

  // The catalogue in memory and on the disk, with the file as long as its room.
  ghost predicate Grown(m: seq<byte>, d: seq<byte>, cat: seq<Entry>, size: nat, k: nat) {
    && IsCatalogue(m) && DiskSize(m) == size && PagesOnDisk(m, d)
    && WellFormed(cat, size) && k < |cat| && Start(cat[k]) <= Top(cat, size, k)
    && var room := Room(cat, size, k);
    room < 1024 && CatalogueOf(m) == cat[k := WithLength(cat[k], 0, room % 256, room / 256)]
  }

  // Variables of the file system that searching, saving and closing write besides those named.
  predicate IsScratch(i: int) {
    || IsDeviceByte(i) || LOAD_ADDR <= i <= CUR_DRV
    || i == CLOSING || i == CURRENT || i == FOUND || i == SAVED_X || i == SEARCHED
  }

  // ---- The buffer of an open file ----

  function BufferSector(m: seq<byte>, y: byte): nat
    requires |m| == MEMORY_SIZE && IsOffset(y)
  {
    Word(m[BUFFERED + y], m[BUFFERED + 1 + y])
  }

  // What is still to be written lies in one of the sectors from lo up to hi, and the buffer
  // above the handle blocks and below the ROM.
  predicate BufferWithin(m: seq<byte>, y: byte, lo: nat, hi: nat)
    requires |m| == MEMORY_SIZE && IsOffset(y)
  {
    Dirty(m[FLAGS + y]) ==> lo <= BufferSector(m, y) < hi && 0x12 <= m[BUFFER + y] < 0x80
  }

  // A byte of the disk as the file's user sees it: a buffer still to be written hides its
  // sector.
  function Seen(m: seq<byte>, d: seq<byte>, y: byte, i: nat): byte
    requires |m| == MEMORY_SIZE && |d| == DISK_SIZE && IsOffset(y) && i < DISK_SIZE
  {
    var at := 256 * BufferSector(m, y);
    if Dirty(m[FLAGS + y]) && at <= i < at + 256 then m[256 * (m[BUFFER + y] as int) + i - at] else d[i]
  }

  // Outside the catalogue the disk has become what was seen of it.
  ghost predicate Flushed(m: seq<byte>, d: seq<byte>, d': seq<byte>, y: byte) {
    && |m| == MEMORY_SIZE && |d| == |d'| == DISK_SIZE && IsOffset(y)
    && forall i {:trigger d'[i]} :: PAGES_SIZE <= i < DISK_SIZE ==> d'[i] == Seen(m, d, y, i)
  }

  // The handle block and the buffers are as they were.
  ghost predicate SameFile(m: seq<byte>, m': seq<byte>, y: byte) {
    && |m| == |m'| == MEMORY_SIZE && IsOffset(y)
    && forall i :: 0x1100 + y as int <= i < 0x1120 + y as int || 0x1200 <= i < 0x8000 ==> m'[i] == m[i]
  }

  // Work on other variables and on the catalogue leaves what is seen.
  lemma SeenKept(m: seq<byte>, m': seq<byte>, d: seq<byte>, d': seq<byte>, d'': seq<byte>, y: byte)
    requires SameFile(m, m', y) && |d| == |d'| == DISK_SIZE
    requires BufferWithin(m, y, FIRST_SECTOR, DISK_SECTORS) && Flushed(m', d', d'', y)
    requires forall i :: PAGES_SIZE <= i < DISK_SIZE ==> d'[i] == d[i]
    ensures Flushed(m, d, d'', y)
  {
    assert BufferSector(m', y) == BufferSector(m, y);
    forall i {:trigger d''[i]} | PAGES_SIZE <= i < DISK_SIZE
      ensures d''[i] == Seen(m, d, y, i)
    {
      assert d''[i] == Seen(m', d', y, i) && d'[i] == d[i];
    }
  }

  lemma WithinKept(m: seq<byte>, m': seq<byte>, y: byte, lo: nat, hi: nat)
    requires SameFile(m, m', y)
    ensures BufferWithin(m', y, lo, hi) <==> BufferWithin(m, y, lo, hi)
    ensures m'[FLAGS + y] == m[FLAGS + y]
  {
  }

  // file_to_media_y: a changed buffer is written to its sector.
  method FlushBuffer(mem: array<byte>, disk: array<byte>, y: byte)
    requires mem.Length == MEMORY_SIZE && disk.Length == DISK_SIZE && mem != disk && IsOffset(y)
    requires BufferWithin(mem[..], y, FIRST_SECTOR, DISK_SECTORS)
    modifies mem, disk
    ensures Flushed(old(mem[..]), old(disk[..]), disk[..], y) && mem[FLAGS + y] == AndNotBit6(old(mem[FLAGS + y]))
    ensures forall i :: 0 <= i < PAGES_SIZE ==> disk[i] == old(disk[i])
    ensures forall i :: 0 <= i < MEMORY_SIZE && !IsScratch(i) && i != FLAGS + y ==> mem[i] == old(mem[i])
  {
    if Dirty(mem[FLAGS + y]) {
      ghost var m, d := mem[..], disk[..];
      SetBlock(mem, y);
      ghost var b := mem[..];
      SaveBlock(mem, disk, Word(0, m[BUFFER + y]), 256, 256 * BufferSector(m, y));
      WrittenThrough(m, b, d, disk[..], y);
      mem[FLAGS + y] := AndNotBit6(mem[FLAGS + y]);
    }
  }

  // The block of one sector between the buffer and the disk.
  method SetBlock(mem: array<byte>, y: byte)
    requires mem.Length == MEMORY_SIZE && IsOffset(y)
    requires BufferWithin(mem[..], y, FIRST_SECTOR, DISK_SECTORS) && Dirty(mem[FLAGS + y])
    modifies mem
    ensures IsBlock(mem, Word(0, old(mem[BUFFER + y])), 256, 256 * BufferSector(old(mem[..]), y))
    ensures forall i :: 0 <= i < MEMORY_SIZE && !IsScratch(i) ==> mem[i] == old(mem[i])
  {
    mem[0x0D20] := mem[CUR_DRV];
    mem[BLOCK_PAGE] := mem[BUFFER + y];
    mem[TUBE_ADDR], mem[TUBE_ADDR + 1] := 0xFF, 0xFF;
    mem[LOAD_ADDR], mem[LENGTH_LOW], mem[LENGTH_MID] := 0, 0, 1;
    mem[BASE_LOW] := mem[BUFFERED + y];
    mem[BASE_HIGH] := mem[BUFFERED + 1 + y];
  }

  lemma WrittenThrough(m: seq<byte>, b: seq<byte>, d: seq<byte>, d': seq<byte>, y: byte)
    requires |m| == |b| == MEMORY_SIZE && |d| == DISK_SIZE && IsOffset(y)
    requires Dirty(m[FLAGS + y]) && BufferWithin(m, y, FIRST_SECTOR, DISK_SECTORS)
    requires forall i :: 0x1200 <= i < 0x8000 ==> b[i] == m[i]
    requires Stored(d, d', 256 * BufferSector(m, y), 256, b, Word(0, m[BUFFER + y]))
    ensures Flushed(m, d, d', y)
    ensures forall i :: 0 <= i < PAGES_SIZE ==> d'[i] == d[i]
  {
  }

  // ---- Closing ----

  // setup_save_to_media: the file's name, the catalogue, and the entry there.
  method FindEntry(mem: array<byte>, disk: array<byte>, x: byte, y: byte)
    requires mem.Length == MEMORY_SIZE && disk.Length == DISK_SIZE && mem != disk && IsOffset(y)
    modifies mem
    ensures PagesOnDisk(mem[..], disk[..])
    ensures forall i :: 0 <= i < MEMORY_SIZE && !IsPageByte(i) && !IsScratch(i) ==> mem[i] == old(mem[i])
  {
    for j := 7 downto 0
      invariant forall i :: 0 <= i < MEMORY_SIZE && !IsScratch(i) ==> mem[i] == old(mem[i])
    {
      mem[FILENAME + j] := mem[0x1100 + (y as int) + 2 * j];
    }
    LoadPages(mem, disk);
    mem[SEARCHED], mem[FOUND] := x, x;
  }

  // The catalogue read again, and EXT in it if the file has grown.
  ghost predicate Rewritten(m: seq<byte>, m': seq<byte>, d': seq<byte>, cat: seq<Entry>, size: nat, k: nat, y: byte)
    requires IsListing(cat) && k < |cat|
  {
    && |m| == MEMORY_SIZE && IsOffset(y)
    && IsCatalogue(m') && DiskSize(m') == size && PagesOnDisk(m', d')
    && CatalogueOf(m') ==
      if Longer(m[FLAGS + y]) then
        cat[k := WithLength(cat[k], m[EXTENT + y], m[EXTENT + 1 + y], m[EXTENT + 2 + y] % 4)]
      else cat
  }

  method UpdateEntry(mem: array<byte>, disk: array<byte>, x: byte, y: byte,
    ghost k: nat, ghost cat: seq<Entry>, ghost size: nat)
    requires mem.Length == MEMORY_SIZE && disk.Length == DISK_SIZE && mem != disk && IsOffset(y)
    requires IsCatalogue(WithPages(mem[..], disk[..]))
    requires cat == CatalogueOf(WithPages(mem[..], disk[..])) && size == DiskSize(WithPages(mem[..], disk[..]))
    requires k < |cat| && x == 8 * k
    modifies mem, disk
    ensures Rewritten(old(mem[..]), mem[..], disk[..], cat, size, k, y)
    ensures forall i :: 0 <= i < MEMORY_SIZE && !IsPageByte(i) && !IsScratch(i) ==> mem[i] == old(mem[i])
    ensures forall i :: PAGES_SIZE <= i < DISK_SIZE ==> disk[i] == old(disk[i])
  {
    hide CatalogueOf, WithLength, EntryAt, WithPages, DiskSize, PagesOnDisk, Longer;
    ghost var m := WithPages(mem[..], disk[..]);
    FindEntry(mem, disk, x, y);
    SamePagesRead(m, mem[..], disk[..]);
    if Longer(mem[FLAGS + y]) {
      SetLength(mem, x, y, k, cat);
      ghost var m1 := mem[..];
      WritePages(mem, disk);
      SamePages(m1, mem[..]);
    }
  }

  // $8e05: the handle is given up; if the file has changed the catalogue is read again, the
  // length written if the file has grown, and the buffer if that has changed.
  method Close(mem: array<byte>, disk: array<byte>, x: byte, y: byte,
    ghost k: nat, ghost cat: seq<Entry>, ghost size: nat)
    requires mem.Length == MEMORY_SIZE && disk.Length == DISK_SIZE && mem != disk
    requires IsCatalogue(WithPages(mem[..], disk[..]))
    requires cat == CatalogueOf(WithPages(mem[..], disk[..])) && size == DiskSize(WithPages(mem[..], disk[..]))
    requires k < |cat| && x == 8 * k && IsOffset(y) && BufferWithin(mem[..], y, FIRST_SECTOR, DISK_SECTORS)
    modifies mem, disk
    ensures mem[OPEN_FILES] == And(Eor(old(mem[OWN_MASK + y]), 0xFF), old(mem[OPEN_FILES]))
    ensures Flushed(old(mem[..]), old(disk[..]), disk[..], y) && mem[FLAGS + y] == AndNotBit6(old(mem[FLAGS + y]))
    ensures if Touched(old(mem[FLAGS + y])) then Rewritten(old(mem[..]), mem[..], disk[..], cat, size, k, y)
      else
        && (forall i :: PAGES <= i < PAGES + PAGES_SIZE ==> mem[i] == old(mem[i]))
        && disk[..] == old(disk[..])
    ensures forall i :: 0 <= i < MEMORY_SIZE && !IsPageByte(i) && !IsScratch(i) && i != OPEN_FILES ==>
      i != FLAGS + y ==> mem[i] == old(mem[i])
  {
    hide CatalogueOf, WithLength, EntryAt, WithPages, And, Eor, Touched, Flushed, Rewritten, BufferWithin, DiskSize;
    ghost var m, d := mem[..], disk[..];
    var x0: byte := *;
    mem[SAVED_X], mem[CURRENT] := x0, y;
    AndNotByte(mem[OWN_MASK + y], mem[OPEN_FILES], 0);
    mem[OPEN_FILES] := And(Eor(mem[OWN_MASK + y], 0xFF), mem[OPEN_FILES]);
    WithinKept(m, mem[..], y, FIRST_SECTOR, DISK_SECTORS);
    if Touched(mem[FLAGS + y]) {
      mem[DIRECTORY_PARAM], mem[CUR_DRV] := mem[DIRECTORY + y] % 128, mem[FLAGS + y] % 4;
      ghost var m1 := mem[..];
      SamePagesOver(m, m1, d);
      UpdateEntry(mem, disk, x, y, k, cat, size);
      ghost var m2, d2 := mem[..], disk[..];
      WithinKept(m, m2, y, FIRST_SECTOR, DISK_SECTORS);
      FlushBuffer(mem, disk, y);
      SeenKept(m, m2, d, d2, disk[..], y);
      StillRewritten(m, m1, m2, mem[..], d2, disk[..], cat, size, k, y);
    } else {
      NothingToWrite(m, d, y);
    }
  }

  lemma NothingToWrite(m: seq<byte>, d: seq<byte>, y: byte)
    requires |m| == MEMORY_SIZE && |d| == DISK_SIZE && IsOffset(y) && !Touched(m[FLAGS + y])
    ensures Flushed(m, d, d, y) && AndNotBit6(m[FLAGS + y]) == m[FLAGS + y]
  {
    TouchedBits(m[FLAGS + y]);
  }

  lemma StillRewritten(m: seq<byte>, m1: seq<byte>, m2: seq<byte>, m': seq<byte>, d2: seq<byte>, d': seq<byte>,
    cat: seq<Entry>, size: nat, k: nat, y: byte)
    requires IsListing(cat) && k < |cat| && SameFile(m, m1, y) && Rewritten(m1, m2, d2, cat, size, k, y)
    requires |m'| == MEMORY_SIZE && |d'| == DISK_SIZE
    requires forall i :: PAGES <= i < PAGES + PAGES_SIZE ==> m'[i] == m2[i]
    requires forall i :: 0 <= i < PAGES_SIZE ==> d'[i] == d2[i]
    ensures Rewritten(m, m', d', cat, size, k, y)
  {
    hide WithLength, Longer;
    SamePages(m2, m');
  }

  // Reading the pages over other variables gives the same catalogue.
  lemma SamePagesOver(m: seq<byte>, m': seq<byte>, d: seq<byte>)
    requires |m| == |m'| == MEMORY_SIZE && |d| == DISK_SIZE && IsCatalogue(WithPages(m, d))
    ensures var (r, r') := (WithPages(m, d), WithPages(m', d));
      IsCatalogue(r') && CatalogueOf(r') == CatalogueOf(r) && DiskSize(r') == DiskSize(r)
  {
    SamePagesRead(WithPages(m, d), WithPages(m', d), d);
  }

  // EXT at the end of the room, in bytes.
  lemma WholeRoom(m: seq<byte>, y: byte, room: nat)
    requires |m| == MEMORY_SIZE && IsOffset(y) && AtEnd(m, y)
    requires Word(m[ALLOCATED + y], m[ALLOCATED + 1 + y]) == room < 1024
    ensures m[EXTENT + y] == 0 && m[EXTENT + 1 + y] == room % 256 && m[EXTENT + 2 + y] == room / 256 < 4
    ensures Long(m[EXTENT + y], m[EXTENT + 1 + y], m[EXTENT + 2 + y]) == 256 * room
  {
    var lo, mid, hi := m[EXTENT + y], m[EXTENT + 1 + y], m[EXTENT + 2 + y];
    NoLowByte(lo, room - Word(mid, hi));
    WordBytes(mid, hi);
  }

  lemma NoLowByte(lo: byte, t: int)
    requires lo == 256 * t
    ensures lo == 0 && t == 0
  {
  }

  lemma SameLength(e: Entry, lo: byte, mid: byte, hi: byte)
    requires IsEntry(e) && hi < 4 && Length(e) == Long(lo, mid, hi)
    ensures WithLength(e, lo, mid, hi) == e
  {
    LongBytes(lo, mid, hi);
    LongBytes(e.info[4], e.info[5], e.info[6] / 16 % 4);
    SameBits(e.info[6]);
    HighByte(lo, mid, hi, e.info[4], e.info[5], e.info[6] / 16 % 4);
    hide LengthBits, Long;
    assert e.info[4 := lo][5 := mid][6 := e.info[6]] == e.info;
  }

  lemma SameBits(p: byte)
    ensures LengthBits(p, p / 16 % 4) == p
  {
  }

  lemma HighByte(lo: byte, mid: byte, hi: byte, lo': byte, mid': byte, hi': byte)
    requires Long(lo, mid, hi) == Long(lo', mid', hi')
    ensures hi == hi'
  {
  }

  // What a refused extension has stored in memory.
  ghost predicate Refused(m: seq<byte>, m': seq<byte>, cat: seq<Entry>, size: nat, k: nat) {
    && IsCatalogue(m) && cat == CatalogueOf(m) && size == DiskSize(m) && WellFormed(cat, size) && k < |cat|
    && Start(cat[k]) <= Top(cat, size, k) && Room(cat, size, k) < 1024
    && IsCatalogue(m') && DiskSize(m') == size
    && var n := Length(cat[k]);
    && CatalogueOf(m') == cat[k := WithLength(cat[k], n % 256, n / 256 % 256, Room(cat, size, k) / 256)]
    && forall i :: PAGES <= i < PAGES + PAGES_SIZE && !(INFO + 4 + 8 * k <= i <= INFO + 6 + 8 * k) ==> m'[i] == m[i]
  }

  // In a file that has not grown it was there already.
  lemma NothingStored(m: seq<byte>, m': seq<byte>, d: seq<byte>, cat: seq<Entry>, size: nat, k: nat)
    requires Refused(m, m', cat, size, k) && PagesOnDisk(m, d)
    requires Length(cat[k]) == 256 * Room(cat, size, k)
    ensures Grown(m', d, cat, size, k)
  {
    hide Length, Start, WellFormed, WithLength;
    var room := Room(cat, size, k);
    LongRoom(room);
    SameLength(cat[k], 0, room % 256, room / 256);
    assert EntryAt(m', k) == CatalogueOf(m')[k] == cat[k] == EntryAt(m, k);
    forall i {:trigger d[i]} | 0 <= i < PAGES_SIZE
      ensures d[i] == m'[PAGES + i]
    {
      if INFO + 4 + 8 * k <= PAGES + i <= INFO + 6 + 8 * k {
        var j := PAGES + i - INFO - 8 * k;
        assert EntryAt(m', k).info[j] == EntryAt(m, k).info[j];
      }
    }
  }

  lemma LongRoom(room: nat)
    requires room < 1024
    ensures Long(0, room % 256, room / 256) == 256 * room
    ensures 256 * room % 256 == 0 && 256 * room / 256 % 256 == room % 256
  {
  }

  // Nor does giving up the handle change it.
  lemma RefusedLater(m: seq<byte>, m1: seq<byte>, m': seq<byte>, cat: seq<Entry>, size: nat, k: nat)
    requires Refused(m, m1, cat, size, k) && |m'| == MEMORY_SIZE
    requires forall i :: PAGES <= i < PAGES + PAGES_SIZE ==> m'[i] == m1[i]
    ensures Refused(m, m', cat, size, k)
  {
    hide WithLength, WellFormed, Start, Length;
    SamePages(m1, m');
  }

  // What the close after a refusal finds.
  lemma RefusedFrom(m: seq<byte>, m1: seq<byte>, d: seq<byte>, cat: seq<Entry>, size: nat, k: nat, y: byte)
    requires Refused(m, m1, cat, size, k) && PagesOnDisk(m, d)
    requires IsOffset(y) && AtEnd(m1, y) && Recorded(m1, y, cat[k])
    requires Word(m1[ALLOCATED + y], m1[ALLOCATED + 1 + y]) == Room(cat, size, k)
    ensures |d| == DISK_SIZE
    ensures var r := WithPages(m1, d);
      IsCatalogue(r) && CatalogueOf(r) == cat && DiskSize(r) == size
    ensures var room := Room(cat, size, k);
      m1[EXTENT + y] == 0 && m1[EXTENT + 1 + y] == room % 256 && m1[EXTENT + 2 + y] == room / 256 < 4
    ensures !Longer(m1[FLAGS + y]) ==> Length(cat[k]) == 256 * Room(cat, size, k)
    ensures WellFormed(cat, size) && k < |cat| && Start(cat[k]) <= Top(cat, size, k) && Room(cat, size, k) < 1024
  {
    hide CatalogueOf, WithLength, WithPages, WellFormed, Start, Length, DiskSize;
    WholeRoom(m1, y, Room(cat, size, k));
    SamePagesRead(m, WithPages(m1, d), d);
  }

  // If the buffer belongs to a file in sectors lo to hi, no data outside them changes.
  lemma OthersKept(m: seq<byte>, d: seq<byte>, d': seq<byte>, y: byte, lo: nat, hi: nat)
    requires Flushed(m, d, d', y) && BufferWithin(m, y, lo, hi)
    ensures OnlyWithin(d, d', lo, hi)
  {
    var s := BufferSector(m, y);
    forall i {:trigger d'[i]} | PAGES_SIZE <= i < DISK_SIZE && !(256 * lo <= i < 256 * hi)
      ensures d'[i] == d[i]
    {
      assert d'[i] == Seen(m, d, y, i);
      if Dirty(m[FLAGS + y]) {
        assert 256 * lo <= 256 * s && 256 * s + 256 <= 256 * hi;
      }
    }
  }

  ghost predicate OnlyWithin(d: seq<byte>, d': seq<byte>, lo: nat, hi: nat) {
    && |d| == |d'| == DISK_SIZE
    && forall i {:trigger d'[i]} :: PAGES_SIZE <= i < DISK_SIZE && !(256 * lo <= i < 256 * hi) ==> d'[i] == d[i]
  }

  // After a refusal the file is closed. What was stored in memory is read over from the disk
  // if the file has changed, and was there already if it has not.
  method CloseRefused(mem: array<byte>, disk: array<byte>, x: byte, y: byte,
    ghost m: seq<byte>, ghost k: nat, ghost cat: seq<Entry>, ghost size: nat)
    requires mem.Length == MEMORY_SIZE && disk.Length == DISK_SIZE && mem != disk
    requires Refused(m, mem[..], cat, size, k) && PagesOnDisk(m, disk[..])
    requires x == 8 * k && IsOffset(y) && BufferWithin(mem[..], y, FIRST_SECTOR, DISK_SECTORS)
    requires AtEnd(mem[..], y) && Recorded(mem[..], y, cat[k])
    requires Word(mem[ALLOCATED + y], mem[ALLOCATED + 1 + y]) == Room(cat, size, k)
    modifies mem, disk
    ensures Grown(mem[..], disk[..], cat, size, k)
    ensures Flushed(old(mem[..]), old(disk[..]), disk[..], y) && mem[FLAGS + y] == AndNotBit6(old(mem[FLAGS + y]))
    ensures mem[OPEN_FILES] == And(Eor(old(mem[OWN_MASK + y]), 0xFF), old(mem[OPEN_FILES]))
    ensures forall i :: 0 <= i < MEMORY_SIZE && !IsPageByte(i) && !IsScratch(i) && i != OPEN_FILES ==>
      i != FLAGS + y ==> mem[i] == old(mem[i])
  {
    hide CatalogueOf, WithLength, WithPages, And, Eor, WellFormed, Start, Length, Grown, DiskSize, PagesOnDisk,
      Refused, AtEnd, Recorded, Longer, Touched, Room, Word, Long, EntryAt, Rewritten, Flushed, BufferWithin;
    ghost var m1, d := mem[..], disk[..];
    RefusedFrom(m, m1, d, cat, size, k, y);
    Close(mem, disk, x, y, k, cat, size);
    if Touched(m1[FLAGS + y]) {
      GrownByClose(m1, mem[..], disk[..], cat, size, k, y);
    } else {
      RefusedLater(m, m1, mem[..], cat, size, k);
      TouchedBits(m1[FLAGS + y]);
      NothingStored(m, mem[..], d, cat, size, k);
    }
  }

  lemma GrownByClose(m: seq<byte>, m': seq<byte>, d': seq<byte>, cat: seq<Entry>, size: nat, k: nat, y: byte)
    requires IsListing(cat) && k < |cat| && Rewritten(m, m', d', cat, size, k, y)
    requires WellFormed(cat, size) && Start(cat[k]) <= Top(cat, size, k) && Room(cat, size, k) < 1024
    requires var room := Room(cat, size, k);
      m[EXTENT + y] == 0 && m[EXTENT + 1 + y] == room % 256 && m[EXTENT + 2 + y] == room / 256 < 4
    requires !Longer(m[FLAGS + y]) ==> Length(cat[k]) == 256 * Room(cat, size, k)
    ensures Grown(m', d', cat, size, k)
  {
    hide Length, Start, WellFormed, WithLength, CatalogueOf, PagesOnDisk, DiskSize, Longer;
    var room := Room(cat, size, k);
    if !Longer(m[FLAGS + y]) {
      LongRoom(room);
      SameLength(cat[k], 0, room % 256, room / 256);
      assert cat[k := cat[k]] == cat;
    }
  }

  lemma GrownKeeps(m: seq<byte>, d: seq<byte>, cat: seq<Entry>, size: nat, k: nat)
    requires Grown(m, d, cat, size, k)
    ensures IsCatalogue(m) && WellFormed(CatalogueOf(m), size)
  {
    ExtendKeeps(cat, size, k);
  }

  // The entry is found and the room asked for; m is memory with the catalogue just read.
  method Ask(mem: array<byte>, disk: array<byte>, x: byte, y: byte,
    ghost k: nat, ghost cat: seq<Entry>, ghost size: nat) returns (ok: bool, ghost m: seq<byte>)
    requires mem.Length == MEMORY_SIZE && disk.Length == DISK_SIZE && mem != disk
    requires IsCatalogue(WithPages(mem[..], disk[..]))
    requires cat == CatalogueOf(WithPages(mem[..], disk[..])) && size == DiskSize(WithPages(mem[..], disk[..]))
    requires WellFormed(cat, size) && k < |cat| && x == 8 * k && IsOffset(y)
    modifies mem
    ensures Start(cat[k]) <= Top(cat, size, k) && PagesOnDisk(m, disk[..])
    ensures ok == (Room(cat, size, k) != old(Word(mem[ALLOCATED + y], mem[ALLOCATED + 1 + y])))
    ensures var room := Room(cat, size, k);
      if ok then
        && IsCatalogue(mem[..]) && DiskSize(mem[..]) == size && room < 1024
        && CatalogueOf(mem[..]) == cat[k := WithLength(cat[k], 0, room % 256, room / 256)]
        && Word(mem[ALLOCATED + y], mem[ALLOCATED + 1 + y]) == room
      else Refused(m, mem[..], cat, size, k) && SameFile(old(mem[..]), mem[..], y)
    ensures forall i :: 0 <= i < MEMORY_SIZE && !IsPageByte(i) && !IsScratch(i) && !IsExtendVariable(i, y) ==>
      mem[i] == old(mem[i])
  {
    hide CatalogueOf, WithLength, EntryAt, WithPages, WellFormed, Start, Length, PagesOnDisk, DiskSize;
    ghost var m0 := mem[..];
    FindEntry(mem, disk, x, y);
    SamePagesRead(WithPages(m0, disk[..]), mem[..], disk[..]);
    m := mem[..];
    ok := Extend(mem, x, y, k, cat, size);
  }

  method SaveGrown(mem: array<byte>, disk: array<byte>, ghost cat: seq<Entry>, ghost size: nat, ghost k: nat)
    requires mem.Length == MEMORY_SIZE && disk.Length == DISK_SIZE && mem != disk
    requires IsCatalogue(mem[..]) && DiskSize(mem[..]) == size
    requires WellFormed(cat, size) && k < |cat| && Start(cat[k]) <= Top(cat, size, k) && Room(cat, size, k) < 1024
    requires var room := Room(cat, size, k);
      CatalogueOf(mem[..]) == cat[k := WithLength(cat[k], 0, room % 256, room / 256)]
    modifies mem, disk
    ensures Grown(mem[..], disk[..], cat, size, k)
    ensures forall i :: 0 <= i < MEMORY_SIZE && !IsDeviceByte(i) ==> mem[i] == old(mem[i])
    ensures forall i :: PAGES_SIZE <= i < DISK_SIZE ==> disk[i] == old(disk[i])
  {
    hide CatalogueOf, WithLength, WellFormed, Start;
    ghost var m := mem[..];
    WritePages(mem, disk);
    SamePages(m, mem[..]);
  }

  // $91c7: BPUT to a file that is full. Granted or refused, the catalogue gives the file all
  // the room there is, is sound, and is the one on the disk; and nothing put into the file
  // before is lost.
  method BputExtend(mem: array<byte>, disk: array<byte>, x: byte, y: byte,
    ghost k: nat, ghost cat: seq<Entry>, ghost size: nat) returns (ok: bool)
    requires mem.Length == MEMORY_SIZE && disk.Length == DISK_SIZE && mem != disk
    requires IsCatalogue(WithPages(mem[..], disk[..]))
    requires cat == CatalogueOf(WithPages(mem[..], disk[..])) && size == DiskSize(WithPages(mem[..], disk[..]))
    requires WellFormed(cat, size) && k < |cat| && x == 8 * k && IsOffset(y)
    requires AtEnd(mem[..], y) && Recorded(mem[..], y, cat[k])
    requires BufferWithin(mem[..], y, FIRST_SECTOR, DISK_SECTORS)
    modifies mem, disk
    ensures Grown(mem[..], disk[..], cat, size, k)
    ensures WellFormed(CatalogueOf(mem[..]), size)
    ensures ok == (Room(cat, size, k) != old(Word(mem[ALLOCATED + y], mem[ALLOCATED + 1 + y])))
    ensures ok ==> Word(mem[ALLOCATED + y], mem[ALLOCATED + 1 + y]) == Room(cat, size, k)
    ensures mem[OPEN_FILES] ==
      if ok then old(mem[OPEN_FILES]) else And(Eor(old(mem[OWN_MASK + y]), 0xFF), old(mem[OPEN_FILES]))
    ensures mem[FLAGS + y] == if ok then old(mem[FLAGS + y]) else AndNotBit6(old(mem[FLAGS + y]))
    ensures if ok then forall i :: PAGES_SIZE <= i < DISK_SIZE ==> disk[i] == old(disk[i])
      else Flushed(old(mem[..]), old(disk[..]), disk[..], y)
    ensures old(BufferWithin(mem[..], y, Start(cat[k]), Top(cat, size, k))) ==>
      OnlyWithin(old(disk[..]), disk[..], Start(cat[k]), Top(cat, size, k))
    ensures forall i :: 0 <= i < MEMORY_SIZE && !IsPageByte(i) && !IsScratch(i) && i != OPEN_FILES && i != FLAGS + y ==>
      !IsExtendVariable(i, y) ==> mem[i] == old(mem[i])
  {
    hide CatalogueOf, WithLength, EntryAt, WithPages, And, Eor, WellFormed, Start, Length, Grown, Flushed, BufferWithin,
      PagesOnDisk, DiskSize, Refused, Longer;
    ghost var m0, d0 := mem[..], disk[..];
    ghost var m;
    ok, m := Ask(mem, disk, x, y, k, cat, size);
    if ok {
      SaveGrown(mem, disk, cat, size, k);
    } else {
      ghost var m2 := mem[..];
      mem[CLOSING] := y;
      ghost var m1 := mem[..];
      RefusedLater(m, m2, m1, cat, size, k);
      WithinKept(m0, m1, y, FIRST_SECTOR, DISK_SECTORS);
      CloseRefused(mem, disk, x, y, m, k, cat, size);
      SeenKept(m0, m1, d0, d0, disk[..], y);
      if BufferWithin(m0, y, Start(cat[k]), Top(cat, size, k)) {
        OthersKept(m0, d0, disk[..], y, Start(cat[k]), Top(cat, size, k));
      }
    }
    GrownKeeps(mem[..], disk[..], cat, size, k);
  }
}
