// OSFIND for input, from the point where the catalogue entry and a free handle have
// been found: the handle describes the file, and reading it to the end gives its bytes.

module Opening {
  import Catalogue
  import opened Bits
  import opened Bytes
  import opened Layout
  import opened Flags
  import opened Server
  import opened Blocks
  import opened Channels
  import opened Reading

  const FREE_MASK := 0x10C1
  const COPY_COUNT := 0x10C5

  // ---- The mask of open files ----

  // The masks are single bits.
  lemma {:induction false} MaskPower(n: nat)
    requires 1 <= n <= 8
    ensures MaskOf(n) == Pow2(8 - n)
  {
    if n == 1 {
      assert Pow2(3) == 8;
      assert Pow2(5) == 32;
      assert Pow2(7) == 128;
    } else {
      MaskPower(n - 1);
    }
  }

  lemma MaskBits(n: nat, k: nat)
    requires 1 <= n < 8 && 1 <= k < 8
    ensures if n == k then And(MaskOf(n), MaskOf(k)) > 0 else And(MaskOf(n), MaskOf(k)) == 0
  {
    MaskPower(n);
    MaskPower(k);
    AndPowers(8 - n, 8 - k);
  }

  // With the bit of file y set, the others are as before.
  lemma BitSet(mask: byte, n: nat, k: nat)
    requires 1 <= n < 8 && 1 <= k < 8
    ensures And(Or(mask, MaskOf(n)), MaskOf(k)) != 0 <==> n == k || And(mask, MaskOf(k)) != 0
  {
    AndOr(mask, MaskOf(n), MaskOf(k));
    MaskBits(n, k);
    if n == k {
      OrSome(And(mask, MaskOf(k)), And(MaskOf(n), MaskOf(k)));
    } else {
      OrZero(And(mask, MaskOf(k)));
    }
  }

  // ---- The handle block ----

  // Character j of the name in a handle block; byte j of the catalogue information
  // follows it.
  function Pair(y: byte, j: nat): nat { 0x1100 + y + 2 * j }

  // Interleave the two halves of the catalogue entry at x into the block at y.
  method CopyEntry(mem: array<byte>, x: byte, y: byte)
    requires mem.Length == MEMORY_SIZE && x <= 240 && IsOffset(y)
    modifies mem
    ensures forall j {:trigger Pair(y, j)} :: 0 <= j < 8 ==>
      mem[Pair(y, j)] == old(mem[NAMES + x + j]) && mem[Pair(y, j) + 1] == old(mem[INFO + x + j])
    ensures forall i :: 0 <= i < MEMORY_SIZE && !(0x1100 + y <= i < 0x1110 + y) && i != COPY_COUNT ==>
      mem[i] == old(mem[i])
  {
    var u, v := x, y;
    ghost var k := 0;
    mem[COPY_COUNT] := 8;
    while mem[COPY_COUNT] != 0
      invariant mem[COPY_COUNT] == 8 - k && 0 <= k <= 8 && u == x + k && v == y + 2 * k
      invariant forall j {:trigger Pair(y, j)} :: 0 <= j < k ==>
        mem[Pair(y, j)] == old(mem[NAMES + x + j]) && mem[Pair(y, j) + 1] == old(mem[INFO + x + j])
      invariant forall i :: 0 <= i < MEMORY_SIZE && !(0x1100 + y <= i < 0x1110 + y) && i != COPY_COUNT ==>
        mem[i] == old(mem[i])
      decreases mem[COPY_COUNT]
    {
      assert Pair(y, k) - 0x1100 == v;
      mem[0x1100 + v] := mem[NAMES + u];
      v := Inc(v);
      mem[0x1100 + v] := mem[INFO + u];
      v, u := Inc(v), Inc(u);
      mem[COPY_COUNT] := Dec(mem[COPY_COUNT]);
      k := k + 1;
    }
  }

  // The rest of the block starts at zero.
  method ClearRest(mem: array<byte>, y: byte)
    requires mem.Length == MEMORY_SIZE && IsOffset(y)
    modifies mem
    ensures forall i :: FILE_PTR + y <= i < FILE_PTR + 16 + y ==> mem[i] == 0
    ensures forall i :: 0 <= i < MEMORY_SIZE && !(FILE_PTR + y <= i < FILE_PTR + 16 + y) ==> mem[i] == old(mem[i])
  {
    var v: byte := y + 16;
    var x: byte := 16;
    while x != 0
      invariant x <= 16 && v == y + 32 - x
      invariant forall i :: FILE_PTR + y <= i < 0x1100 + v ==> mem[i] == 0
      invariant forall i :: 0 <= i < MEMORY_SIZE && !(FILE_PTR + y <= i < FILE_PTR + 16 + y) ==> mem[i] == old(mem[i])
      decreases x
    {
      mem[0x1100 + v] := 0;
      v, x := Inc(v), Dec(x);
    }
  }

  // Sectors allocated: the length in sectors, rounded up.
  method StoreAllocated(mem: array<byte>, y: byte, ghost n: nat)
    requires mem.Length == MEMORY_SIZE && IsOffset(y)
    requires n == Long(mem[Pair(y, 4) + 1], mem[Pair(y, 5) + 1], mem[Pair(y, 6) + 1] / 16 % 4) && Sectors(n) < 1024
    modifies mem
    ensures Word(mem[ALLOCATED + y], mem[ALLOCATED + 1 + y]) == Sectors(n)
    ensures forall i :: 0 <= i < MEMORY_SIZE && i != ALLOCATED + y && i != ALLOCATED + 1 + y ==> mem[i] == old(mem[i])
  {
    RoundedUp(mem[Pair(y, 4) + 1], mem[Pair(y, 5) + 1], mem[Pair(y, 6) + 1]);
    var (_, c) := Adc(mem[0x1109 + y], 0xFF, 0);
    var (lo, c') := Adc(mem[0x110B + y], 0, c);
    mem[ALLOCATED + y] := lo;
    var (hi, _) := Adc(OrNibble(mem[0x110D + y]), 0, c');
    mem[ALLOCATED + 1 + y] := hi / 16 % 4;
  }

  function OrNibble(v: byte): (r: byte)   // ORA #$0F
    ensures r / 16 == v / 16 && r % 16 == 15
  {
    assert v == 16 * (v / 16) + v % 16;
    v - v % 16 + 15
  }

  lemma PartSector(lo: byte, w: nat)
    ensures Sectors(256 * w + lo) == if lo > 0 then w + 1 else w
  {
  }

  lemma NibbleCarry(packed: byte, d: bit)
    requires packed / 16 % 4 + d < 4
    ensures Adc(OrNibble(packed), 0, d).0 / 16 % 4 == packed / 16 % 4 + d
  {
  }

  // Adding $ff to the low byte carries exactly if it is not zero; ORA #$0f lets the
  // carry into the low nibble pass to the high one.
  lemma RoundedUp(lo: byte, mid: byte, packed: byte)
    requires Sectors(Long(lo, mid, packed / 16 % 4)) < 1024
    ensures var c := Adc(lo, 0xFF, 0).1;
      var (m, d) := Adc(mid, 0, c);
      Word(m, Adc(OrNibble(packed), 0, d).0 / 16 % 4) == Sectors(Long(lo, mid, packed / 16 % 4))
  {
    var h := packed / 16 % 4;
    var (m, d) := Adc(mid, 0, Adc(lo, 0xFF, 0).1);
    PartSector(lo, Word(mid, h));
    assert Long(lo, mid, h) == 256 * Word(mid, h) + lo;
    NibbleCarry(packed, d);
    hide OrNibble, Sectors;
  }

  // The block of a file just opened for input.
  function OpenedBlock(e: Catalogue.Entry, y: byte, drive: byte): Block
    requires Catalogue.IsEntry(e)
  {
    Block(Catalogue.Start(e), Catalogue.Length(e), 0, PageOf(y), drive, 0, true)
  }

  // The catalogue fields a block holds, and zeros after them.
  ghost predicate Copied(m: seq<byte>, y: byte, e: Catalogue.Entry)
    requires |m| == MEMORY_SIZE && Catalogue.IsEntry(e)
  {
    && Word(m[FILE_START + y], m[START_PACKED + y] % 4) == Catalogue.Start(e)
    && Long(m[0x1109 + y], m[0x110B + y], m[START_PACKED + y] / 16 % 4) == Catalogue.Length(e)
  }

  method CopyBlock(mem: array<byte>, x: byte, y: byte, ghost k: nat, ghost e: Catalogue.Entry)
    requires mem.Length == MEMORY_SIZE && IsOffset(y) && x == 8 * k && k < MAX_FILES
    requires e == Catalogue.EntryAt(mem[..], k)
    modifies mem
    ensures Copied(mem[..], y, e)
    ensures forall j {:trigger Pair(y, j)} :: 0 <= j < 8 ==> mem[Pair(y, j)] == e.name[j]
    ensures forall i :: FILE_PTR + y <= i < FILE_PTR + 16 + y ==> mem[i] == 0
    ensures forall i :: 0 <= i < MEMORY_SIZE && !(0x1100 + y <= i < 0x1120 + y) && i != COPY_COUNT ==>
      mem[i] == old(mem[i])
  {
    EntryFields(mem[..], k, e);
    ghost var m := mem[..];
    CopyEntry(mem, x, y);
    PairsAt(y);
    assert mem[Pair(y, 4) + 1] == m[INFO + x + 4] && mem[Pair(y, 5) + 1] == m[INFO + x + 5];
    assert mem[Pair(y, 6) + 1] == m[INFO + x + 6] && mem[Pair(y, 7) + 1] == m[INFO + x + 7];
    ClearRest(mem, y);
  }

  lemma PairsAt(y: byte)
    ensures Pair(y, 4) - 0x1108 == y && Pair(y, 5) - 0x110A == y
    ensures Pair(y, 6) - 0x110C == y && Pair(y, 7) - 0x110E == y
  {
  }

  // The buffer page, and the handle's bit in the mask of open files.
  method ClaimHandle(mem: array<byte>, y: byte)
    requires mem.Length == MEMORY_SIZE && IsOffset(y)
    modifies mem
    ensures mem[BUFFER + y] == PageOf(y)
    ensures mem[OPEN_FILES] == Or(old(mem[OPEN_FILES]), old(mem[FREE_MASK])) && mem[OWN_MASK + y] == old(mem[FREE_MASK])
    ensures forall i :: 0 <= i < MEMORY_SIZE && i != BUFFER + y && i != OWN_MASK + y && i != OPEN_FILES ==>
      mem[i] == old(mem[i])
  {
    hide Or;
    mem[BUFFER + y] := y / 32 + 0x11;
    mem[OWN_MASK + y] := mem[FREE_MASK];
    OrByte(mem[FREE_MASK], mem[OPEN_FILES]);
    OrOrder(mem[FREE_MASK], mem[OPEN_FILES]);
    mem[OPEN_FILES] := Or(mem[FREE_MASK], mem[OPEN_FILES]);
  }

  // Open for input: read-only, EXT the length, and the drive in the flags.
  method SetExtent(mem: array<byte>, y: byte)
    requires mem.Length == MEMORY_SIZE && IsOffset(y)
    modifies mem
    ensures Long(mem[EXTENT + y], mem[EXTENT + 1 + y], mem[EXTENT + 2 + y])
         == old(Long(mem[0x1109 + y], mem[0x110B + y], mem[START_PACKED + y] / 16 % 4))
    ensures mem[FLAGS + y] == old(mem[CUR_DRV]) && mem[READ_ONLY + y] == OrBit7(old(mem[READ_ONLY + y]))
    ensures forall i :: 0 <= i < MEMORY_SIZE && i != READ_ONLY + y && !(EXTENT + y <= i <= FLAGS + y) ==>
      mem[i] == old(mem[i])
  {
    mem[READ_ONLY + y] := OrBit7(mem[READ_ONLY + y]);
    mem[EXTENT + y] := mem[0x1109 + y];
    mem[EXTENT + 1 + y] := mem[0x110B + y];
    mem[EXTENT + 2 + y] := mem[START_PACKED + y] / 16 % 4;
    mem[FLAGS + y] := mem[CUR_DRV];
  }

  // $8f0b: fill in the block at y for the catalogue entry at x and mark the handle used.
  method OpenInput(mem: array<byte>, x: byte, y: byte, ghost k: nat, ghost e: Catalogue.Entry) returns (handle: byte)
    requires mem.Length == MEMORY_SIZE && IsOffset(y) && x == 8 * k && k < MAX_FILES
    requires e == Catalogue.EntryAt(mem[..], k) && Sectors(Catalogue.Length(e)) < 1024
    modifies mem
    ensures OffsetOf(handle) == y
    ensures BlockOf(mem[..], y) == OpenedBlock(e, y, mem[CUR_DRV])
    ensures Word(mem[ALLOCATED + y], mem[ALLOCATED + 1 + y]) == Sectors(Catalogue.Length(e))
    ensures mem[OPEN_FILES] == Or(old(mem[OPEN_FILES]), old(mem[FREE_MASK])) && mem[OWN_MASK + y] == old(mem[FREE_MASK])
    ensures forall j {:trigger Pair(y, j)} :: 0 <= j < 8 && j != 6 ==> mem[Pair(y, j)] == e.name[j]
    ensures mem[READ_ONLY + y] == OrBit7(e.name[6])
    ensures forall i :: 0 <= i < MEMORY_SIZE && !(0x1100 + y <= i < 0x1120 + y) && i != COPY_COUNT ==>
      i != OPEN_FILES ==>
      mem[i] == old(mem[i])
  {
    hide Or, Word, Long, Catalogue.Start, Catalogue.Length, Catalogue.EntryAt, Sectors;
    PairsAt(y);
    CopyBlock(mem, x, y, k, e);
    ClaimHandle(mem, y);
    StoreAllocated(mem, y, Catalogue.Length(e));
    SetExtent(mem, y);
    NothingYet();
    handle := y / 32 + 0x10;
  }

  lemma NothingYet()
    ensures Long(0, 0, 0) == 0 && Word(0, 0) == 0
  {
  }

  lemma {:induction false} OrOrder(a: nat, b: nat)
    ensures Or(a, b) == Or(b, a)
    decreases a + b
  {
    if a != 0 || b != 0 {
      OrOrder(a / 2, b / 2);
    }
  }

  lemma EntryFields(m: seq<byte>, k: nat, e: Catalogue.Entry)
    requires |m| == MEMORY_SIZE && k < MAX_FILES && e == Catalogue.EntryAt(m, k)
    ensures var x := 8 * k;
      && Catalogue.Start(e) == Word(m[INFO + x + 7], m[INFO + x + 6] % 4)
      && Catalogue.Length(e) == Long(m[INFO + x + 4], m[INFO + x + 5], m[INFO + x + 6] / 16 % 4)
  {
  }

  // ---- The open files ----

  function FileOf(e: Catalogue.Entry): File
    requires Catalogue.IsEntry(e)
  {
    File(Catalogue.Start(e), Catalogue.Length(e), 0, false)
  }

  // Only the block at y, its bit, and scratch variables have changed.
  ghost predicate OnlyOpened(m: seq<byte>, m': seq<byte>, y: byte) {
    && |m| == |m'| == MEMORY_SIZE
    && (forall i :: 0 <= i < MEMORY_SIZE && !(0x1100 + y <= i < 0x1120 + y) && i != COPY_COUNT && i != OPEN_FILES ==>
      m'[i] == m[i])
  }

  lemma OpenedHandle(m: seq<byte>, image: seq<byte>, y: byte, e: Catalogue.Entry, drive: byte)
    requires |m| == MEMORY_SIZE && |image| == IMAGE_SIZE && IsOffset(y) && drive < 4 && DriveReady(m, drive)
    requires Catalogue.IsEntry(e) && BlockOf(m, y) == OpenedBlock(e, y, drive)
    requires 2 <= Catalogue.Start(e) && Catalogue.End(e) <= SECTORS_PER_DISK
    ensures HandleOk(m, image, y, FileOf(e))
  {
    hide BlockOf, DriveReady, Catalogue.Start, Catalogue.Length;
  }

  lemma OtherKept(m: seq<byte>, m': seq<byte>, image: seq<byte>, y: byte, z: byte, f: File)
    requires HandleOk(m, image, z, f) && OnlyOpened(m, m', y) && IsOffset(y) && y != z
    ensures HandleOk(m', image, z, f)
  {
    OffsetsOk(m, image, z, f);
    hide HandleOk;
    forall i | 0 <= i < MEMORY_SIZE && Own(i, z)
      ensures m'[i] == m[i]
    {
      OwnApart(y, z, i);
    }
    SameHandle(m, m', image, z, f);
  }

  lemma MaskKept(m: seq<byte>, m': seq<byte>, y: byte, z: byte)
    requires |m| == |m'| == MEMORY_SIZE && IsOffset(y) && z % 32 == 0
    requires m'[OPEN_FILES] == Or(m[OPEN_FILES], MaskOf(y / 32))
    ensures InUse(m', z) <==> z == y || InUse(m, z)
  {
    hide MaskOf, Or, And;
    if z != 0 {
      BitSet(m[OPEN_FILES], y / 32, z / 32);
    }
  }

  lemma AllOpened(m: seq<byte>, m': seq<byte>, image: seq<byte>, y: byte, fs: Files, f: File)
    requires |m| == |m'| == MEMORY_SIZE && IsOffset(y) && y !in fs
    requires AllOk(m, image, fs) && OnlyOpened(m, m', y)
    requires m'[OPEN_FILES] == Or(m[OPEN_FILES], MaskOf(y / 32)) && HandleOk(m', image, y, f)
    ensures AllOk(m', image, fs[y := f])
  {
    hide HandleOk, InUse, Or, MaskOf, OnlyOpened, Own;
    forall z: byte | z % 32 == 0
      ensures InUse(m', z) <==> z in fs[y := f]
    {
      MaskKept(m, m', y, z);
      assert z in fs <==> InUse(m, z);
    }
    forall z | z in fs
      ensures HandleOk(m', image, z, fs[z])
    {
      OtherKept(m, m', image, y, z, fs[z]);
    }
  }

  // Opening a file of a sound catalogue adds it, at its first byte, to
  // the open files.
  method Open(mem: array<byte>, x: byte, y: byte, ghost k: nat, ghost cat: seq<Catalogue.Entry>,
    ghost image: seq<byte>, ghost fs: Files)
    returns (handle: byte, ghost fs': Files)
    requires mem.Length == MEMORY_SIZE && Catalogue.IsCatalogue(mem[..]) && cat == Catalogue.CatalogueOf(mem[..])
    requires Catalogue.WellFormed(cat, Catalogue.DiskSize(mem[..])) && Catalogue.DiskSize(mem[..]) <= SECTORS_PER_DISK
    requires k < |cat| && x == 8 * k
    requires |image| == IMAGE_SIZE && AllOk(mem[..], image, fs)
    requires IsOffset(y) && y !in fs && mem[FREE_MASK] == MaskOf(y / 32)
    requires mem[CUR_DRV] < 4 && DriveReady(mem[..], mem[CUR_DRV])
    modifies mem
    ensures OffsetOf(handle) == y && fs' == fs[y := FileOf(cat[k])]
    ensures AllOk(mem[..], image, fs')
    ensures Word(mem[ALLOCATED + y], mem[ALLOCATED + 1 + y]) == Sectors(Catalogue.Length(cat[k]))
  {
    hide AllOk, Or, MaskOf, BlockOf, DriveReady, OffsetOf, Catalogue.EntryAt, Catalogue.WellFormed, Catalogue.Start,
      Catalogue.Length;
    ghost var m := mem[..];
    ghost var e := cat[k];
    EntryOnDisk(m, cat, k);
    handle := OpenInput(mem, x, y, k, e);
    SameDrives(m, mem[..], y, m[CUR_DRV]);
    OpenedHandle(mem[..], image, y, e, mem[CUR_DRV]);
    fs' := fs[y := FileOf(e)];
    AllOpened(m, mem[..], image, y, fs, FileOf(e));
  }

  lemma SameDrives(m: seq<byte>, m': seq<byte>, y: byte, drive: byte)
    requires OnlyOpened(m, m', y) && drive < 4 && DriveReady(m, drive)
    ensures DriveReady(m', drive)
  {
  }

  lemma EntryOnDisk(m: seq<byte>, cat: seq<Catalogue.Entry>, k: nat)
    requires Catalogue.IsCatalogue(m) && cat == Catalogue.CatalogueOf(m) && k < |cat|
    requires Catalogue.WellFormed(cat, Catalogue.DiskSize(m)) && Catalogue.DiskSize(m) <= SECTORS_PER_DISK
    ensures k < MAX_FILES && cat[k] == Catalogue.EntryAt(m, k)
    ensures 2 <= Catalogue.Start(cat[k]) && Catalogue.End(cat[k]) <= SECTORS_PER_DISK
    ensures Sectors(Catalogue.Length(cat[k])) < 1024
  {
    Catalogue.WellFormedMeans(cat, Catalogue.DiskSize(m));
  }

  // A file of the catalogue, opened and read to the end, is the sectors it names.
  lemma OpenedReads(fs: Files, image: seq<byte>, handle: byte, e: Catalogue.Entry)
    requires Catalogue.IsEntry(e) && AllOnImage(fs, image)
    requires OffsetOf(handle) in fs && fs[OffsetOf(handle)] == FileOf(e)
    ensures var n := Catalogue.Length(e);
      var outs := Run(fs, image, Gets(handle, n + 2)).1;
      && |outs| == n + 2 && outs[n] == EndOfFile && outs[n + 1] == EofError
      && forall i :: 0 <= i < n ==> outs[i] == Byte(image[256 * Catalogue.Start(e) + i])
  {
    hide OffsetOf, Run, Gets, Catalogue.Start, Catalogue.Length;
    var f, n := FileOf(e), Catalogue.Length(e);
    var s := Following(f, image, n);
    ReadsToEnd(fs, image, handle);
    if n > 0 {
      FollowingAt(f, image, n, 0);
    }
    forall i | 0 <= i < n
      ensures (s + [EndOfFile, EofError])[i] == Byte(image[256 * f.start + i])
    {
      FollowingAt(f, image, n, i);
    }
  }
}
