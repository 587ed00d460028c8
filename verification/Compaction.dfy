// *COMPACT: every file moved down to close the gaps below it.

module Compaction {
  import opened Bytes
  import opened Layout
  import opened Bits
  import opened Catalogue
  import opened Device
  import opened Mover

  const OFFSET := 0xCC         // offset of the file being compacted

  // ---- The layout aimed at ----

  // First free sector once the files from position k downwards are packed.
  function Used(cat: seq<Entry>, k: nat): nat
    requires IsListing(cat) && k <= |cat|
    decreases |cat| - k
  {
    if k == |cat| then FIRST_SECTOR else Used(cat, k + 1) + Sectors(Length(cat[k]))
  }

  // The same file at another place.
  function WithStart(e: Entry, s: nat): (f: Entry)
    requires IsEntry(e) && s < 1024
    ensures IsEntry(f) && Start(f) == s && Length(f) == Length(e) && f.name == e.name
    ensures f.info[..6] == e.info[..6] && f.info[6] / 4 == e.info[6] / 4
  {
    var p := e.info[6];
    assert p / 4 % 64 / 4 == p / 16;
    Entry(e.name, e.info[6 := StartBits(p, s / 256)][7 := s % 256])
  }

  function StartBits(p: byte, hi: byte): (q: byte)
    requires hi < 4
    ensures q % 4 == hi && q / 4 == p / 4 && q / 16 == p / 16
  {
    assert p == 4 * (p / 4) + p % 4;
    var q := 4 * (p / 4) + hi;
    assert q / 4 == p / 4;
    assert q / 4 / 4 == q / 16 && p / 4 / 4 == p / 16;
    q
  }

  // Files with no data are passed over where they are.
  function CompactEntry(cat: seq<Entry>, k: nat): (e: Entry)
    requires IsListing(cat) && k < |cat| && Used(cat, k + 1) < 1024
    ensures IsEntry(e)
  {
    if Length(cat[k]) == 0 then cat[k] else WithStart(cat[k], Used(cat, k + 1))
  }

  // The list with the files from position k downwards compacted.
  function CompactedFrom(cat: seq<Entry>, k: nat): (list: seq<Entry>)
    requires IsListing(cat) && k <= |cat| && Used(cat, 0) < 1024
    ensures IsListing(list) && |list| == |cat|
  {
    UsedDescends(cat, 0);
    seq(|cat|, j requires 0 <= j < |cat| => if j < k then cat[j] else CompactEntry(cat, j))
  }

  function Compacted(cat: seq<Entry>): seq<Entry>
    requires IsListing(cat) && Used(cat, 0) < 1024
  {
    CompactedFrom(cat, 0)
  }

  lemma {:induction false} UsedDescends(cat: seq<Entry>, k: nat)
    requires IsListing(cat) && k <= |cat|
    ensures FIRST_SECTOR <= Used(cat, k)
    ensures forall j :: k <= j <= |cat| ==> Used(cat, j) <= Used(cat, k)
    decreases |cat| - k
  {
    if k < |cat| {
      UsedDescends(cat, k + 1);
    }
  }

  // Packing never needs more room than the files take up already.
  lemma {:induction false} UsedBelow(cat: seq<Entry>, size: nat, k: nat)
    requires WellFormed(cat, size) && cat != [] && k <= |cat|
    ensures Used(cat, k) <= Base(cat, k) <= Top(cat, size, k)
    decreases |cat| - k
  {
    hide Start, Length, Sectors;
    assert Base(cat, k) <= Top(cat, size, k);
    if k < |cat| {
      UsedBelow(cat, size, k + 1);
    }
  }

  lemma UsedOnDisk(cat: seq<Entry>, size: nat)
    requires WellFormed(cat, size) && 2 <= size
    ensures Used(cat, 0) <= size
  {
    if cat != [] {
      UsedBelow(cat, size, 0);
    }
  }

  // After compaction the data-bearing files are contiguous from sector 2 in the same
  // order, whatever empty files stand between them.
  lemma CompactedContiguous(cat: seq<Entry>, k: nat)
    requires IsListing(cat) && Used(cat, 0) < 1024 && k < |cat| && Length(cat[k]) > 0
    ensures var e := Compacted(cat)[k];
      && Start(e) == Used(cat, k + 1) && End(e) == Used(cat, k)
      && Length(e) == Length(cat[k]) && e.name == cat[k].name
  {
    UsedDescends(cat, 0);
  }

  // The layout survives exactly when no empty file directly below a file with data
  // has free space under it: such a file keeps its old start while its upper
  // neighbour comes down.
  ghost predicate EmptyFilesSettled(cat: seq<Entry>)
    requires IsListing(cat)
  {
    forall k :: 0 <= k <= |cat| ==> IsSettled(cat, k)
  }

  predicate IsSettled(cat: seq<Entry>, k: nat)
    requires IsListing(cat) && k <= |cat|
  {
    0 < k < |cat| && Length(cat[k]) == 0 && Length(cat[k - 1]) > 0 ==> Start(cat[k]) == Used(cat, k)
  }

  lemma CompactKeeps(cat: seq<Entry>, size: nat)
    requires WellFormed(cat, size) && 2 <= size < 1024
    ensures Used(cat, 0) <= size
    ensures WellFormed(Compacted(cat), size) <==> EmptyFilesSettled(cat)
  {
    hide Base, Top, IsSettled, Start, Length, Sectors, CompactedFrom;
    UsedOnDisk(cat, size);
    UsedDescends(cat, 0);
    if cat == [] {
      NothingToSettle(cat);
    }
    var list := Compacted(cat);
    forall k | 0 <= k <= |list| && list != []
      ensures Base(list, k) <= Top(list, size, k) <==> IsSettled(cat, k)
    {
      CompactedPair(cat, size, k);
    }
  }

  // For example: a one-sector file at 10 above an empty one at 5.
  lemma EmptyFileDisplaced(a: Entry, b: Entry)
    requires IsEntry(a) && Start(a) == 10 && Length(a) == 256
    requires IsEntry(b) && Start(b) == 5 && Length(b) == 0
    ensures WellFormed([a, b], 800) && Used([a, b], 0) == 3
    ensures !WellFormed(Compacted([a, b]), 800)
  {
    var cat := [a, b];
    assert cat[0] == a && cat[1] == b;
    assert Used(cat, 2) == 2 && Used(cat, 1) == 2;
    hide Start, Length, Used, Compacted;
    WellFormedMeans(cat, 800);
    CompactKeeps(cat, 800);
    assert !IsSettled(cat, 1);
  }

  lemma NothingToSettle(cat: seq<Entry>)
    requires cat == []
    ensures EmptyFilesSettled(cat)
  {
  }

  lemma CompactedPair(cat: seq<Entry>, size: nat, k: nat)
    requires WellFormed(cat, size) && cat != [] && k <= |cat| && Used(cat, 0) <= size < 1024
    ensures var list := Compacted(cat);
      Base(list, k) <= Top(list, size, k) <==> IsSettled(cat, k)
  {
    hide WithStart, Start, Length, CompactEntry, CompactedFrom, Used, Sectors;
    UsedDescends(cat, 0);
    UsedBelow(cat, size, k);
    if k < |cat| {
      UsedBelow(cat, size, k + 1);
      CompactedAt(cat, k);
    }
    if k > 0 {
      CompactedAt(cat, k - 1);
    }
    UsedEnd(cat);
  }

  lemma UsedEnd(cat: seq<Entry>)
    requires IsListing(cat)
    ensures Used(cat, |cat|) == FIRST_SECTOR
    ensures forall k :: 0 <= k < |cat| ==> End(cat[k]) == Start(cat[k]) + Used(cat, k) - Used(cat, k + 1)
  {
  }

  lemma CompactedAt(cat: seq<Entry>, k: nat)
    requires IsListing(cat) && Used(cat, 0) < 1024 && k < |cat|
    ensures var e := Compacted(cat)[k];
      if Length(cat[k]) == 0 then Start(e) == End(e) == Start(cat[k]) && Used(cat, k) == Used(cat, k + 1)
      else Start(e) == Used(cat, k + 1) && End(e) == Used(cat, k)
  {
    EmptySectors(Length(cat[k]));
    if Length(cat[k]) > 0 {
      CompactedContiguous(cat, k);
    }
  }

  lemma EmptySectors(n: nat)
    ensures Sectors(n) == 0 <==> n == 0
  {
  }

  // ---- What happens to the data ----

  // n bytes at t hold what n bytes at s held before.
  ghost predicate SameData(before: seq<byte>, after: seq<byte>, s: nat, t: nat, n: nat) {
    && s + n <= |before| && t + n <= |after|
    && forall i {:trigger after[i]} :: t <= i < t + n ==> after[i] == before[i - t + s]
  }

  // The files from position k downwards have been carried to their new places, and
  // above them the disk is as it was.
  ghost predicate Carried(cat: seq<Entry>, k: nat, before: seq<byte>, after: seq<byte>)
    requires IsListing(cat) && k <= |cat|
  {
    && |before| == |after| == DISK_SIZE
    && (forall j :: k <= j < |cat| && Length(cat[j]) > 0 ==> CarriedFile(cat, j, before, after))
    && (forall i {:trigger after[i]} :: 256 * Used(cat, k) <= i < DISK_SIZE ==> after[i] == before[i])
  }

  ghost predicate CarriedFile(cat: seq<Entry>, j: nat, before: seq<byte>, after: seq<byte>)
    requires IsListing(cat) && j < |cat|
  {
    SameData(before, after, 256 * Start(cat[j]), 256 * Used(cat, j + 1), 256 * Sectors(Length(cat[j])))
  }

  // A catalogue write touches no file.
  lemma CarryCatalogue(cat: seq<Entry>, k: nat, d0: seq<byte>, d1: seq<byte>, d2: seq<byte>)
    requires IsListing(cat) && k <= |cat| && Carried(cat, k, d0, d1) && |d2| == DISK_SIZE
    requires forall i {:trigger d2[i]} :: PAGES_SIZE <= i < DISK_SIZE ==> d2[i] == d1[i]
    ensures Carried(cat, k, d0, d2)
  {
    hide Length, Sectors, Start;
    forall j | k <= j < |cat| && Length(cat[j]) > 0
      ensures CarriedFile(cat, j, d0, d2)
    {
      assert CarriedFile(cat, j, d0, d1);
      UsedDescends(cat, j + 1);
    }
    UsedDescends(cat, k);
  }

  // Moving file k down to the end of the packed part.
  lemma CarryMove(cat: seq<Entry>, size: nat, k: nat, d0: seq<byte>, d1: seq<byte>, d2: seq<byte>)
    requires WellFormed(cat, size) && size <= DISK_SECTORS && k < |cat| && Length(cat[k]) > 0
    requires Carried(cat, k + 1, d0, d1) && Used(cat, k + 1) <= Start(cat[k])
    requires Shifted(d1, d2, 256 * Used(cat, k + 1), 256 * Used(cat, k), 256 * (Start(cat[k]) - Used(cat, k + 1)))
    ensures Carried(cat, k, d0, d2)
  {
    hide Length, Sectors, Start;
    UsedDescends(cat, k);
    forall j | k <= j < |cat| && Length(cat[j]) > 0
      ensures CarriedFile(cat, j, d0, d2)
    {
      if j > k {
        assert CarriedFile(cat, j, d0, d1);
        UsedDescends(cat, k + 1);
        assert Used(cat, j + 1) + Sectors(Length(cat[j])) == Used(cat, j) <= Used(cat, k + 1);
      } else {
        MovedData(d0, d1, d2, 256 * Start(cat[k]), 256 * Used(cat, k + 1), 256 * Sectors(Length(cat[k])));
      }
    }
  }

  lemma MovedData(d0: seq<byte>, d1: seq<byte>, d2: seq<byte>, s: nat, t: nat, n: nat)
    requires |d0| == |d1| && t <= s && Shifted(d1, d2, t, t + n, s - t)
    requires forall i {:trigger d1[i]} :: t <= i < |d1| ==> d1[i] == d0[i]
    ensures SameData(d0, d2, s, t, n)
  {
    forall i | t <= i < t + n
      ensures d2[i] == d0[i - t + s]
    {
      assert d2[i] == d1[i + (s - t)];
    }
  }

  // A file that is empty, or in place already.
  lemma CarryStay(cat: seq<Entry>, k: nat, d0: seq<byte>, d1: seq<byte>)
    requires IsListing(cat) && k < |cat| && Carried(cat, k + 1, d0, d1)
    requires Length(cat[k]) == 0 || (Start(cat[k]) == Used(cat, k + 1) && 256 * Used(cat, k) <= DISK_SIZE)
    ensures Carried(cat, k, d0, d1)
  {
    EmptySectors(Length(cat[k]));
    hide Length, Sectors, Start;
    UsedDescends(cat, k);
    forall j | k <= j < |cat| && Length(cat[j]) > 0
      ensures CarriedFile(cat, j, d0, d1)
    {
      if j > k {
        assert CarriedFile(cat, j, d0, d1);
      } else {
        StayedData(d0, d1, 256 * Used(cat, k + 1), 256 * Sectors(Length(cat[k])));
      }
    }
  }

  lemma StayedData(d0: seq<byte>, d1: seq<byte>, t: nat, n: nat)
    requires |d0| == |d1| && t + n <= |d0|
    requires forall i {:trigger d1[i]} :: t <= i < |d1| ==> d1[i] == d0[i]
    ensures SameData(d0, d1, t, t, n)
  {
  }

  // ---- The command ----

  // The title, the number of files, the boot option and the size.
  predicate IsHeaderByte(i: int) { PAGES <= i < NAMES || (0x0F00 <= i < INFO && i != CYCLE) }

  // How many files from position k on have to move.
  function Moves(cat: seq<Entry>, k: nat): nat
    requires IsListing(cat) && k <= |cat|
    decreases |cat| - k
  {
    if k == |cat| then 0
    else (if Length(cat[k]) > 0 && Start(cat[k]) != Used(cat, k + 1) then 1 else 0) + Moves(cat, k + 1)
  }

  // The header of h, with the sequence number n changes later.
  ghost predicate SameHeader(h: seq<byte>, m: seq<byte>, n: nat) {
    && |h| == |m| == MEMORY_SIZE && m[CYCLE] == Cycled(h[CYCLE], n)
    && forall i {:trigger m[i]} :: 0 <= i < MEMORY_SIZE && IsHeaderByte(i) ==> m[i] == h[i]
  }

  // With the files from position k downwards done: the list, the data, the header, and the
  // next free sector in $ca/$cb.
  ghost predicate Stage(mem: array<byte>, disk: array<byte>, cat: seq<Entry>, size: nat, k: nat, d0: seq<byte>,
    h: seq<byte>)
    requires WellFormed(cat, size) && 2 <= size <= DISK_SECTORS && k <= |cat|
    reads mem, disk
  {
    && CanMove(mem, disk) && IsCatalogue(mem[..]) && DiskSize(mem[..]) == size
    && Used(cat, 0) < 1024 && CatalogueOf(mem[..]) == CompactedFrom(cat, k)
    && PagesOnDisk(mem[..], disk[..]) && SameHeader(h, mem[..], Moves(cat, k))
    && Carried(cat, k, d0, disk[..])
    && Word(mem[DEST_LOW], mem[DEST_HIGH]) == Used(cat, k)
  }

  lemma HeaderKept(h: seq<byte>, m: seq<byte>, m': seq<byte>, n: nat)
    requires SameHeader(h, m, n) && |m'| == MEMORY_SIZE
    requires forall i :: PAGES <= i < PAGES + PAGES_SIZE ==> m'[i] == m[i]
    ensures SameHeader(h, m', n)
  {
  }

  lemma MovesStep(cat: seq<Entry>, k: nat)
    requires IsListing(cat) && k < |cat|
    ensures Moves(cat, k) ==
      Moves(cat, k + 1) + if Length(cat[k]) > 0 && Start(cat[k]) != Used(cat, k + 1) then 1 else 0
  {
  }

  // Sectors the file occupies, into $c6/$c7.
  method CountSectors(mem: array<byte>, y: byte, ghost n: nat)
    requires mem.Length == MEMORY_SIZE && y < 248
    requires n == Long(mem[INFO + 4 + y], mem[INFO + 5 + y], mem[INFO + 6 + y] / 16 % 4)
    modifies mem
    ensures Word(mem[COUNT_LOW], mem[COUNT_HIGH]) == Sectors(n)
    ensures forall i :: 0 <= i < MEMORY_SIZE && i != COUNT_LOW && i != COUNT_HIGH ==> mem[i] == old(mem[i])
  {
    var (_, c) := Adc(0xFF, mem[INFO + 4 + y], 0);
    var (lo, c1) := Adc(0, mem[INFO + 5 + y], c);
    mem[COUNT_LOW] := lo;
    var (hi, _) := Adc(mem[INFO + 6 + y] / 16 % 4, 0, c1);
    mem[COUNT_HIGH] := hi;
  }

  // The new start goes into the entry.
  method StoreStart(mem: array<byte>, y: byte)
    requires mem.Length == MEMORY_SIZE && y < 248 && mem[DEST_HIGH] < 4
    modifies mem
    ensures mem[INFO + 7 + y] == mem[DEST_LOW]
    ensures mem[INFO + 6 + y] == StartBits(old(mem[INFO + 6 + y]), old(mem[DEST_HIGH]))
    ensures forall i :: 0 <= i < MEMORY_SIZE && i != INFO + 6 + y && i != INFO + 7 + y ==> mem[i] == old(mem[i])
  {
    mem[INFO + 7 + y] := mem[DEST_LOW];
    AndOrLowPair(mem[INFO + 6 + y], mem[DEST_HIGH]);
    mem[INFO + 6 + y] := Or(And(mem[INFO + 6 + y], 0xFC), mem[DEST_HIGH]);
  }

  lemma Relocated(m: seq<byte>, m': seq<byte>, k: nat, s: nat)
    requires IsCatalogue(m) && k < Files(m) && |m'| == MEMORY_SIZE && s < 1024 && m'[COUNT] == m[COUNT]
    requires forall i :: (NAMES <= i < 0x0F00 || INFO <= i < 0x1000) ==>
      !(INFO + 8 * k + 6 <= i <= INFO + 8 * k + 7) ==> m'[i] == m[i]
    requires m'[INFO + 8 * k + 6] == StartBits(m[INFO + 8 * k + 6], s / 256) && m'[INFO + 8 * k + 7] == s % 256
    ensures IsCatalogue(m') && CatalogueOf(m') == CatalogueOf(m)[k := WithStart(EntryAt(m, k), s)]
  {
    var list, cat := CatalogueOf(m'), CatalogueOf(m);
    forall j | 0 <= j < |list|
      ensures list[j] == cat[k := WithStart(EntryAt(m, k), s)][j]
    {
      if j == k {
        RelocatedEntry(m, m', k, s);
      } else {
        SameEntry(m', j, m, j);
      }
    }
  }

  lemma RelocatedEntry(m: seq<byte>, m': seq<byte>, k: nat, s: nat)
    requires |m| == |m'| == MEMORY_SIZE && k < MAX_FILES && s < 1024
    requires forall i :: (NAMES <= i < 0x0F00 || INFO <= i < 0x1000) ==>
      !(INFO + 8 * k + 6 <= i <= INFO + 8 * k + 7) ==> m'[i] == m[i]
    requires m'[INFO + 8 * k + 6] == StartBits(m[INFO + 8 * k + 6], s / 256) && m'[INFO + 8 * k + 7] == s % 256
    ensures EntryAt(m', k) == WithStart(EntryAt(m, k), s)
  {
    hide StartBits;
    var e, f := EntryAt(m', k), WithStart(EntryAt(m, k), s);
    forall i | 0 <= i < 8
      ensures e.name[i] == f.name[i] && e.info[i] == f.info[i]
    {
      assert m'[NAMES + 8 * k + i] == m[NAMES + 8 * k + i];
      assert i < 6 ==> m'[INFO + 8 * k + i] == m[INFO + 8 * k + i];
    }
    assert e.name == f.name && e.info == f.info;
  }

  // One step of the list on paper.
  lemma CompactedStep(cat: seq<Entry>, k: nat)
    requires IsListing(cat) && k < |cat| && Used(cat, 0) < 1024
    ensures CompactedFrom(cat, k + 1)[k] == cat[k]
    ensures Used(cat, k + 1) < 1024
    ensures CompactedFrom(cat, k) == CompactedFrom(cat, k + 1)[k := CompactEntry(cat, k)]
    ensures Length(cat[k]) == 0 || Start(cat[k]) == Used(cat, k + 1) ==> CompactEntry(cat, k) == cat[k]
  {
    UsedDescends(cat, 0);
    if Length(cat[k]) > 0 && Start(cat[k]) == Used(cat, k + 1) {
      SameStart(cat[k]);
    }
  }

  lemma SameStart(e: Entry)
    requires IsEntry(e)
    ensures WithStart(e, Start(e)) == e
  {
    var f := WithStart(e, Start(e));
    assert e.info[6] == 4 * (e.info[6] / 4) + e.info[6] % 4;
    assert f.info[6] == 4 * (f.info[6] / 4) + f.info[6] % 4;
    assert f.info[7] == e.info[7];
    assert forall i :: 0 <= i < 6 ==> f.info[i] == f.info[..6][i] == e.info[..6][i] == e.info[i];
    assert f.info == e.info;
  }

  // A file with no data is skipped.
  method IsEmptyFile(mem: array<byte>, y: byte) returns (empty: bool)
    requires mem.Length == MEMORY_SIZE && y < 248
    ensures empty == (Long(mem[INFO + 4 + y], mem[INFO + 5 + y], mem[INFO + 6 + y] / 16 % 4) == 0)
  {
    empty := mem[INFO + 6 + y] / 16 % 4 == 0 && mem[INFO + 5 + y] == 0 && mem[INFO + 4 + y] == 0;
  }

  // Set up the move of the file at y: sector count and old start.
  method Locate(mem: array<byte>, y: byte, ghost n: nat)
    requires mem.Length == MEMORY_SIZE && y < 248
    requires n == Long(mem[INFO + 4 + y], mem[INFO + 5 + y], mem[INFO + 6 + y] / 16 % 4)
    modifies mem
    ensures Word(mem[COUNT_LOW], mem[COUNT_HIGH]) == Sectors(n)
    ensures Word(mem[SOURCE_LOW], mem[SOURCE_HIGH]) == Word(mem[INFO + 7 + y], mem[INFO + 6 + y] % 4)
    ensures mem[DEST_LOW] == old(mem[DEST_LOW]) && mem[DEST_HIGH] == old(mem[DEST_HIGH])
    ensures forall i :: 0 <= i < MEMORY_SIZE && !IsMoveVariable(i) ==> mem[i] == old(mem[i])
  {
    mem[LOAD_ADDR], mem[LENGTH_LOW] := 0, 0;
    CountSectors(mem, y, n);
    mem[SOURCE_LOW] := mem[INFO + 7 + y];
    mem[SOURCE_HIGH] := mem[INFO + 6 + y] % 4;
  }

  // A file in place: only the next free sector moves on.
  method StayInPlace(mem: array<byte>, ghost at: nat, ghost n: nat)
    requires mem.Length == MEMORY_SIZE && at == Word(mem[DEST_LOW], mem[DEST_HIGH]) && mem[SOURCE_LOW] == mem[DEST_LOW]
    requires n == Word(mem[COUNT_LOW], mem[COUNT_HIGH]) && at + n < 0x10000
    modifies mem
    ensures Word(mem[DEST_LOW], mem[DEST_HIGH]) == at + n
    ensures forall i :: 0 <= i < MEMORY_SIZE && i != DEST_LOW && i != DEST_HIGH ==> mem[i] == old(mem[i])
  {
    var (lo, c) := Adc(mem[SOURCE_LOW], mem[COUNT_LOW], 0);
    mem[DEST_LOW] := lo;
    var (hi, _) := Adc(mem[DEST_HIGH], mem[COUNT_HIGH], c);
    mem[DEST_HIGH] := hi;
  }

  // Everything Stage says but the next free sector, and the file's own sizes.
  lemma StageFile(m: seq<byte>, cat: seq<Entry>, size: nat, k: nat)
    requires WellFormed(cat, size) && 2 <= size <= DISK_SECTORS && k < |cat| && Used(cat, 0) < 1024
    requires IsCatalogue(m) && CatalogueOf(m) == CompactedFrom(cat, k + 1)
    ensures EntryAt(m, k) == cat[k]
    ensures Start(cat[k]) == Word(m[INFO + 7 + 8 * k], m[INFO + 6 + 8 * k] % 4)
    ensures Length(cat[k]) == Long(m[INFO + 4 + 8 * k], m[INFO + 5 + 8 * k], m[INFO + 6 + 8 * k] / 16 % 4)
    ensures Used(cat, k + 1) <= Start(cat[k]) && End(cat[k]) <= size
    ensures Used(cat, k) == Used(cat, k + 1) + Sectors(Length(cat[k])) <= size
    ensures FIRST_SECTOR <= Used(cat, k + 1)
  {
    CompactedStep(cat, k);
    assert CatalogueOf(m)[k] == cat[k];
    EntryBytes(m, k);
    UsedBelow(cat, size, k + 1);
    UsedDescends(cat, 0);
    UsedDescends(cat, k + 1);
    UsedOnDisk(cat, size);
    WellFormedMeans(cat, size);
  }

  // The loop body of *COMPACT for the file at position k.
  method CompactFile(mem: array<byte>, disk: array<byte>, y: byte,
    ghost k: nat, ghost cat: seq<Entry>, ghost size: nat, ghost d0: seq<byte>, ghost h: seq<byte>)
    requires WellFormed(cat, size) && 2 <= size <= DISK_SECTORS && k < |cat| && y == 8 * k && k < MAX_FILES
    requires Stage(mem, disk, cat, size, k + 1, d0, h)
    modifies mem, disk
    ensures Stage(mem, disk, cat, size, k, d0, h)
    ensures mem[OFFSET] == old(mem[OFFSET])
  {
    assert IsListing(cat);
    hide CatalogueOf, CompactedFrom, WithStart, EntryAt, Start, Length, Sectors, Carried, WellFormed, PagesOnDisk,
      SameHeader, Moves;
    StageFile(mem[..], cat, size, k);
    var empty := IsEmptyFile(mem, y);
    if empty {
      CompactedStep(cat, k);
      MovesStep(cat, k);
      NoSectors(cat[k]);
      CarryStay(cat, k, d0, disk[..]);
      return;
    }
    ghost var m0 := mem[..];
    Locate(mem, y, Length(cat[k]));
    SomeSectors(cat[k]);
    KeepsPages(m0, mem[..], disk[..]);
    HeaderKept(h, m0, mem[..], Moves(cat, k + 1));
    if mem[SOURCE_HIGH] == mem[DEST_HIGH] && mem[SOURCE_LOW] == mem[DEST_LOW] {
      Stay(mem, disk, k, cat, size, d0, h);
    } else {
      MoveDown(mem, disk, y, k, cat, size, d0, h);
    }
  }

  // A file already in place counts as done.
  method Stay(mem: array<byte>, disk: array<byte>, ghost k: nat, ghost cat: seq<Entry>, ghost size: nat,
    ghost d0: seq<byte>, ghost h: seq<byte>)
    requires WellFormed(cat, size) && 2 <= size <= DISK_SECTORS && k < |cat| && Length(cat[k]) > 0
    requires Stage(mem, disk, cat, size, k + 1, d0, h) && mem[SOURCE_LOW] == mem[DEST_LOW]
    requires Word(mem[COUNT_LOW], mem[COUNT_HIGH]) == Sectors(Length(cat[k])) && Start(cat[k]) == Used(cat, k + 1)
    modifies mem
    ensures Stage(mem, disk, cat, size, k, d0, h)
    ensures mem[OFFSET] == old(mem[OFFSET])
  {
    assert IsListing(cat);
    hide CatalogueOf, CompactedFrom, WithStart, EntryAt, Start, Length, Sectors, Carried, WellFormed, PagesOnDisk,
      SameHeader, Moves, DiskSize;
    ghost var m := mem[..];
    StageFile(m, cat, size, k);
    CompactedStep(cat, k);
    MovesStep(cat, k);
    StayInPlace(mem, Used(cat, k + 1), Sectors(Length(cat[k])));
    CarryStay(cat, k, d0, disk[..]);
    KeepsPages(m, mem[..], disk[..]);
    HeaderKept(h, m, mem[..], Moves(cat, k));
  }

  lemma NoSectors(e: Entry)
    requires IsEntry(e) && Length(e) == 0
    ensures Sectors(Length(e)) == 0
  {
  }

  lemma SomeSectors(e: Entry)
    requires IsEntry(e) && Length(e) > 0
    ensures Sectors(Length(e)) > 0
  {
  }

  // The new start is saved with the catalogue before the data is moved.
  method MoveDown(mem: array<byte>, disk: array<byte>, y: byte,
    ghost k: nat, ghost cat: seq<Entry>, ghost size: nat, ghost d0: seq<byte>, ghost h: seq<byte>)
    requires WellFormed(cat, size) && 2 <= size <= DISK_SECTORS && k < |cat| && y == 8 * k && k < MAX_FILES
    requires Stage(mem, disk, cat, size, k + 1, d0, h)
    requires Length(cat[k]) > 0 && Sectors(Length(cat[k])) > 0
    requires Word(mem[COUNT_LOW], mem[COUNT_HIGH]) == Sectors(Length(cat[k]))
    requires Word(mem[SOURCE_LOW], mem[SOURCE_HIGH]) == Start(cat[k]) != Used(cat, k + 1)
    modifies mem, disk
    ensures Stage(mem, disk, cat, size, k, d0, h)
    ensures mem[OFFSET] == old(mem[OFFSET])
  {
    assert IsListing(cat);
    hide CatalogueOf, CompactedFrom, WithStart, EntryAt, Start, Length, Sectors, Carried, WellFormed, PagesOnDisk,
      Shifted, DiskSize, SameHeader, Moves;
    StageFile(mem[..], cat, size, k);
    CompactedStep(cat, k);
    MovesStep(cat, k);
    Enter(mem, disk, y, k, cat, size, d0, h);
    ghost var m1, d1 := mem[..], disk[..];
    MoveData(mem, disk, Start(cat[k]), Used(cat, k + 1), Sectors(Length(cat[k])));
    CarryMove(cat, size, k, d0, d1, disk[..]);
    HeaderKept(h, m1, mem[..], Moves(cat, k));
  }

  // The move itself, and the catalogue read back.
  method MoveData(mem: array<byte>, disk: array<byte>, ghost s: nat, ghost d: nat, ghost n: nat)
    requires CanMove(mem, disk) && mem[COPY_STATE] < 128 && IsCatalogue(mem[..]) && PagesOnDisk(mem[..], disk[..])
    requires s == Word(mem[SOURCE_LOW], mem[SOURCE_HIGH]) && d == Word(mem[DEST_LOW], mem[DEST_HIGH])
    requires n == Word(mem[COUNT_LOW], mem[COUNT_HIGH]) && n > 0
    requires FIRST_SECTOR <= d < s && s + n <= DISK_SECTORS
    modifies mem, disk
    ensures CanMove(mem, disk) && IsCatalogue(mem[..]) && PagesOnDisk(mem[..], disk[..])
    ensures DiskSize(mem[..]) == old(DiskSize(mem[..])) && CatalogueOf(mem[..]) == old(CatalogueOf(mem[..]))
    ensures Shifted(old(disk[..]), disk[..], 256 * d, 256 * (d + n), 256 * (s - d))
    ensures Word(mem[DEST_LOW], mem[DEST_HIGH]) == d + n && mem[OFFSET] == old(mem[OFFSET])
    ensures forall i :: PAGES <= i < PAGES + PAGES_SIZE ==> mem[i] == old(mem[i])
  {
    hide CatalogueOf, PagesOnDisk, Shifted, DiskSize;
    ghost var m, d1 := mem[..], disk[..];
    MoveFile(mem, disk, s, d, n);
    MovedPages(m, mem[..], d1, disk[..], 256 * d, 256 * (d + n), 256 * (s - d), mem[BUFFER_PAGE], mem[BUFFER_PAGES]);
    ReloadList(mem, disk);
  }

  // Reading the catalogue back changes nothing in it.
  method ReloadList(mem: array<byte>, disk: array<byte>)
    requires mem.Length == MEMORY_SIZE && disk.Length == DISK_SIZE && mem != disk
    requires IsCatalogue(mem[..]) && PagesOnDisk(mem[..], disk[..])
    modifies mem
    ensures IsCatalogue(mem[..]) && DiskSize(mem[..]) == old(DiskSize(mem[..]))
    ensures CatalogueOf(mem[..]) == old(CatalogueOf(mem[..])) && PagesOnDisk(mem[..], disk[..])
    ensures forall i :: 0 <= i < MEMORY_SIZE && !IsDeviceByte(i) ==> mem[i] == old(mem[i])
  {
    ghost var m, d := mem[..], disk[..];
    LoadPages(mem, disk);
    SamePagesRead(m, mem[..], d);
    assert forall i :: PAGES <= i < PAGES + PAGES_SIZE ==> mem[i] == d[i - PAGES] == m[i];
  }

  // The list with the new start, saved.
  method Enter(mem: array<byte>, disk: array<byte>, y: byte,
    ghost k: nat, ghost cat: seq<Entry>, ghost size: nat, ghost d0: seq<byte>, ghost h: seq<byte>)
    requires WellFormed(cat, size) && 2 <= size <= DISK_SECTORS && k < |cat| && y == 8 * k && k < MAX_FILES
    requires Stage(mem, disk, cat, size, k + 1, d0, h) && Length(cat[k]) > 0 && Used(cat, k + 1) < 1024
    requires EntryAt(mem[..], k) == cat[k]
    modifies mem, disk
    ensures CanMove(mem, disk) && IsCatalogue(mem[..]) && DiskSize(mem[..]) == size && PagesOnDisk(mem[..], disk[..])
    ensures CatalogueOf(mem[..]) == CompactedFrom(cat, k)
    ensures Carried(cat, k + 1, d0, disk[..]) && SameHeader(h, mem[..], Moves(cat, k + 1) + 1)
    ensures forall i :: 0 <= i < MEMORY_SIZE && !IsPageByte(i) && !IsDeviceByte(i) && i != COPY_STATE ==>
      i != COPY_STATE + 1 ==> mem[i] == old(mem[i])
    ensures mem[COPY_STATE] < 128
  {
    assert IsListing(cat);
    hide CatalogueOf, CompactedFrom, WithStart, EntryAt, Start, Length, Sectors, Carried, WellFormed, PagesOnDisk,
      SameHeader, Moves, NextCycle;
    ghost var m, d1 := mem[..], disk[..];
    CompactedStep(cat, k);
    PutStart(mem, y, k, Used(cat, k + 1));
    SaveList(mem, disk);
    HeaderSaved(h, m, mem[..], Moves(cat, k + 1), k);
    CarryCatalogue(cat, k + 1, d0, d1, disk[..]);
  }

  lemma HeaderSaved(h: seq<byte>, m: seq<byte>, m': seq<byte>, n: nat, k: nat)
    requires SameHeader(h, m, n) && |m'| == MEMORY_SIZE && k < MAX_FILES && m'[CYCLE] == NextCycle(m[CYCLE])
    requires forall i :: PAGES <= i < PAGES + PAGES_SIZE && !(INFO + 8 * k + 6 <= i <= INFO + 8 * k + 7) ==>
      i != CYCLE ==> m'[i] == m[i]
    ensures SameHeader(h, m', n + 1)
  {
    hide NextCycle;
  }

  // The start at $ca/$cb into the list in memory.
  method PutStart(mem: array<byte>, y: byte, ghost k: nat, ghost s: nat)
    requires mem.Length == MEMORY_SIZE && IsCatalogue(mem[..]) && k < Files(mem[..]) && y == 8 * k && y < 248
    requires s == Word(mem[DEST_LOW], mem[DEST_HIGH]) < 1024
    modifies mem
    ensures IsCatalogue(mem[..]) && DiskSize(mem[..]) == old(DiskSize(mem[..]))
    ensures CatalogueOf(mem[..]) == old(CatalogueOf(mem[..]))[k := WithStart(old(EntryAt(mem[..], k)), s)]
    ensures forall i :: 0 <= i < MEMORY_SIZE && i != INFO + 6 + y && i != INFO + 7 + y && i != COPY_STATE ==>
      i != COPY_STATE + 1 ==> mem[i] == old(mem[i])
    ensures mem[COPY_STATE] < 128
  {
    hide CatalogueOf, WithStart, EntryAt, StartBits;
    ghost var m := mem[..];
    WordBytes(mem[DEST_LOW], mem[DEST_HIGH]);
    StoreStart(mem, y);
    mem[COPY_STATE], mem[COPY_STATE + 1] := 0, 0;
    Relocated(m, mem[..], k, s);
  }

  method SaveList(mem: array<byte>, disk: array<byte>)
    requires mem.Length == MEMORY_SIZE && disk.Length == DISK_SIZE && mem != disk && IsCatalogue(mem[..])
    modifies mem, disk
    ensures IsCatalogue(mem[..]) && DiskSize(mem[..]) == old(DiskSize(mem[..]))
    ensures CatalogueOf(mem[..]) == old(CatalogueOf(mem[..])) && PagesOnDisk(mem[..], disk[..])
    ensures mem[CYCLE] == NextCycle(old(mem[CYCLE]))
    ensures forall i :: 0 <= i < MEMORY_SIZE && i != CYCLE && !IsDeviceByte(i) ==> mem[i] == old(mem[i])
    ensures forall i :: PAGES_SIZE <= i < DISK_SIZE ==> disk[i] == old(disk[i])
  {
    hide CatalogueOf, PagesOnDisk, NextCycle;
    ghost var m := mem[..];
    SavePages(mem, disk);
    SamePages(m, mem[..]);
  }

  // A move above the catalogue leaves pages and disk in step.
  lemma MovedPages(m: seq<byte>, m': seq<byte>, d: seq<byte>, d': seq<byte>, lo: nat, hi: nat, delta: nat, page: byte,
    pages: byte)
    requires IsCatalogue(m) && PagesOnDisk(m, d) && OnlyMoved(m, m', page, pages) && IsBuffer(page, pages)
    requires Shifted(d, d', lo, hi, delta) && PAGES_SIZE <= lo
    ensures IsCatalogue(m') && CatalogueOf(m') == CatalogueOf(m) && DiskSize(m') == DiskSize(m)
    ensures PagesOnDisk(m', d') && forall i :: PAGES <= i < PAGES + PAGES_SIZE ==> m'[i] == m[i]
  {
    assert forall i :: PAGES <= i < PAGES + PAGES_SIZE ==> !IsMoveVariable(i) && !InBuffer(i, page, pages);
    SamePages(m, m');
  }

  // *COMPACT, of a disk whose catalogue is sound: the list is packed, every file
  // holds the data it held before, and the reported number is what is left.
  method Compact(mem: array<byte>, disk: array<byte>, ghost cat: seq<Entry>, ghost size: nat) returns (free: nat)
    requires CanMove(mem, disk) && IsCatalogue(WithPages(mem[..], disk[..]))
    requires cat == CatalogueOf(WithPages(mem[..], disk[..])) && size == DiskSize(WithPages(mem[..], disk[..]))
    requires WellFormed(cat, size) && 2 <= size <= DISK_SECTORS
    modifies mem, disk
    ensures Used(cat, 0) <= size
    ensures IsCatalogue(mem[..]) && CatalogueOf(mem[..]) == Compacted(cat) && DiskSize(mem[..]) == size
    ensures PagesOnDisk(mem[..], disk[..])
    ensures forall j :: 0 <= j < |cat| && Length(cat[j]) > 0 ==>
      SameData(old(disk[..]), disk[..], 256 * Start(cat[j]), 256 * Start(Compacted(cat)[j]),
        256 * Sectors(Length(cat[j])))
    ensures forall i :: 256 * Used(cat, 0) <= i < DISK_SIZE ==> disk[i] == old(disk[i])
    ensures free == size - Used(cat, 0)
    ensures SameHeader(old(WithPages(mem[..], disk[..])), mem[..], Moves(cat, 0))
  {
    assert IsListing(cat);
    hide CatalogueOf, CompactedFrom, WithStart, EntryAt, Start, Length, Sectors, Carried, WellFormed, PagesOnDisk,
      WithPages, SameHeader, Moves;
    ghost var d0 := disk[..];
    ghost var h := WithPages(mem[..], disk[..]);
    LoadPages(mem, disk);
    SamePagesRead(h, mem[..], disk[..]);
    HeaderRead(h, mem[..], disk[..]);
    UsedOnDisk(cat, size);
    BeginCompact(mem, disk, cat, size, h);
    CompactFiles(mem, disk, cat, size, d0, h);
    free := FreeSectors(mem, Used(cat, 0), size);
    CarriedAll(cat, d0, disk[..]);
  }

  lemma HeaderRead(h: seq<byte>, m: seq<byte>, d: seq<byte>)
    requires PagesOnDisk(h, d) && PagesOnDisk(m, d)
    ensures SameHeader(h, m, 0)
  {
    assert d[CYCLE - PAGES] == m[CYCLE] == h[CYCLE];
    assert forall i :: 0 <= i < MEMORY_SIZE && IsHeaderByte(i) ==> m[i] == d[i - PAGES] == h[i];
  }

  method BeginCompact(mem: array<byte>, disk: array<byte>, ghost cat: seq<Entry>, ghost size: nat, ghost h: seq<byte>)
    requires SameHeader(h, mem[..], 0)
    requires CanMove(mem, disk) && PagesOnDisk(mem[..], disk[..]) && IsCatalogue(mem[..])
    requires cat == CatalogueOf(mem[..]) && size == DiskSize(mem[..])
    requires WellFormed(cat, size) && 2 <= size <= DISK_SECTORS && Used(cat, 0) <= size
    modifies mem
    ensures Stage(mem, disk, cat, size, |cat|, disk[..], h)
    ensures mem[OFFSET] == 8 * |cat| && |cat| <= MAX_FILES
  {
    assert IsListing(cat);
    hide CatalogueOf, CompactedFrom, Start, Length, Sectors, Carried, WellFormed, PagesOnDisk, SameHeader;
    ghost var m := mem[..];
    mem[OFFSET] := mem[COUNT];
    mem[DEST_LOW] := FIRST_SECTOR;
    mem[DEST_HIGH] := 0;
    KeepsPages(m, mem[..], disk[..]);
    HeaderKept(h, m, mem[..], 0);
    StageStart(cat, disk[..]);
  }

  // From the last file in the list, the lowest on the disk, to the first.
  method CompactFiles(mem: array<byte>, disk: array<byte>, ghost cat: seq<Entry>, ghost size: nat, ghost d0: seq<byte>,
    ghost h: seq<byte>)
    requires WellFormed(cat, size) && 2 <= size <= DISK_SECTORS
    requires Stage(mem, disk, cat, size, |cat|, d0, h)
    requires mem[OFFSET] == 8 * |cat| && |cat| <= MAX_FILES
    modifies mem, disk
    ensures Stage(mem, disk, cat, size, 0, d0, h)
  {
    assert IsListing(cat);
    hide CatalogueOf, CompactedFrom, Start, Length, Sectors, Carried, WellFormed, PagesOnDisk, SameHeader, Moves;
    ghost var k := |cat|;
    var y := Back8(mem[OFFSET]);
    while y != 0xF8
      invariant 0 <= k <= |cat| && mem.Length == MEMORY_SIZE
      invariant mem[OFFSET] == 8 * k && y == Back8(8 * k)
      invariant Stage(mem, disk, cat, size, k, d0, h)
      decreases k
    {
      ghost var m := mem[..];
      mem[OFFSET] := y;
      KeepsPages(m, mem[..], disk[..]);
      HeaderKept(h, m, mem[..], Moves(cat, k));
      k := k - 1;
      CompactFile(mem, disk, y, k, cat, size, d0, h);
      y := Back8(mem[OFFSET]);
    }
  }

  method FreeSectors(mem: array<byte>, ghost used: nat, ghost size: nat) returns (free: nat)
    requires mem.Length == MEMORY_SIZE && size == DiskSize(mem[..])
    requires used == Word(mem[DEST_LOW], mem[DEST_HIGH]) <= size
    ensures free == size - used
  {
    var (lo, c) := Sbc(mem[SIZE_LOW], mem[DEST_LOW], 1);
    var (hi, _) := Sbc(mem[SIZE_HIGH] % 4, mem[DEST_HIGH], c);
    free := Word(lo, hi);
  }

  // Eight DEYs.
  function Back8(y: byte): byte { if y < 8 then y + 248 else y - 8 }

  lemma StageStart(cat: seq<Entry>, d0: seq<byte>)
    requires IsListing(cat) && Used(cat, 0) < 1024 && |d0| == DISK_SIZE
    ensures CompactedFrom(cat, |cat|) == cat && Carried(cat, |cat|, d0, d0) && Used(cat, |cat|) == FIRST_SECTOR
  {
  }

  lemma CarriedAll(cat: seq<Entry>, d0: seq<byte>, d: seq<byte>)
    requires IsListing(cat) && Used(cat, 0) < 1024 && Carried(cat, 0, d0, d)
    ensures forall j :: 0 <= j < |cat| && Length(cat[j]) > 0 ==>
      SameData(d0, d, 256 * Start(cat[j]), 256 * Start(Compacted(cat)[j]), 256 * Sectors(Length(cat[j])))
    ensures forall i {:trigger d[i]} :: 256 * Used(cat, 0) <= i < DISK_SIZE ==> d[i] == d0[i]
  {
    forall j | 0 <= j < |cat| && Length(cat[j]) > 0
      ensures SameData(d0, d, 256 * Start(cat[j]), 256 * Start(Compacted(cat)[j]), 256 * Sectors(Length(cat[j])))
    {
      assert CarriedFile(cat, j, d0, d);
      CompactedContiguous(cat, j);
    }
  }
}
