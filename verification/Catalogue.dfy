// The DFS catalogue in its two pages: allocation of a new file, deletion, extension
// in place and setting a length.

module Catalogue {
  import opened Bytes
  import opened Layout
  import opened Bits

  const CYCLE := 0x0F04        // catalogue sequence number, in BCD
  const SIZE_HIGH := 0x0F06    // bits 0-1: high bits of the disk size in sectors
  const SIZE_LOW := 0x0F07

  const FIRST_SECTOR := 2

  // Zero page: the block of a file operation.
  const LOAD_ADDR := 0xBE      // eight bytes: load, exec, length, packed, start
  const BASE_HIGH := 0xC4
  const BASE_LOW := 0xC5
  const LENGTH_HIGH := 0xC6
  const FILENAME := 0xC7       // eight bytes: name and directory
  const LOAD_HIGH := 0x1074
  const EXEC_HIGH := 0x1076
  const TEMP := 0xB0

  // ---- Files and their layout ----

  datatype Entry = Entry(name: seq<byte>, info: seq<byte>)

  predicate IsEntry(e: Entry) { |e.name| == 8 && |e.info| == 8 }

  function Start(e: Entry): nat
    requires IsEntry(e)
  {
    Word(e.info[7], e.info[6] % 4)
  }

  function Length(e: Entry): nat
    requires IsEntry(e)
  {
    Long(e.info[4], e.info[5], e.info[6] / 16 % 4)
  }

  function End(e: Entry): nat
    requires IsEntry(e)
  {
    Start(e) + Sectors(Length(e))
  }

  // For example, $e6 in the packed byte is execution 3, length 2, load 1 and start 2.
  lemma EntryFields(name: seq<byte>)
    requires |name| == 8
    ensures var e := Entry(name, [0x00, 0x19, 0x23, 0x80, 0x45, 0x67, 0xE6, 0x12]);
      Length(e) == 0x26745 && Start(e) == 0x212 && End(e) == 0x47A
    ensures Packed(2, 1, 2, 3) == 0xE6
  {
  }

  // And $23, $20 in the last two bytes of the header is option 2 and 800 sectors.
  lemma HeaderFields(m: seq<byte>)
    requires |m| == MEMORY_SIZE && m[0x0F05] == 0x18 && m[0x0F06] == 0x23 && m[0x0F07] == 0x20
    ensures IsCatalogue(m) && |CatalogueOf(m)| == 3 && DiskSize(m) == 800
    ensures CatalogueOf(m)[2].name == m[0x0E18..0x0E20] && CatalogueOf(m)[2].info == m[0x0F18..0x0F20]
  {
  }

  predicate IsListing(cat: seq<Entry>) { forall k :: 0 <= k < |cat| ==> IsEntry(cat[k]) }

  // A new file put at position k lies between Base and Top: above the file that
  // follows it in the list, below the one before it.
  function Base(cat: seq<Entry>, k: nat): nat
    requires IsListing(cat) && k <= |cat|
  {
    if k == |cat| then FIRST_SECTOR else End(cat[k])
  }

  function Top(cat: seq<Entry>, size: nat, k: nat): nat
    requires IsListing(cat) && k <= |cat|
  {
    if k == 0 then size else Start(cat[k - 1])
  }

  // Every file ends at or before the start of the one before it in the list.
  ghost predicate WellFormed(cat: seq<Entry>, size: nat) {
    && IsListing(cat)
    && (forall k :: 0 <= k <= |cat| && cat != [] ==> Base(cat, k) <= Top(cat, size, k))
  }

  // That is: sorted by descending start, pairwise disjoint, at or above sector 2,
  // and inside the disk.
  lemma {:induction false} WellFormedMeans(cat: seq<Entry>, size: nat)
    requires IsListing(cat)
    ensures WellFormed(cat, size) <==>
      && (forall i, j :: 0 <= i < j < |cat| ==> End(cat[j]) <= Start(cat[i]))
      && (forall k :: 0 <= k < |cat| ==> FIRST_SECTOR <= Start(cat[k]) && End(cat[k]) <= size)
  {
    if WellFormed(cat, size) {
      forall i, j | 0 <= i < j < |cat|
        ensures End(cat[j]) <= Start(cat[i])
      {
        Descending(cat, size, i, j);
      }
      forall k | 0 <= k < |cat|
        ensures FIRST_SECTOR <= Start(cat[k]) && End(cat[k]) <= size
      {
        assert Base(cat, |cat|) <= Top(cat, size, |cat|);
        assert Base(cat, 0) <= Top(cat, size, 0);
        if k < |cat| - 1 {
          Descending(cat, size, k, |cat| - 1);
        }
        if k > 0 {
          Descending(cat, size, 0, k);
        }
      }
    }
  }

  lemma {:induction false} Descending(cat: seq<Entry>, size: nat, i: nat, j: nat)
    requires WellFormed(cat, size) && i < j < |cat|
    ensures End(cat[j]) <= Start(cat[i])
    decreases j
  {
    assert Base(cat, j) <= Top(cat, size, j);
    if i < j - 1 {
      Descending(cat, size, i, j - 1);
    }
  }

  // Gaps further up the list are higher on the disk.
  lemma BasesDescend(cat: seq<Entry>, size: nat, i: nat, j: nat)
    requires WellFormed(cat, size) && i < j <= |cat|
    ensures Base(cat, j) <= Top(cat, size, j) <= Base(cat, i)
  {
    if i < j - 1 {
      Descending(cat, size, i, j - 1);
    }
  }

  predicate Fits(cat: seq<Entry>, size: nat, k: nat, length: nat)
    requires IsListing(cat) && k <= |cat|
  {
    256 * (Top(cat, size, k) - Base(cat, k)) >= length
  }

  // ---- What a listing operation does to the layout ----

  function Insert(cat: seq<Entry>, k: nat, e: Entry): seq<Entry>
    requires k <= |cat|
  {
    cat[..k] + [e] + cat[k..]
  }

  function Remove(cat: seq<Entry>, k: nat): seq<Entry>
    requires k < |cat|
  {
    cat[..k] + cat[k + 1..]
  }

  // A file placed at the bottom of a gap it fits keeps the layout.
  lemma InsertKeeps(cat: seq<Entry>, size: nat, k: nat, e: Entry)
    requires WellFormed(cat, size) && k <= |cat| && cat != [] && IsEntry(e)
    requires Start(e) == Base(cat, k)
    ensures WellFormed(Insert(cat, k, e), size) <==> Fits(cat, size, k, Length(e))
  {
    hide Start, Length, Sectors;
    var list := Insert(cat, k, e);
    assert forall i :: 0 <= i < k ==> list[i] == cat[i];
    assert list[k] == e;
    assert forall i :: k < i < |list| ==> list[i] == cat[i - 1];
    assert Base(cat, k) <= Top(cat, size, k);
    SectorsFit(Length(e), Top(cat, size, k) - Base(cat, k));
    if WellFormed(list, size) {
      assert Base(list, k) <= Top(list, size, k);
    }
    if Fits(cat, size, k, Length(e)) {
      forall i | 0 <= i <= |list|
        ensures Base(list, i) <= Top(list, size, i)
      {
        if i < k {
          assert Base(list, i) == Base(cat, i) && Top(list, size, i) == Top(cat, size, i);
        } else if i > k + 1 {
          assert Base(list, i) == Base(cat, i - 1) && Top(list, size, i) == Top(cat, size, i - 1);
        }
      }
    }
  }

  lemma SectorsFit(n: nat, gap: nat)
    ensures 256 * gap >= n <==> Sectors(n) <= gap
  {
  }

  lemma RemoveKeeps(cat: seq<Entry>, size: nat, k: nat)
    requires WellFormed(cat, size) && k < |cat|
    ensures WellFormed(Remove(cat, k), size)
  {
    hide Start, Length, Sectors;
    var list := Remove(cat, k);
    assert forall i :: 0 <= i < k ==> list[i] == cat[i];
    assert forall i :: k <= i < |list| ==> list[i] == cat[i + 1];
    forall i | 0 <= i <= |list| && list != []
      ensures Base(list, i) <= Top(list, size, i)
    {
      if i < k {
        assert Base(list, i) == Base(cat, i) && Top(list, size, i) == Top(cat, size, i);
      } else if i > k {
        assert Base(list, i) == Base(cat, i + 1) && Top(list, size, i) == Top(cat, size, i + 1);
      } else {
        assert Base(cat, k) <= Top(cat, size, k);
        assert Base(cat, k + 1) <= Top(cat, size, k + 1);
      }
    }
  }

  // A file may take any length that ends at or below its upper neighbour.
  lemma ResizeKeeps(cat: seq<Entry>, size: nat, k: nat, e: Entry)
    requires WellFormed(cat, size) && k < |cat| && IsEntry(e) && Start(e) == Start(cat[k])
    ensures WellFormed(cat[k := e], size) <==> Start(e) + Sectors(Length(e)) <= Top(cat, size, k)
  {
    hide Start, Length, Sectors;
    var list := cat[k := e];
    if WellFormed(list, size) {
      assert Base(list, k) <= Top(list, size, k);
      assert Top(list, size, k) == Top(cat, size, k);
    }
    if End(e) <= Top(cat, size, k) {
      forall i | 0 <= i <= |list|
        ensures Base(list, i) <= Top(list, size, i)
      {
        assert Base(cat, i) <= Top(cat, size, i);
        assert Top(list, size, i) == Top(cat, size, i);
        if i != k {
          assert Base(list, i) == Base(cat, i);
        }
      }
    }
  }

  // ---- The catalogue pages ----

  function Files(m: seq<byte>): nat
    requires |m| == MEMORY_SIZE
  {
    m[COUNT] / 8
  }

  function DiskSize(m: seq<byte>): nat
    requires |m| == MEMORY_SIZE
  {
    Word(m[SIZE_LOW], m[SIZE_HIGH] % 4)
  }

  function EntryAt(m: seq<byte>, k: nat): (e: Entry)
    requires |m| == MEMORY_SIZE && k <= MAX_FILES
    ensures IsEntry(e)
  {
    Entry(m[NAMES + 8 * k..NAMES + 8 * k + 8], m[INFO + 8 * k..INFO + 8 * k + 8])
  }

  predicate IsCatalogue(m: seq<byte>) {
    |m| == MEMORY_SIZE && m[COUNT] == 8 * Files(m) && Files(m) <= MAX_FILES
  }

  function CatalogueOf(m: seq<byte>): (cat: seq<Entry>)
    requires IsCatalogue(m)
    ensures IsListing(cat) && |cat| == Files(m)
  {
    seq(Files(m), k requires 0 <= k < Files(m) => EntryAt(m, k))
  }

  // The bytes get_next_block reads for the file at offset 8k.
  lemma EntryBytes(m: seq<byte>, k: nat)
    requires |m| == MEMORY_SIZE && k <= MAX_FILES
    ensures var e := EntryAt(m, k);
      && Start(e) == Word(m[INFO + 8 * k + 7], m[INFO + 8 * k + 6] % 4)
      && Length(e) == Long(m[INFO + 8 * k + 4], m[INFO + 8 * k + 5], m[INFO + 8 * k + 6] / 16 % 4)
  {
  }

  // The two bytes below a file's slot belong to its upper neighbour, or are the disk size.
  lemma TopBytes(m: seq<byte>, k: nat)
    requires IsCatalogue(m) && k <= Files(m)
    ensures Top(CatalogueOf(m), DiskSize(m), k) == Word(m[SIZE_LOW + 8 * k], m[SIZE_HIGH + 8 * k] % 4)
  {
    if k > 0 {
      EntryBytes(m, k - 1);
    }
  }

  lemma SameEntry(m: seq<byte>, k: nat, m': seq<byte>, k': nat)
    requires |m| == |m'| == MEMORY_SIZE && k <= MAX_FILES && k' <= MAX_FILES
    requires forall i :: NAMES + 8 * k <= i < NAMES + 8 * k + 8 ==> m[i] == m'[i + 8 * k' - 8 * k]
    requires forall i :: INFO + 8 * k <= i < INFO + 8 * k + 8 ==> m[i] == m'[i + 8 * k' - 8 * k]
    ensures EntryAt(m, k) == EntryAt(m', k')
  {
    var e, e' := EntryAt(m, k), EntryAt(m', k');
    forall i | 0 <= i < 8
      ensures e.name[i] == e'.name[i] && e.info[i] == e'.info[i]
    {
      assert m[NAMES + 8 * k + i] == m'[NAMES + 8 * k' + i] && m[INFO + 8 * k + i] == m'[INFO + 8 * k' + i];
    }
    assert e.name == e'.name && e.info == e'.info;
  }

  // get_first_block: is the gap from the base in $c4/$c5 to the upper neighbour big
  // enough for the three-byte length?
  method GetFirstBlock(mem: array<byte>, y: byte, ghost gap: nat) returns (c: bit)
    requires mem.Length == MEMORY_SIZE
    requires Word(mem[SIZE_LOW + y], mem[SIZE_HIGH + y] % 4) == Word(mem[BASE_LOW], mem[BASE_HIGH]) + gap
    ensures c == 1 <==> 256 * gap >= Long(mem[LENGTH_LOW], mem[LENGTH_MID], mem[LENGTH_HIGH])
  {
    var (lo, c0) := Sbc(mem[SIZE_LOW + y], mem[BASE_LOW], 1);
    var (hi, _) := Sbc(mem[SIZE_HIGH + y] % 4, mem[BASE_HIGH], c0);
    assert Word(lo, hi) == gap;
    c := Cmp(0, mem[LENGTH_LOW]);
    var (_, c1) := Sbc(lo, mem[LENGTH_MID], c);
    var (_, c2) := Sbc(hi, mem[LENGTH_HIGH], c1);
    c := c2;
  }

  // get_next_block: move the base to the end of the file at y.
  method GetNextBlock(mem: array<byte>, y: byte, ghost end: nat, ghost gap: nat) returns (c: bit)
    requires mem.Length == MEMORY_SIZE && y < 248
    requires end == Word(mem[INFO + 7 + y], mem[INFO + 6 + y] % 4)
                  + Sectors(Long(mem[INFO + 4 + y], mem[INFO + 5 + y], mem[INFO + 6 + y] / 16 % 4))
    requires Word(mem[SIZE_LOW + y], mem[SIZE_HIGH + y] % 4) == end + gap
    modifies mem
    ensures Word(mem[BASE_LOW], mem[BASE_HIGH]) == end
    ensures forall i :: 0 <= i < MEMORY_SIZE && i != BASE_LOW && i != BASE_HIGH ==> mem[i] == old(mem[i])
    ensures c == 1 <==> 256 * gap >= Long(mem[LENGTH_LOW], mem[LENGTH_MID], mem[LENGTH_HIGH])
  {
    mem[BASE_HIGH] := mem[INFO + 6 + y] / 16 % 4;
    var (_, c0) := Adc(0xFF, mem[INFO + 4 + y], 0);
    var (lo, c1) := Adc(mem[INFO + 7 + y], mem[INFO + 5 + y], c0);
    mem[BASE_LOW] := lo;
    var (hi, _) := Adc(mem[INFO + 6 + y] % 4, mem[BASE_HIGH], c1);
    mem[BASE_HIGH] := hi;
    c := GetFirstBlock(mem, y, gap);
  }

  // The search of $899d: from the bottom of the disk upwards, stop at the first gap
  // that is big enough.
  method FindGap(mem: array<byte>, ghost cat: seq<Entry>, ghost size: nat, ghost length: nat)
    returns (y: byte, full: bool)
    requires mem.Length == MEMORY_SIZE && IsCatalogue(mem[..])
    requires cat == CatalogueOf(mem[..]) && size == DiskSize(mem[..]) && WellFormed(cat, size) && cat != []
    requires length == Long(mem[LENGTH_LOW], mem[LENGTH_MID], mem[LENGTH_HIGH])
    modifies mem
    ensures full ==> forall k :: 0 <= k <= |cat| ==> !Fits(cat, size, k, length)
    ensures !full ==> var k := y / 8;
      && y == 8 * k && k <= |cat|
      && Fits(cat, size, k, length)
      && (forall j :: k < j <= |cat| ==> !Fits(cat, size, j, length))
      && Word(mem[BASE_LOW], mem[BASE_HIGH]) == Base(cat, k)
    ensures forall i :: 0 <= i < MEMORY_SIZE && i != BASE_LOW && i != BASE_HIGH ==> mem[i] == old(mem[i])
  {
    hide CatalogueOf, Fits, Start, Length, Sectors;
    mem[BASE_HIGH] := 0;
    mem[BASE_LOW] := FIRST_SECTOR;
    ghost var k := |cat|;
    y := mem[COUNT];
    GapAt(old(mem[..]), cat, size, k);
    var c := GetFirstBlock(mem, y, Top(cat, size, k) - Base(cat, k));
    FitsMeans(cat, size, k, length);
    while c == 0
      invariant 0 <= k <= |cat| && y == 8 * k
      invariant c == 1 <==> Fits(cat, size, k, length)
      invariant forall j :: k < j <= |cat| ==> !Fits(cat, size, j, length)
      invariant Word(mem[BASE_LOW], mem[BASE_HIGH]) == Base(cat, k)
      invariant forall i :: 0 <= i < MEMORY_SIZE && i != BASE_LOW && i != BASE_HIGH ==> mem[i] == old(mem[i])
      decreases k, 1 - c
    {
      if y == 0 {
        return y, true;
      }
      y := y - 8;
      k := k - 1;
      GapAt(old(mem[..]), cat, size, k);
      c := GetNextBlock(mem, y, End(cat[k]), Top(cat, size, k) - Base(cat, k));
      FitsMeans(cat, size, k, length);
    }
    full := false;
  }

  lemma GapAt(m: seq<byte>, cat: seq<Entry>, size: nat, k: nat)
    requires IsCatalogue(m) && cat == CatalogueOf(m) && size == DiskSize(m) && WellFormed(cat, size)
    requires cat != [] && k <= |cat|
    ensures Base(cat, k) <= Top(cat, size, k)
    ensures Top(cat, size, k) == Word(m[SIZE_LOW + 8 * k], m[SIZE_HIGH + 8 * k] % 4)
    ensures k < |cat| ==>
      && Base(cat, k) == End(cat[k])
      && End(cat[k]) == Word(m[INFO + 7 + 8 * k], m[INFO + 6 + 8 * k] % 4)
           + Sectors(Long(m[INFO + 4 + 8 * k], m[INFO + 5 + 8 * k], m[INFO + 6 + 8 * k] / 16 % 4))
  {
    TopBytes(m, k);
    if k < |cat| {
      EntryBytes(m, k);
    }
  }

  lemma FitsMeans(cat: seq<Entry>, size: nat, k: nat, length: nat)
    requires WellFormed(cat, size) && k <= |cat|
    ensures Fits(cat, size, k, length) <==> 256 * (Top(cat, size, k) - Base(cat, k)) >= length
  {
  }

  // ---- Creating a file ----

  // The entry $899d builds from zero page for a file starting at sector base.
  function NewEntry(m: seq<byte>, base: nat): (e: Entry)
    requires |m| == MEMORY_SIZE && base < 1024
    ensures IsEntry(e) && Start(e) == base
    ensures Length(e) == Long(m[LENGTH_LOW], m[LENGTH_MID], m[LENGTH_HIGH] % 4)
  {
    var packed := Packed(base / 256, m[LOAD_HIGH], m[LENGTH_HIGH], m[EXEC_HIGH]);
    Entry(m[FILENAME..FILENAME + 8], m[LOAD_ADDR..LOAD_ADDR + 6] + [packed, base % 256])
  }

  // Where each byte of it comes from: the name from $c7, six bytes from $be, and four pairs of
  // bits, the load and execution addresses' from $1074 and $1076.
  lemma NewEntryBytes(m: seq<byte>, base: nat)
    requires |m| == MEMORY_SIZE && base < 1024
    ensures var e := NewEntry(m, base);
      && (forall i :: 0 <= i < 8 ==> e.name[i] == m[0xC7 + i])
      && (forall i :: 0 <= i < 6 ==> e.info[i] == m[0xBE + i])
      && e.info[6] / 64 == m[0x1076] % 4 && e.info[6] / 16 % 4 == m[0xC6] % 4
      && e.info[6] / 4 % 4 == m[0x1074] % 4 && Word(e.info[7], e.info[6] % 4) == base
  {
    hide Packed;
  }

  // Two bits each of start, load address, length and execution address.
  function Packed(start: byte, load: byte, length: byte, exec: byte): (p: byte)
    requires start < 4
    ensures p % 4 == start && p / 4 % 4 == load % 4 && p / 16 % 4 == length % 4 && p / 64 == exec % 4
  {
    FourPairs(start, load % 4, length % 4, exec % 4);
    start + 4 * (load % 4) + 16 * (length % 4) + 64 * (exec % 4)
  }

  lemma FourPairs(a: nat, b: nat, c: nat, d: nat)
    requires a < 4 && b < 4 && c < 4 && d < 4
    ensures var p := a + 4 * b + 16 * c + 64 * d;
      p % 4 == a && p / 4 % 4 == b && p / 16 % 4 == c && p / 64 == d
  {
    var p := a + 4 * b + 16 * c + 64 * d;
    assert p / 4 == b + 4 * c + 16 * d;
    assert p / 16 == c + 4 * d;
  }

  // $8a17: squeeze the high bits into $c4.
  method Pack(mem: array<byte>)
    requires mem.Length == MEMORY_SIZE && mem[BASE_HIGH] < 4
    modifies mem
    ensures mem[BASE_HIGH] == Packed(old(mem[BASE_HIGH]), mem[LOAD_HIGH], mem[LENGTH_HIGH], mem[EXEC_HIGH])
    ensures forall i :: 0 <= i < MEMORY_SIZE && i != BASE_HIGH ==> mem[i] == old(mem[i])
  {
    hide Asl, MergeTopSix;
    var a: byte := mem[EXEC_HIGH] % 4;
    ghost var exec := a;
    a := ShiftTwo(a);
    a := MergeTopSix(a, mem[LENGTH_HIGH]);
    assert a == 4 * exec + mem[LENGTH_HIGH] % 4;
    ghost var two := a;
    a := ShiftTwo(a);
    a := MergeTopSix(a, mem[LOAD_HIGH]);
    assert a == 4 * two + mem[LOAD_HIGH] % 4;
    ghost var three := a;
    a := ShiftTwo(a);
    a := MergeTopSix(a, mem[BASE_HIGH]);
    assert a == 4 * three + mem[BASE_HIGH];
    mem[BASE_HIGH] := a;
  }

  // ASL, ASL.
  function ShiftTwo(a: byte): (r: byte)
    requires a < 64
    ensures r == 4 * a
  {
    Asl(Asl(a).0).0
  }

  // Move the entries from offset at upwards by one slot, from the top down.
  method OpenSlot(mem: array<byte>, at: byte)
    requires mem.Length == MEMORY_SIZE && at <= mem[COUNT] <= 240
    modifies mem
    ensures var n := old(mem[COUNT]);
      forall i :: 0 <= i < MEMORY_SIZE && i != TEMP ==>
        mem[i] == if NAMES + at + 8 <= i < NAMES + n + 8 || INFO + at + 8 <= i < INFO + n + 8
                  then old(mem[i - 8]) else old(mem[i])
  {
    mem[TEMP] := at;
    var y := mem[COUNT];
    ghost var n := mem[COUNT];
    while y != mem[TEMP]
      invariant at <= y <= n && mem[TEMP] == at
      invariant forall i :: 0 <= i < MEMORY_SIZE && i != TEMP ==>
        mem[i] == if NAMES + y + 8 <= i < NAMES + n + 8 || INFO + y + 8 <= i < INFO + n + 8
                  then old(mem[i - 8]) else old(mem[i])
    {
      mem[NAMES + 7 + y] := mem[NAMES - 1 + y];
      mem[INFO + 7 + y] := mem[INFO - 1 + y];
      y := Dec(y);
    }
  }

  // Copy the name, then the eight bytes from $be, into the slot at y.
  method StoreEntry(mem: array<byte>, at: byte)
    requires mem.Length == MEMORY_SIZE && at <= 240
    modifies mem
    ensures forall i :: 0 <= i < MEMORY_SIZE ==>
      mem[i] == if NAMES + at <= i < NAMES + at + 8 then old(mem[FILENAME + i - NAMES - at])
                else if INFO + at <= i < INFO + at + 8 then old(mem[LOAD_ADDR + i - INFO - at])
                else old(mem[i])
  {
    var x: byte, y := 0, at;
    while x != 8
      invariant x <= 8 && y == at + x
      invariant forall i :: 0 <= i < MEMORY_SIZE ==>
        mem[i] == if NAMES + at <= i < NAMES + y then old(mem[FILENAME + i - NAMES - at]) else old(mem[i])
    {
      mem[NAMES + y] := mem[FILENAME + x];
      y := Inc(y);
      x := Inc(x);
    }
    while x != 0
      invariant x <= 8 && y == at + x
      invariant forall i :: 0 <= i < MEMORY_SIZE ==>
        mem[i] == if NAMES + at <= i < NAMES + at + 8 then old(mem[FILENAME + i - NAMES - at])
                  else if INFO + y <= i < INFO + at + 8 then old(mem[LOAD_ADDR + i - INFO - at])
                  else old(mem[i])
    {
      var a := mem[LOAD_ADDR - 1 + x];
      y := Dec(y);
      mem[INFO + y] := a;
      x := Dec(x);
    }
  }

  // The catalogue after a slot has been opened at position k and filled.
  lemma Inserted(m: seq<byte>, m': seq<byte>, k: nat, e: Entry)
    requires IsCatalogue(m) && Files(m) < MAX_FILES && k <= Files(m) && IsEntry(e)
    requires |m'| == MEMORY_SIZE && m'[COUNT] == m[COUNT] + 8
    requires EntryAt(m', k) == e
    requires forall i :: NAMES <= i < NAMES + 8 * k || INFO <= i < INFO + 8 * k ==> m'[i] == m[i]
    requires forall i :: NAMES + 8 * k <= i < NAMES + m[COUNT] || INFO + 8 * k <= i < INFO + m[COUNT] ==>
      m'[i + 8] == m[i]
    ensures IsCatalogue(m') && CatalogueOf(m') == Insert(CatalogueOf(m), k, e)
  {
    var list, cat := CatalogueOf(m'), CatalogueOf(m);
    forall j | 0 <= j < |list|
      ensures list[j] == Insert(cat, k, e)[j]
    {
      if j < k {
        SameEntry(m, j, m', j);
      } else if j > k {
        SameEntry(m, j - 1, m', j);
      }
    }
  }

  lemma SamePages(m: seq<byte>, m': seq<byte>)
    requires IsCatalogue(m) && |m'| == MEMORY_SIZE
    requires forall i :: 0x0E00 <= i < 0x1000 && i != CYCLE ==> m'[i] == m[i]
    ensures IsCatalogue(m') && CatalogueOf(m') == CatalogueOf(m) && DiskSize(m') == DiskSize(m)
  {
    forall j | 0 <= j < Files(m)
      ensures CatalogueOf(m')[j] == CatalogueOf(m)[j]
    {
      SameEntry(m, j, m', j);
    }
  }

  // The sequence number goes up by one in BCD; writing the pages to the disk is the
  // device's business.
  method SaveCatalogue(mem: array<byte>)
    requires mem.Length == MEMORY_SIZE
    modifies mem
    ensures mem[CYCLE] == NextCycle(old(mem[CYCLE]))
    ensures forall i :: 0 <= i < MEMORY_SIZE && i != CYCLE ==> mem[i] == old(mem[i])
  {
    mem[CYCLE] := NextCycle(mem[CYCLE]);
  }

  // ADC #1 in decimal mode.
  function NextCycle(v: byte): byte {
    var low: int := if v % 16 >= 9 then v % 16 + 7 else v % 16 + 1;
    var sum: int := v - v % 16 + low;
    if sum > 0x9F then (sum + 0x60) % 256 else sum
  }

  // Two decimal digits, and the number they are.
  predicate IsDecimal(v: byte) { v / 16 < 10 && v % 16 < 10 }

  function Decimal(v: byte): nat { 10 * (v / 16) + v % 16 }

  // The sequence number counts in decimal, modulo a hundred.
  lemma CycleCounts(t: nat, o: nat)
    requires t < 10 && o < 10
    ensures var next := (10 * t + o + 1) % 100;
      NextCycle(16 * t + o) == 16 * (next / 10) + next % 10
  {
    hide NextCycle;
    CycleDigits(t, o);
    var next := if o < 9 then 10 * t + (o + 1) else if t < 9 then 10 * (t + 1) + 0 else 0;
    Hundred(t, o);
    if o < 9 {
      TwoDigits(t, o + 1);
    } else if t < 9 {
      TwoDigits(t + 1, 0);
    }
  }

  lemma Hundred(t: nat, o: nat)
    requires t < 10 && o < 10
    ensures (10 * t + o + 1) % 100 == if t == 9 && o == 9 then 0 else 10 * t + o + 1
  {
  }

  lemma CycleDigits(t: nat, o: nat)
    requires t < 10 && o < 10
    ensures NextCycle(16 * t + o) == if o < 9 then 16 * t + (o + 1) else if t < 9 then 16 * (t + 1) else 0
  {
    Nibbles(t, o);
  }

  lemma Nibbles(t: nat, o: nat)
    requires t < 16 && o < 16
    ensures (16 * t + o) / 16 == t && (16 * t + o) % 16 == o
  {
  }

  lemma TwoDigits(t: nat, o: nat)
    requires t < 10 && o < 10
    ensures (10 * t + o) / 10 == t && (10 * t + o) % 10 == o
  {
  }

  lemma NextDecimal(v: byte)
    requires IsDecimal(v)
    ensures IsDecimal(NextCycle(v)) && Decimal(NextCycle(v)) == (Decimal(v) + 1) % 100
  {
    hide NextCycle;
    var t, o := v / 16, v % 16;
    var next := (10 * t + o + 1) % 100;
    CycleCounts(t, o);
    Nibbles(next / 10, next % 10);
    assert next == 10 * (next / 10) + next % 10;
  }

  // The number after n changes.
  function Cycled(v: byte, n: nat): byte { if n == 0 then v else NextCycle(Cycled(v, n - 1)) }

  lemma {:induction false} CycledDecimal(v: byte, n: nat)
    requires IsDecimal(v)
    ensures IsDecimal(Cycled(v, n)) && Decimal(Cycled(v, n)) == (Decimal(v) + n) % 100
  {
    hide NextCycle, IsDecimal, Decimal;
    if n > 0 {
      CycledDecimal(v, n - 1);
      NextDecimal(Cycled(v, n - 1));
    } else {
      Below100(v);
    }
  }

  lemma Below100(v: byte)
    requires IsDecimal(v)
    ensures Decimal(v) < 100
  {
  }

  // The bytes of the file list, and the other variables a creation writes.
  predicate IsListByte(i: int) { NAMES <= i < NAMES + 8 * MAX_FILES || INFO <= i < INFO + 8 * MAX_FILES }

  predicate IsCreateVariable(i: int) { i == BASE_LOW || i == BASE_HIGH || i == TEMP || i == CYCLE || i == COUNT }

  // Open a slot at offset at, unless it is the first free one, and fill it for a
  // file starting at sector base.
  method FillSlot(mem: array<byte>, at: byte, ghost k: nat, ghost m0: seq<byte>, ghost base: nat)
    requires mem.Length == MEMORY_SIZE && |m0| == MEMORY_SIZE
    requires forall i :: 0 <= i < MEMORY_SIZE && i != BASE_LOW && i != BASE_HIGH ==> mem[i] == m0[i]
    requires IsCatalogue(m0) && Files(m0) < MAX_FILES && at == 8 * k && k <= Files(m0)
    requires base == Word(mem[BASE_LOW], mem[BASE_HIGH]) < 1024
    modifies mem
    ensures IsCatalogue(mem[..]) && DiskSize(mem[..]) == DiskSize(m0)
    ensures CatalogueOf(mem[..]) == Insert(CatalogueOf(m0), k, NewEntry(m0, base))
    ensures mem[CYCLE] == NextCycle(m0[CYCLE])
    ensures forall i :: 0 <= i < MEMORY_SIZE && !IsListByte(i) && !IsCreateVariable(i) ==> mem[i] == m0[i]
  {
    hide CatalogueOf, Insert, Packed, EntryAt, NextCycle;
    if mem[COUNT] != 0 {
      OpenSlot(mem, at);
    }
    StoreNew(mem, at, k, m0, base);
    ghost var m1 := mem[..];
    mem[COUNT] := mem[COUNT] + 8;
    SaveCatalogue(mem);
    SameEntry(m1, k, mem[..], k);
    Inserted(m0, mem[..], k, NewEntry(m0, base));
  }

  method StoreNew(mem: array<byte>, at: byte, ghost k: nat, ghost m0: seq<byte>, ghost base: nat)
    requires mem.Length == MEMORY_SIZE && |m0| == MEMORY_SIZE
    requires forall i :: FILENAME <= i < FILENAME + 8 || LOAD_ADDR <= i < LOAD_ADDR + 6 ==> mem[i] == m0[i]
    requires mem[LOAD_HIGH] == m0[LOAD_HIGH] && mem[LENGTH_HIGH] == m0[LENGTH_HIGH] && mem[EXEC_HIGH] == m0[EXEC_HIGH]
    requires at == 8 * k && at <= 240 && base == Word(mem[BASE_LOW], mem[BASE_HIGH]) < 1024
    modifies mem
    ensures EntryAt(mem[..], k) == NewEntry(m0, base)
    ensures forall i :: 0 <= i < MEMORY_SIZE ==>
      mem[i] == old(mem[i]) || i == BASE_HIGH || NAMES + at <= i < NAMES + at + 8 || INFO + at <= i < INFO + at + 8
  {
    hide Packed, EntryAt;
    Pack(mem);
    ghost var m1 := mem[..];
    StoreEntry(mem, at);
    StoredEntry(m0, m1, mem[..], k, base);
  }

  lemma StoredEntry(m0: seq<byte>, m1: seq<byte>, m2: seq<byte>, k: nat, base: nat)
    requires |m0| == |m1| == |m2| == MEMORY_SIZE && k < MAX_FILES && base < 1024
    requires forall i :: FILENAME <= i < FILENAME + 8 || LOAD_ADDR <= i < LOAD_ADDR + 6 ==> m1[i] == m0[i]
    requires m1[BASE_LOW] == base % 256
    requires m1[BASE_HIGH] == Packed(base / 256, m0[LOAD_HIGH], m0[LENGTH_HIGH], m0[EXEC_HIGH])
    requires forall i :: NAMES + 8 * k <= i < NAMES + 8 * k + 8 ==> m2[i] == m1[FILENAME + i - NAMES - 8 * k]
    requires forall i :: INFO + 8 * k <= i < INFO + 8 * k + 8 ==> m2[i] == m1[LOAD_ADDR + i - INFO - 8 * k]
    ensures EntryAt(m2, k) == NewEntry(m0, base)
  {
    var e, f := EntryAt(m2, k), NewEntry(m0, base);
    forall i | 0 <= i < 8
      ensures e.name[i] == f.name[i] && e.info[i] == f.info[i]
    {
      assert m2[NAMES + 8 * k + i] == m1[FILENAME + i];
      assert m2[INFO + 8 * k + i] == m1[LOAD_ADDR + i];
    }
    assert e.name == f.name && e.info == f.info;
  }

  datatype Creation = Created(y: byte) | DiskFull | CatalogueFull

  // $899d: a new file in the lowest gap that holds it; the file list and everything
  // else about the other files stays as it was.
  method Create(mem: array<byte>, ghost cat: seq<Entry>, ghost size: nat, ghost length: nat) returns (r: Creation)
    requires mem.Length == MEMORY_SIZE && IsCatalogue(mem[..])
    requires cat == CatalogueOf(mem[..]) && size == DiskSize(mem[..]) && WellFormed(cat, size)
    requires length == Long(mem[LENGTH_LOW], mem[LENGTH_MID], mem[LENGTH_HIGH])
    modifies mem
    ensures IsCatalogue(mem[..]) && DiskSize(mem[..]) == size
    ensures r == CatalogueFull <==> |cat| == MAX_FILES
    ensures r == DiskFull <==> 0 < |cat| < MAX_FILES && forall j :: 0 <= j <= |cat| ==> !Fits(cat, size, j, length)
    ensures !r.Created? ==> CatalogueOf(mem[..]) == cat
    ensures r.Created? && cat != [] ==> var k := r.y / 8;
      && r.y == 8 * k && k <= |cat|
      && Fits(cat, size, k, length) && (forall j :: k < j <= |cat| ==> !Fits(cat, size, j, length))
      && Base(cat, k) < 1024
      && CatalogueOf(mem[..]) == Insert(cat, k, NewEntry(old(mem[..]), Base(cat, k)))
    ensures cat == [] ==> r == Created(0) && CatalogueOf(mem[..]) == [NewEntry(old(mem[..]), FIRST_SECTOR)]
    // The layout stays sound; only in an empty catalogue is nothing checked.
    ensures cat != [] ==> WellFormed(CatalogueOf(mem[..]), size)
    ensures r.Created? && cat != [] ==> Length(CatalogueOf(mem[..])[r.y / 8]) == length
    ensures cat == [] ==>
      (WellFormed(CatalogueOf(mem[..]), size) <==> FIRST_SECTOR + Sectors(length % 0x40000) <= size)
    // The catalogue is written once, and only for a new file.
    ensures mem[CYCLE] == if r.Created? then NextCycle(old(mem[CYCLE])) else old(mem[CYCLE])
    ensures forall i :: 0 <= i < MEMORY_SIZE && !IsListByte(i) && !IsCreateVariable(i) ==> mem[i] == old(mem[i])
  {
    hide CatalogueOf, NewEntry, NextCycle;
    if mem[COUNT] == 0 {
      mem[BASE_HIGH] := 0;
      mem[BASE_LOW] := FIRST_SECTOR;
      FillSlot(mem, 0, 0, old(mem[..]), FIRST_SECTOR);
      FirstFile(old(mem[..]), size, length);
      return Created(0);
    }
    if mem[COUNT] >= 248 {
      return CatalogueFull;
    }
    var y, full := FindGap(mem, cat, size, length);
    if full {
      SamePages(old(mem[..]), mem[..]);
      return DiskFull;
    }
    SamePages(old(mem[..]), mem[..]);
    BaseInRange(old(mem[..]), cat, size, y / 8);
    FillSlot(mem, y, y / 8, old(mem[..]), Base(cat, y / 8));
    r := Created(y);
    FittedFile(old(mem[..]), cat, size, y / 8, length);
  }

  lemma BaseInRange(m: seq<byte>, cat: seq<Entry>, size: nat, k: nat)
    requires IsCatalogue(m) && cat == CatalogueOf(m) && size == DiskSize(m) && WellFormed(cat, size)
    requires cat != [] && k <= |cat|
    ensures Base(cat, k) <= Top(cat, size, k) < 1024
  {
    TopBytes(m, k);
    assert Base(cat, k) <= Top(cat, size, k);
  }

  lemma FirstFile(m: seq<byte>, size: nat, length: nat)
    requires |m| == MEMORY_SIZE && length == Long(m[LENGTH_LOW], m[LENGTH_MID], m[LENGTH_HIGH])
    ensures var e := NewEntry(m, FIRST_SECTOR);
      && Insert([], 0, e) == [e]
      && (WellFormed([e], size) <==> FIRST_SECTOR + Sectors(length % 0x40000) <= size)
  {
    var e := NewEntry(m, FIRST_SECTOR);
    LowEighteen(m[LENGTH_LOW], m[LENGTH_MID], m[LENGTH_HIGH]);
    assert Base([e], 0) == End(e) && Top([e], size, 0) == size;
    assert Base([e], 1) == FIRST_SECTOR && Top([e], size, 1) == Start(e);
  }

  // For example, 204545 bytes take 800 sectors, and with the catalogue do not fit on 800.
  lemma FirstFileOverruns(m: seq<byte>)
    requires |m| == MEMORY_SIZE && m[LENGTH_LOW] == 0x01 && m[LENGTH_MID] == 0x1F && m[LENGTH_HIGH] == 0x03
    ensures var e := NewEntry(m, FIRST_SECTOR);
      Length(e) == 204545 && End(e) == 802 && !WellFormed([e], 800)
  {
    FirstFile(m, 800, 204545);
  }

  lemma EighteenBits(x: nat, q: nat, r: nat)
    requires x == 0x40000 * q + r && r < 0x40000
    ensures x % 0x40000 == r
  {
  }

  lemma LowEighteen(lo: byte, mid: byte, hi: byte)
    ensures Long(lo, mid, hi % 4) == Long(lo, mid, hi) % 0x40000
  {
    EighteenBits(Long(lo, mid, hi), hi / 4, Long(lo, mid, hi % 4));
  }

  // A length that fits a gap fits in eighteen bits.
  lemma FittedFile(m: seq<byte>, cat: seq<Entry>, size: nat, k: nat, length: nat)
    requires IsCatalogue(m) && cat == CatalogueOf(m) && size == DiskSize(m) && WellFormed(cat, size)
    requires cat != [] && k <= |cat| && Fits(cat, size, k, length)
    requires length == Long(m[LENGTH_LOW], m[LENGTH_MID], m[LENGTH_HIGH])
    ensures Base(cat, k) < 1024
    ensures var e := NewEntry(m, Base(cat, k));
      && Length(e) == length
      && Insert(cat, k, e)[k] == e
      && WellFormed(Insert(cat, k, e), size)
  {
    hide CatalogueOf, WellFormed, Insert;
    BaseInRange(m, cat, size, k);
    FittedLength(m, Top(cat, size, k) - Base(cat, k), Base(cat, k), length);
    var e := NewEntry(m, Base(cat, k));
    hide NewEntry, Length, Start;
    InsertKeeps(cat, size, k, e);
    InsertedAt(cat, k, e);
  }

  lemma InsertedAt(cat: seq<Entry>, k: nat, e: Entry)
    requires k <= |cat|
    ensures |Insert(cat, k, e)| == |cat| + 1 && Insert(cat, k, e)[k] == e
  {
  }

  lemma FittedLength(m: seq<byte>, gap: nat, base: nat, length: nat)
    requires |m| == MEMORY_SIZE && gap < 1024 && base < 1024 && 256 * gap >= length
    requires length == Long(m[LENGTH_LOW], m[LENGTH_MID], m[LENGTH_HIGH])
    ensures Length(NewEntry(m, base)) == length
  {
    LowEighteen(m[LENGTH_LOW], m[LENGTH_MID], m[LENGTH_HIGH]);
  }
}
