// Changes to existing catalogue entries: deletion, extension of an open file up to
// its neighbour, and the length written back when a file is closed.

module CatalogueEdit {
  import opened Bytes
  import opened Layout
  import opened Bits
  import opened Catalogue

  const GAP_HIGH := 0x10C3

  // $82d1: move the entries above down over the deleted one.
  method Delete(mem: array<byte>, at: byte, ghost k: nat, ghost cat: seq<Entry>, ghost size: nat)
    requires mem.Length == MEMORY_SIZE && IsCatalogue(mem[..])
    requires cat == CatalogueOf(mem[..]) && size == DiskSize(mem[..])
    requires k < |cat| && at == 8 * k
    modifies mem
    ensures IsCatalogue(mem[..]) && DiskSize(mem[..]) == size
    ensures CatalogueOf(mem[..]) == Remove(cat, k)
    ensures WellFormed(cat, size) ==> WellFormed(CatalogueOf(mem[..]), size)
    ensures forall i :: 0 <= i < MEMORY_SIZE && !IsListByte(i) && i != COUNT ==> mem[i] == old(mem[i])
  {
    hide CatalogueOf, WellFormed, Remove;
    CloseSlot(mem, at);
    ghost var m1 := mem[..];
    mem[COUNT] := Sbc(mem[COUNT], 8, 1).0;
    Removed(old(mem[..]), mem[..], k);
    if WellFormed(cat, size) {
      RemoveKeeps(cat, size, k);
    }
  }

  method CloseSlot(mem: array<byte>, at: byte)
    requires mem.Length == MEMORY_SIZE && at < mem[COUNT] <= 248
    modifies mem
    ensures var n := old(mem[COUNT]);
      forall i :: 0 <= i < MEMORY_SIZE ==>
        mem[i] == if NAMES + at <= i < NAMES + n || INFO + at <= i < INFO + n then old(mem[i + 8]) else old(mem[i])
  {
    var y, more := at, true;
    ghost var n := mem[COUNT];
    while more
      invariant at <= y <= n && more == (y < n)
      invariant forall i :: 0 <= i < MEMORY_SIZE ==>
        mem[i] == if NAMES + at <= i < NAMES + y || INFO + at <= i < INFO + y then old(mem[i + 8]) else old(mem[i])
      decreases n - y
    {
      mem[NAMES + y] := mem[NAMES + 8 + y];
      mem[INFO + y] := mem[INFO + 8 + y];
      y := Inc(y);
      more := y < mem[COUNT];
    }
  }

  lemma Removed(m: seq<byte>, m': seq<byte>, k: nat)
    requires IsCatalogue(m) && k < Files(m)
    requires |m'| == MEMORY_SIZE && m'[COUNT] == m[COUNT] - 8
    requires forall i :: NAMES <= i < NAMES + 8 * k || INFO <= i < INFO + 8 * k ==> m'[i] == m[i]
    requires forall i :: NAMES + 8 * k <= i < NAMES + m[COUNT] || INFO + 8 * k <= i < INFO + m[COUNT] ==>
      m'[i] == m[i + 8]
    ensures IsCatalogue(m') && CatalogueOf(m') == Remove(CatalogueOf(m), k)
  {
    var list, cat := CatalogueOf(m'), CatalogueOf(m);
    forall j | 0 <= j < |list|
      ensures list[j] == Remove(cat, k)[j]
    {
      if j < k {
        SameEntry(m', j, m, j);
      } else {
        SameEntry(m', j, m, j + 1);
      }
    }
  }

  // The same file with another length.
  function WithLength(e: Entry, lo: byte, mid: byte, hi: byte): (f: Entry)
    requires IsEntry(e) && hi < 4
    ensures IsEntry(f) && f.name == e.name && Start(f) == Start(e) && Length(f) == Long(lo, mid, hi)
    ensures f.info[..4] == e.info[..4]
    ensures f.info[6] / 4 % 4 == e.info[6] / 4 % 4 && f.info[6] / 64 == e.info[6] / 64
  {
    var p := e.info[6];
    FourPairs(p % 4, p / 4 % 4, hi, p / 64);
    LowNibble(p);
    Entry(e.name, e.info[4 := lo][5 := mid][6 := LengthBits(p, hi)])
  }

  function LengthBits(p: byte, hi: byte): byte
    requires hi < 4
  {
    64 * (p / 64) + 16 * hi + p % 16
  }

  lemma LowNibble(p: byte)
    ensures p % 16 == p % 4 + 4 * (p / 4 % 4)
  {
  }

  // Nothing in the entries has changed but the three bytes at a.
  ghost predicate SameBut(m: seq<byte>, m': seq<byte>, a: nat) {
    && |m| == |m'| == MEMORY_SIZE
    && forall i :: (NAMES <= i < 0x0F00 || INFO <= i < 0x1000) && !(a <= i < a + 3) ==> m'[i] == m[i]
  }

  // The catalogue after the length of one entry has changed.
  lemma Resized(m: seq<byte>, m': seq<byte>, k: nat, hi: byte)
    requires IsCatalogue(m) && k < Files(m) && |m'| == MEMORY_SIZE && hi < 4
    requires SameBut(m, m', INFO + 8 * k + 4)
    requires m'[COUNT] == m[COUNT]
    requires m'[INFO + 8 * k + 6] == LengthBits(m[INFO + 8 * k + 6], hi)
    ensures IsCatalogue(m')
    ensures CatalogueOf(m')
      == CatalogueOf(m)[k := WithLength(EntryAt(m, k), m'[INFO + 8 * k + 4], m'[INFO + 8 * k + 5], hi)]
  {
    var list, cat := CatalogueOf(m'), CatalogueOf(m);
    var f := WithLength(EntryAt(m, k), m'[INFO + 8 * k + 4], m'[INFO + 8 * k + 5], hi);
    forall j | 0 <= j < |list|
      ensures list[j] == cat[k := f][j]
    {
      if j == k {
        ResizedEntry(m, m', k, hi);
      } else {
        SameEntry(m', j, m, j);
      }
    }
  }

  lemma ResizedEntry(m: seq<byte>, m': seq<byte>, k: nat, hi: byte)
    requires |m| == |m'| == MEMORY_SIZE && k < MAX_FILES && hi < 4
    requires SameBut(m, m', INFO + 8 * k + 4)
    requires m'[INFO + 8 * k + 6] == LengthBits(m[INFO + 8 * k + 6], hi)
    ensures EntryAt(m', k) == WithLength(EntryAt(m, k), m'[INFO + 8 * k + 4], m'[INFO + 8 * k + 5], hi)
  {
    hide LengthBits;
    var e, f := EntryAt(m', k), WithLength(EntryAt(m, k), m'[INFO + 8 * k + 4], m'[INFO + 8 * k + 5], hi);
    forall i | 0 <= i < 8
      ensures e.name[i] == f.name[i] && e.info[i] == f.info[i]
    {
      assert m'[NAMES + 8 * k + i] == m[NAMES + 8 * k + i];
      assert i < 4 || i == 7 ==> m'[INFO + 8 * k + i] == m[INFO + 8 * k + i];
    }
    assert e.name == f.name && e.info == f.info;
  }

  // Sectors from the file's start to its upper neighbour's.
  function Room(cat: seq<Entry>, size: nat, k: nat): nat
    requires IsListing(cat) && k < |cat| && Start(cat[k]) <= Top(cat, size, k)
  {
    Top(cat, size, k) - Start(cat[k])
  }

  // The two-byte subtraction works on bytes whose upper bits belong to other fields.
  lemma RoomBytes(topLo: byte, topHi: byte, lo: byte, hi: byte, room: nat)
    requires Word(topLo, topHi % 4) == Word(lo, hi % 4) + room
    ensures var (l, c) := Sbc(topLo, lo, 1);
      var (h, _) := Sbc(topHi, hi, c);
      l == room % 256 && h % 4 == room / 256 && room < 1024
  {
    var (l, c) := Sbc(topLo, lo, 1);
    assert room == l + 256 * (topHi % 4 - hi % 4 - (1 - c));
    assert topHi == 4 * (topHi / 4) + topHi % 4 && hi == 4 * (hi / 4) + hi % 4;
  }

  predicate IsExtendVariable(i: int, y: byte) {
    i == CYCLE || i == GAP_HIGH || i == ALLOCATED + y as int || i == ALLOCATED + 1 + y as int
  }

  // BPUT at the end of the allocation ($91c7): the file takes all the room up to its
  // upper neighbour, unless it has it already. The high bits of the length are
  // written before that is found out.
  method Extend(mem: array<byte>, x: byte, y: byte, ghost k: nat, ghost cat: seq<Entry>, ghost size: nat)
    returns (ok: bool)
    requires mem.Length == MEMORY_SIZE && IsCatalogue(mem[..])
    requires cat == CatalogueOf(mem[..]) && size == DiskSize(mem[..]) && WellFormed(cat, size)
    requires k < |cat| && x == 8 * k && 0x20 <= y <= 0xA0
    modifies mem
    ensures IsCatalogue(mem[..]) && DiskSize(mem[..]) == size
    ensures Start(cat[k]) <= Top(cat, size, k)
    ensures var room := Room(cat, size, k);
      var n := Length(cat[k]);
      && room < 1024
      && ok == (room != old(Word(mem[ALLOCATED + y], mem[ALLOCATED + 1 + y])))
      && (ok ==> CatalogueOf(mem[..]) == cat[k := WithLength(cat[k], 0, room % 256, room / 256)])
      && (ok ==> Word(mem[ALLOCATED + y], mem[ALLOCATED + 1 + y]) == room)
      && (!ok ==> CatalogueOf(mem[..]) == cat[k := WithLength(cat[k], n % 256, n / 256 % 256, room / 256)])
    ensures mem[CYCLE] == if ok then NextCycle(old(mem[CYCLE])) else old(mem[CYCLE])
    ensures !ok ==>
      mem[ALLOCATED + y] == old(mem[ALLOCATED + y]) && mem[ALLOCATED + 1 + y] == old(mem[ALLOCATED + 1 + y])
    ensures forall i :: 0 <= i < MEMORY_SIZE && !(INFO + 4 + x <= i <= INFO + 6 + x) && !IsExtendVariable(i, y) ==>
      mem[i] == old(mem[i])
  {
    hide CatalogueOf, WellFormed, WithLength, EntryAt, Start, Length;
    ghost var m := mem[..];
    ghost var room := RoomAt(m, cat, size, k);
    var lo, hi := MeasureRoom(mem, x, room);
    StoreHighBits(mem, x, hi);
    ok := !(hi == mem[ALLOCATED + 1 + y] && lo == mem[ALLOCATED + y]);
    if ok {
      TakeRoom(mem, x, y, lo, hi);
    }
    Resized(m, mem[..], k, hi);
  }

  method MeasureRoom(mem: array<byte>, x: byte, ghost room: nat) returns (lo: byte, hi: byte)
    requires mem.Length == MEMORY_SIZE && x < 248
    requires Word(mem[SIZE_LOW + x], mem[SIZE_HIGH + x] % 4) == Word(mem[INFO + 7 + x], mem[INFO + 6 + x] % 4) + room
    ensures lo == room % 256 && hi == room / 256 && hi < 4
  {
    RoomBytes(mem[SIZE_LOW + x], mem[SIZE_HIGH + x], mem[INFO + 7 + x], mem[INFO + 6 + x], room);
    var (l, c) := Sbc(mem[SIZE_LOW + x], mem[INFO + 7 + x], 1);
    var (h, _) := Sbc(mem[SIZE_HIGH + x], mem[INFO + 6 + x], c);
    lo, hi := l, h % 4;
  }

  method TakeRoom(mem: array<byte>, x: byte, y: byte, lo: byte, hi: byte)
    requires mem.Length == MEMORY_SIZE && x < 248 && 0x20 <= y <= 0xA0
    modifies mem
    ensures mem[INFO + 4 + x] == 0 && mem[INFO + 5 + x] == lo
    ensures mem[ALLOCATED + y] == lo && mem[ALLOCATED + 1 + y] == hi
    ensures mem[CYCLE] == NextCycle(old(mem[CYCLE]))
    ensures forall i :: 0 <= i < MEMORY_SIZE && i != INFO + 4 + x && i != INFO + 5 + x && !IsExtendVariable(i, y) ==>
      mem[i] == old(mem[i])
  {
    mem[INFO + 5 + x] := lo;
    mem[ALLOCATED + y] := lo;
    mem[ALLOCATED + 1 + y] := hi;
    mem[INFO + 4 + x] := 0;
    SaveCatalogue(mem);
  }

  method StoreHighBits(mem: array<byte>, x: byte, hi: byte)
    requires mem.Length == MEMORY_SIZE && hi < 4 && x < 248
    modifies mem
    ensures mem[INFO + 6 + x] == LengthBits(old(mem[INFO + 6 + x]), hi)
    ensures forall i :: 0 <= i < MEMORY_SIZE && i != GAP_HIGH && i != INFO + 6 + x ==> mem[i] == old(mem[i])
  {
    hide ShiftTwo, MergeBits45;
    mem[GAP_HIGH] := hi;
    var a := ShiftTwo(ShiftTwo(hi));
    assert a / 16 % 4 == hi;
    mem[INFO + 6 + x] := MergeBits45(a, mem[INFO + 6 + x]);
  }

  lemma RoomAt(m: seq<byte>, cat: seq<Entry>, size: nat, k: nat) returns (room: nat)
    requires IsCatalogue(m) && cat == CatalogueOf(m) && size == DiskSize(m) && WellFormed(cat, size) && k < |cat|
    ensures Start(cat[k]) <= Top(cat, size, k) && room == Room(cat, size, k)
    ensures cat[k] == EntryAt(m, k)
    ensures Word(m[SIZE_LOW + 8 * k], m[SIZE_HIGH + 8 * k] % 4)
         == Word(m[INFO + 7 + 8 * k], m[INFO + 6 + 8 * k] % 4) + room
    ensures m[INFO + 4 + 8 * k] == Length(cat[k]) % 256 && m[INFO + 5 + 8 * k] == Length(cat[k]) / 256 % 256
  {
    GapAt(m, cat, size, k);
    EntryBytes(m, k);
    room := Room(cat, size, k);
    LongBytes(m[INFO + 4 + 8 * k], m[INFO + 5 + 8 * k], m[INFO + 6 + 8 * k] / 16 % 4);
    hide Start, Length;
  }

  lemma LongBytes(lo: byte, mid: byte, hi: byte)
    ensures Long(lo, mid, hi) % 256 == lo && Long(lo, mid, hi) / 256 % 256 == mid
  {
    assert Long(lo, mid, hi) == lo + 256 * (mid + 256 * hi);
  }

  // An extended file ends exactly where its upper neighbour starts.
  lemma ExtendKeeps(cat: seq<Entry>, size: nat, k: nat)
    requires WellFormed(cat, size) && k < |cat| && Start(cat[k]) <= Top(cat, size, k) && Room(cat, size, k) < 1024
    ensures var room := Room(cat, size, k);
      var e := WithLength(cat[k], 0, room % 256, room / 256);
      && Length(e) == 256 * room && End(e) == Top(cat, size, k)
      && WellFormed(cat[k := e], size)
  {
    var room := Room(cat, size, k);
    var e := WithLength(cat[k], 0, room % 256, room / 256);
    assert Sectors(256 * room) == room;
    ResizeKeeps(cat, size, k, e);
  }

  // In memory, and until the close that follows, the early store of the high bits is
  // harmless unless the file's last 64K is within a sector of complete.
  lemma RefusalKeeps(cat: seq<Entry>, size: nat, k: nat)
    requires WellFormed(cat, size) && k < |cat| && Start(cat[k]) <= Top(cat, size, k)
    requires Sectors(Length(cat[k])) == Room(cat, size, k) < 1024
    ensures var n := Length(cat[k]);
      var e := WithLength(cat[k], n % 256, n / 256 % 256, Room(cat, size, k) / 256);
      && (WellFormed(cat[k := e], size) <==> n % 0x10000 <= 0xFF00)
      && (n % 0x10000 <= 0xFF00 ==> Length(e) == n)
  {
    var n, room := Length(cat[k]), Room(cat, size, k);
    var e := WithLength(cat[k], n % 256, n / 256 % 256, room / 256);
    SplitLength(n, room);
    ResizeKeeps(cat, size, k, e);
  }

  // For example, 65535 bytes filling sectors 2 to 257 of 258: until the close the entry
  // reaches beyond the disk.
  lemma RefusalOverruns(name: seq<byte>)
    requires |name| == 8
    ensures var e := Entry(name, [0, 0, 0, 0, 0xFF, 0xFF, 0, 2]);
      && WellFormed([e], 258) && Room([e], 258, 0) == 256
      && !WellFormed([WithLength(e, 0xFF, 0xFF, 1)], 258)
  {
    var e := Entry(name, [0, 0, 0, 0, 0xFF, 0xFF, 0, 2]);
    var f := WithLength(e, 0xFF, 0xFF, 1);
    assert Length(e) == 0xFFFF && Start(e) == 2;
    WellFormedMeans([e], 258);
    WellFormedMeans([f], 258);
    assert End(f) == 514;
    assert [f][0] == f;
  }

  lemma SplitLength(n: nat, room: nat)
    requires Sectors(n) == room
    ensures n == n % 256 + 256 * (n / 256 % 256) + 65536 * (n / 65536)
    ensures n % 0x10000 == n % 256 + 256 * (n / 256 % 256)
    ensures room / 256 == n / 65536 + if n % 0x10000 > 0xFF00 then 1 else 0
  {
    assert n / 256 == 256 * (n / 65536) + n / 256 % 256;
    var low := n % 0x10000;
    assert n == 0x10000 * (n / 0x10000) + low;
    assert (n + 255) / 256 == 256 * (n / 0x10000) + (low + 255) / 256;
  }

  // The length bytes written back when a file is closed ($8e27).
  method SetLength(mem: array<byte>, x: byte, y: byte, ghost k: nat, ghost cat: seq<Entry>)
    requires mem.Length == MEMORY_SIZE && IsCatalogue(mem[..]) && cat == CatalogueOf(mem[..])
    requires k < |cat| && x == 8 * k && 0x20 <= y <= 0xA0
    modifies mem
    ensures IsCatalogue(mem[..]) && DiskSize(mem[..]) == old(DiskSize(mem[..]))
    ensures CatalogueOf(mem[..]) ==
      cat[k := WithLength(cat[k], old(mem[EXTENT + y]), old(mem[EXTENT + 1 + y]), old(mem[EXTENT + 2 + y]) % 4)]
    ensures mem[CYCLE] == NextCycle(old(mem[CYCLE]))
    ensures forall i :: 0 <= i < MEMORY_SIZE && i != CYCLE && !(INFO + 4 + x <= i <= INFO + 6 + x) ==>
      mem[i] == old(mem[i])
  {
    hide CatalogueOf, WithLength, EntryAt, LengthBits;
    ghost var m := mem[..];
    EntryIn(m, cat, k);
    StoreLength(mem, x, mem[EXTENT + y], mem[EXTENT + 1 + y], mem[EXTENT + 2 + y]);
    Resized(m, mem[..], k, m[EXTENT + 2 + y] % 4);
  }

  method StoreLength(mem: array<byte>, x: byte, lo: byte, mid: byte, hi: byte)
    requires mem.Length == MEMORY_SIZE && x < 248
    modifies mem
    ensures mem[INFO + 4 + x] == lo && mem[INFO + 5 + x] == mid
    ensures mem[INFO + 6 + x] == LengthBits(old(mem[INFO + 6 + x]), hi % 4)
    ensures mem[CYCLE] == NextCycle(old(mem[CYCLE]))
    ensures forall i :: 0 <= i < MEMORY_SIZE && i != CYCLE && !(INFO + 4 + x <= i <= INFO + 6 + x) ==>
      mem[i] == old(mem[i])
  {
    mem[INFO + 4 + x] := lo;
    mem[INFO + 5 + x] := mid;
    var a: byte := 16 * (hi % 16);
    LowPair(hi);
    mem[INFO + 6 + x] := MergeBits45(a, mem[INFO + 6 + x]);
    SaveCatalogue(mem);
  }

  // Four left shifts keep the low nibble, of which the mask keeps two bits.
  lemma LowPair(hi: byte)
    ensures 16 * (hi % 16) / 16 % 4 == hi % 4
  {
    LowNibble(hi);
  }

  lemma EntryIn(m: seq<byte>, cat: seq<Entry>, k: nat)
    requires IsCatalogue(m) && cat == CatalogueOf(m) && k < |cat|
    ensures cat[k] == EntryAt(m, k)
  {
  }

  // Closing keeps the layout exactly when the length fits in the room; a length
  // within the sectors the file had always does.
  lemma SetLengthKeeps(cat: seq<Entry>, size: nat, k: nat, lo: byte, mid: byte, hi: byte)
    requires WellFormed(cat, size) && k < |cat| && hi < 4 && Start(cat[k]) <= Top(cat, size, k)
    ensures var e := WithLength(cat[k], lo, mid, hi);
      && (WellFormed(cat[k := e], size) <==> Sectors(Long(lo, mid, hi)) <= Room(cat, size, k))
      && (Sectors(Long(lo, mid, hi)) <= Sectors(Length(cat[k])) ==> WellFormed(cat[k := e], size))
  {
    ResizeKeeps(cat, size, k, WithLength(cat[k], lo, mid, hi));
    assert Base(cat, k) <= Top(cat, size, k);
  }
}
