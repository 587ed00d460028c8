// The order in which *CAT prints the files: repeated selection of the least name among
// those not yet printed, bit 7 of the first character marking the ones that are.

module CatListing {
  import opened Bits
  import opened Bytes
  import opened Layout

  const LEAST := 0xAB          // offset of the least name so far
  const HELD := 0x1060         // and its eight bytes
  const DEFAULT_DIR := 0x10CA
  const CUR_DRV_CAT := 0x1082  // drive whose catalogue is in memory

  // ---- The order of names ----

  // Dictionary order from position i on.
  predicate Before(a: seq<byte>, b: seq<byte>, i: nat)
    requires |a| == |b|
    decreases |a| - i
  {
    i < |a| && (a[i] < b[i] || (a[i] == b[i] && Before(a, b, i + 1)))
  }

  lemma {:induction false} BeforeTransitive(a: seq<byte>, b: seq<byte>, c: seq<byte>, i: nat)
    requires |a| == |b| == |c| && Before(a, b, i) && Before(b, c, i)
    ensures Before(a, c, i)
    decreases |a| - i
  {
    if a[i] == b[i] == c[i] {
      BeforeTransitive(a, b, c, i + 1);
    }
  }

  lemma {:induction false} BeforeTotal(a: seq<byte>, b: seq<byte>, i: nat)
    requires |a| == |b| && i <= |a|
    ensures Before(a, b, i) || Before(b, a, i) || a[i..] == b[i..]
    ensures !(Before(a, b, i) && Before(b, a, i))
    decreases |a| - i
  {
    if i < |a| && a[i] == b[i] {
      BeforeTotal(a, b, i + 1);
      assert a[i..] == [a[i]] + a[i + 1..] && b[i..] == [b[i]] + b[i + 1..];
    }
  }

  // File i is printed before file k: by directory and name, then by catalogue position.
  predicate InOrder(keys: seq<seq<byte>>, i: nat, k: nat)
    requires i < |keys| && k < |keys| && |keys[i]| == |keys[k]|
  {
    Before(keys[i], keys[k], 0) || (keys[i] == keys[k] && i < k)
  }

  predicate AreKeys(keys: seq<seq<byte>>) { forall k :: 0 <= k < |keys| ==> |keys[k]| == 8 }

  // Every file once, each in order with all that follow it.
  predicate IsOrderOf(keys: seq<seq<byte>>, outs: seq<nat>)
    requires AreKeys(keys)
  {
    && |outs| == |keys|
    && (forall i :: 0 <= i < |outs| ==> outs[i] < |keys|)
    && (forall k :: 0 <= k < |keys| ==> k in outs)
    && (forall i, j :: 0 <= i < j < |outs| ==> InOrder(keys, outs[i], outs[j]))
  }

  lemma {:induction false} OrderTransitive(keys: seq<seq<byte>>, i: nat, j: nat, k: nat)
    requires AreKeys(keys) && i < |keys| && j < |keys| && k < |keys|
    requires InOrder(keys, i, j) && InOrder(keys, j, k)
    ensures InOrder(keys, i, k)
  {
    if Before(keys[i], keys[j], 0) && Before(keys[j], keys[k], 0) {
      BeforeTransitive(keys[i], keys[j], keys[k], 0);
    }
  }

  lemma {:induction false} OrderTotal(keys: seq<seq<byte>>, i: nat, k: nat)
    requires AreKeys(keys) && i < |keys| && k < |keys| && i != k
    ensures InOrder(keys, i, k) != InOrder(keys, k, i)
  {
    BeforeTotal(keys[i], keys[k], 0);
    assert keys[i][0..] == keys[i] && keys[k][0..] == keys[k];
    if keys[i] == keys[k] {
      BeforeTotal(keys[i], keys[i], 0);
    }
  }

  // So the listing is fixed by the names: there is only one such order.
  lemma {:induction false} OneOrder(keys: seq<seq<byte>>, a: seq<nat>, b: seq<nat>, i: nat)
    requires AreKeys(keys) && IsOrderOf(keys, a) && IsOrderOf(keys, b)
    requires i <= |keys| && a[..i] == b[..i]
    ensures a == b
    decreases |keys| - i
  {
    if i == |keys| {
      assert a == a[..i] == b[..i] == b;
    } else {
      if a[i] != b[i] {
        LaterIn(keys, a, b, i);
        LaterIn(keys, b, a, i);
        OrderTotal(keys, a[i], b[i]);
        assert false;
      }
      assert a[..i + 1] == a[..i] + [a[i]] && b[..i + 1] == b[..i] + [b[i]];
      OneOrder(keys, a, b, i + 1);
    }
  }

  // What b prints at i, a prints later than i.
  lemma LaterIn(keys: seq<seq<byte>>, a: seq<nat>, b: seq<nat>, i: nat)
    requires AreKeys(keys) && IsOrderOf(keys, a) && IsOrderOf(keys, b)
    requires i < |keys| && a[..i] == b[..i] && a[i] != b[i]
    ensures InOrder(keys, a[i], b[i])
  {
    assert b[i] in a;
    var j :| 0 <= j < |a| && a[j] == b[i];
    if j < i {
      assert a[..i][j] == b[..i][j];
      OrderTotalSelf(keys, b[j]);
      assert false;
    }
  }

  lemma OrderTotalSelf(keys: seq<seq<byte>>, k: nat)
    requires AreKeys(keys) && k < |keys|
    ensures !InOrder(keys, k, k)
  {
    BeforeTotal(keys[k], keys[k], 0);
  }

  // Files whose directory byte was cleared come first.
  lemma ClearedFirst(keys: seq<seq<byte>>, outs: seq<nat>, i: nat, j: nat)
    requires AreKeys(keys) && IsOrderOf(keys, outs) && i < j < |outs|
    ensures keys[outs[j]][0] == 0 ==> keys[outs[i]][0] == 0
  {
    assert InOrder(keys, outs[i], outs[j]);
  }

  // ---- Names in the catalogue ----

  // Directory and name of the file at offset y, most significant first.
  function Key(m: seq<byte>, y: nat): seq<byte>
    requires |m| == MEMORY_SIZE && y < 256
  {
    [m[NAMES + 7 + y] % 128, m[NAMES + y] % 128, m[NAMES + 1 + y], m[NAMES + 2 + y], m[NAMES + 3 + y],
     m[NAMES + 4 + y], m[NAMES + 5 + y], m[NAMES + 6 + y]]
  }

  // The name held at $1060.
  function HeldKey(m: seq<byte>): seq<byte>
    requires |m| == MEMORY_SIZE
  {
    [m[HELD + 7], m[HELD], m[HELD + 1], m[HELD + 2], m[HELD + 3], m[HELD + 4], m[HELD + 5], m[HELD + 6]]
  }

  predicate Marked(m: seq<byte>, k: nat)
    requires |m| == MEMORY_SIZE && k < MAX_FILES
  {
    m[NAMES + 8 * k] >= 128
  }

  // Characters 1 to 6 of the names are seven-bit.
  predicate PlainNames(m: seq<byte>, n: nat)
    requires |m| == MEMORY_SIZE && n <= MAX_FILES
  {
    forall i :: NAMES <= i < NAMES + 8 * n && i % 8 != 0 && i % 8 != 7 ==> m[i] < 128
  }

  ghost predicate KeysAre(m: seq<byte>, keys: seq<seq<byte>>) {
    && |m| == MEMORY_SIZE && |keys| <= MAX_FILES && AreKeys(keys)
    && m[COUNT] == 8 * |keys| && PlainNames(m, |keys|)
    && forall k :: 0 <= k < |keys| ==> Key(m, 8 * k) == keys[k]
  }

  // Subtracting the name at $1060 from the one at offset y, least significant byte
  // first: the borrow left at the end is the dictionary order.
  method Precedes(mem: array<byte>, y: byte) returns (less: bool)
    requires mem.Length == MEMORY_SIZE && mem[NAMES + y] < 128
    ensures less == Before(Key(mem[..], y), HeldKey(mem[..]), 0)
  {
    ghost var a, b := Key(mem[..], y), HeldKey(mem[..]);
    var c: bit := 1;
    var x := 7;
    while x > 0
      invariant 0 <= x <= 7
      invariant c == 0 <==> Before(a, b, x + 1)
    {
      x := x - 1;
      assert a[x + 1] == mem[NAMES + y + x] && b[x + 1] == mem[HELD + x];
      c := Sbc(mem[NAMES + y + x], mem[HELD + x], c).1;
    }
    c := Sbc(mem[NAMES + 7 + y] % 128, mem[HELD + 7], c).1;
    less := c == 0;
  }

  // Copy the name at offset y to $1060, without its top bits.
  method Hold(mem: array<byte>, y: byte)
    requires mem.Length == MEMORY_SIZE && y <= 240
    requires forall i :: NAMES + y < i < NAMES + 7 + y ==> mem[i] < 128
    modifies mem
    ensures mem[LEAST] == y && HeldKey(mem[..]) == Key(mem[..], y) == old(Key(mem[..], y))
    ensures forall i :: 0 <= i < MEMORY_SIZE && i != LEAST && !(HELD <= i < HELD + 8) ==> mem[i] == old(mem[i])
  {
    mem[LEAST] := y;
    for x := 0 to 8
      invariant mem[LEAST] == y
      invariant forall i {:trigger mem[i]} :: HELD <= i < HELD + x ==> mem[i] == old(mem[NAMES + y + i - HELD]) % 128
      invariant forall i :: 0 <= i < MEMORY_SIZE && i != LEAST && !(HELD <= i < HELD + 8) ==> mem[i] == old(mem[i])
    {
      mem[HELD + x] := mem[NAMES + y + x] % 128;
    }
  }

  // $84f6: the next unmarked file from offset y on.
  method FindUnmarked(mem: array<byte>, from: byte, ghost n: nat) returns (y: byte, found: bool)
    requires mem.Length == MEMORY_SIZE && n <= MAX_FILES && mem[COUNT] == 8 * n
    requires from % 8 == 0 && from <= 8 * n
    ensures from <= y <= 8 * n && y % 8 == 0 && found == (y < 8 * n) && (found ==> !Marked(mem[..], y / 8))
    ensures forall k :: from <= 8 * k < y ==> Marked(mem[..], k)
  {
    y := from;
    while y < mem[COUNT] && mem[NAMES + y] >= 128
      invariant from <= y <= 8 * n && y % 8 == 0
      invariant forall k :: from <= 8 * k < y ==> Marked(mem[..], k)
    {
      y := y + 8;
    }
    found := y < mem[COUNT];
  }

  // ---- Selecting the least ----

  // The file at offset y is in order before every other unmarked file below bound.
  ghost predicate LeastBelow(m: seq<byte>, keys: seq<seq<byte>>, i: nat, bound: nat) {
    && |m| == MEMORY_SIZE && AreKeys(keys) && |keys| <= MAX_FILES
    && i < |keys| && !Marked(m, i)
    && forall k :: 0 <= k < bound && k < |keys| && k != i && !Marked(m, k) ==> InOrder(keys, i, k)
  }

  // Working storage of the selection.
  ghost predicate SameNames(m: seq<byte>, m': seq<byte>) {
    && |m| == |m'| == MEMORY_SIZE
    && forall i :: 0 <= i < MEMORY_SIZE && i != LEAST && !(HELD <= i < HELD + 8) ==> m'[i] == m[i]
  }

  lemma KeysKept(m: seq<byte>, m': seq<byte>, keys: seq<seq<byte>>)
    requires SameNames(m, m') && KeysAre(m, keys)
    ensures KeysAre(m', keys)
  {
    forall k | 0 <= k < |keys|
      ensures Key(m', 8 * k) == keys[k]
    {
      assert Key(m, 8 * k) == keys[k];
    }
  }

  lemma StartsLeast(m: seq<byte>, m': seq<byte>, keys: seq<seq<byte>>, i: nat, bound: nat)
    requires SameNames(m, m') && AreKeys(keys) && i < |keys| <= MAX_FILES && !Marked(m, i)
    requires forall k :: 0 <= k < i ==> Marked(m, k)
    requires forall k :: i < k < bound && k < |keys| ==> Marked(m', k)
    ensures LeastBelow(m', keys, i, bound)
  {
    assert !Marked(m', i);
    assert forall k :: 0 <= k < i ==> Marked(m', k) == Marked(m, k);
  }

  // One comparison, and the marked files skipped after it.
  lemma NextLeast(m: seq<byte>, m': seq<byte>, keys: seq<seq<byte>>, best: nat, k: nat, bound: nat)
    requires SameNames(m, m') && LeastBelow(m, keys, best, k) && best < k < |keys| && !Marked(m, k)
    requires forall j :: k < j < bound && j < |keys| ==> Marked(m', j)
    ensures LeastBelow(m', keys, if Before(keys[k], keys[best], 0) then k else best, bound)
  {
    hide Before, InOrder;
    var i := if Before(keys[k], keys[best], 0) then k else best;
    OrderOf(keys, best, k);
    assert forall j :: 0 <= j < |keys| ==> Marked(m', j) == Marked(m, j);
    forall j | 0 <= j < bound && j < |keys| && j != i && !Marked(m', j)
      ensures InOrder(keys, i, j)
    {
      if i == k && j != best {
        assert InOrder(keys, best, j);
        OrderTransitive(keys, k, best, j);
      }
    }
  }

  lemma OrderOf(keys: seq<seq<byte>>, best: nat, k: nat)
    requires AreKeys(keys) && best < k < |keys|
    ensures if Before(keys[k], keys[best], 0) then InOrder(keys, k, best) else InOrder(keys, best, k)
  {
    OrderTotal(keys, best, k);
  }

  // The state of the selection with offset y to be looked at next.
  ghost predicate Selecting(m: seq<byte>, keys: seq<seq<byte>>, y: nat, found: bool) {
    && KeysAre(m, keys)
    && y % 8 == 0 && y <= 8 * |keys| && found == (y < 8 * |keys|) && (found ==> !Marked(m, y / 8))
    && m[LEAST] % 8 == 0 && m[LEAST] < y
    && HeldKey(m) == keys[m[LEAST] / 8]
    && LeastBelow(m, keys, m[LEAST] / 8, y / 8)
  }

  // From the first unmarked file, at offset first, to the least of all.
  method SelectLeast(mem: array<byte>, first: byte, ghost keys: seq<seq<byte>>)
    requires mem.Length == MEMORY_SIZE && KeysAre(mem[..], keys)
    requires first % 8 == 0 && first < 8 * |keys| && !Marked(mem[..], first / 8)
    requires forall k :: 0 <= k < first / 8 ==> Marked(mem[..], k)
    modifies mem
    ensures mem[LEAST] % 8 == 0 && LeastBelow(mem[..], keys, mem[LEAST] / 8, |keys|)
    ensures SameNames(old(mem[..]), mem[..])
  {
    hide Before, InOrder, LeastBelow, KeysAre, Marked;
    ghost var m0 := mem[..];
    KeysFacts(m0, keys, first);
    Hold(mem, first);
    KeysKept(m0, mem[..], keys);
    var y, found := FindUnmarked(mem, first + 8, |keys|);
    StartsLeast(m0, mem[..], keys, first / 8, y / 8);
    while found
      invariant Selecting(mem[..], keys, y, found)
      invariant SameNames(m0, mem[..])
      decreases 8 * |keys| - y
    {
      y, found := Challenge(mem, y, keys);
    }
  }

  method Challenge(mem: array<byte>, y: byte, ghost keys: seq<seq<byte>>) returns (next: byte, found: bool)
    requires mem.Length == MEMORY_SIZE && Selecting(mem[..], keys, y, true)
    modifies mem
    ensures next > y && Selecting(mem[..], keys, next, found)
    ensures SameNames(old(mem[..]), mem[..])
  {
    hide Before, InOrder, LeastBelow, KeysAre;
    ghost var m, best := mem[..], mem[LEAST] / 8;
    KeysFacts(m, keys, y);
    var less := Precedes(mem, y);
    if less {
      Hold(mem, y);
    }
    KeysKept(m, mem[..], keys);
    next, found := FindUnmarked(mem, y + 8, |keys|);
    NextLeast(m, mem[..], keys, best, y / 8, next / 8);
  }

  lemma KeysFacts(m: seq<byte>, keys: seq<seq<byte>>, y: byte)
    requires KeysAre(m, keys) && y % 8 == 0 && y < 8 * |keys|
    ensures |m| == MEMORY_SIZE && m[COUNT] == 8 * |keys| && AreKeys(keys) && |keys| <= MAX_FILES
    ensures Key(m, y) == keys[y / 8]
    ensures forall i :: NAMES + y < i < NAMES + 7 + y ==> m[i] < 128
  {
    assert Key(m, 8 * (y / 8)) == keys[y / 8];
    assert NAMES % 8 == 0;
  }

  // ---- The whole listing ----

  function Unmarked(m: seq<byte>, n: nat): nat
    requires |m| == MEMORY_SIZE && n <= MAX_FILES
  {
    if n == 0 then 0 else Unmarked(m, n - 1) + (if Marked(m, n - 1) then 0 else 1)
  }

  lemma {:induction false} MarkOne(m: seq<byte>, m': seq<byte>, n: nat, i: nat)
    requires |m| == |m'| == MEMORY_SIZE && n <= MAX_FILES && i < MAX_FILES
    requires !Marked(m, i) && Marked(m', i)
    requires forall k :: 0 <= k < n && k != i ==> Marked(m', k) == Marked(m, k)
    ensures Unmarked(m', n) == Unmarked(m, n) - (if i < n then 1 else 0)
  {
    if n != 0 {
      MarkOne(m, m', n - 1, i);
    }
  }

  lemma {:induction false} AllMarked(m: seq<byte>, n: nat)
    requires |m| == MEMORY_SIZE && n <= MAX_FILES
    ensures (forall k :: 0 <= k < n ==> Marked(m, k)) <==> Unmarked(m, n) == 0
    ensures (forall k :: 0 <= k < n ==> !Marked(m, k)) ==> Unmarked(m, n) == n
  {
    if n != 0 {
      AllMarked(m, n - 1);
    }
  }

  // The files printed so far: the marked ones, in order, ahead of all the rest.
  ghost predicate Printed(m: seq<byte>, keys: seq<seq<byte>>, outs: seq<nat>) {
    && |m| == MEMORY_SIZE && AreKeys(keys) && |keys| <= MAX_FILES
    && |outs| + Unmarked(m, |keys|) == |keys|
    && (forall i :: 0 <= i < |outs| ==> outs[i] < |keys|)
    && (forall k :: 0 <= k < |keys| && Marked(m, k) ==> k in outs)
    && (forall i, j :: 0 <= i < j < |outs| ==> InOrder(keys, outs[i], outs[j]))
    && (forall i, k :: 0 <= i < |outs| && 0 <= k < |keys| && !Marked(m, k) ==> InOrder(keys, outs[i], k))
  }

  lemma PrintNext(m: seq<byte>, m': seq<byte>, keys: seq<seq<byte>>, outs: seq<nat>, i: nat)
    requires Printed(m, keys, outs) && LeastBelow(m, keys, i, |keys|)
    requires |m'| == MEMORY_SIZE && Marked(m', i)
    requires forall k :: 0 <= k < |keys| && k != i ==> Marked(m', k) == Marked(m, k)
    ensures Printed(m', keys, outs + [i])
  {
    hide InOrder;
    MarkOne(m, m', |keys|, i);
    forall k | 0 <= k < |keys| && Marked(m', k)
      ensures k in outs + [i]
    {
      assert k == i || k in outs;
    }
  }

  lemma SamePrinted(m: seq<byte>, m': seq<byte>, keys: seq<seq<byte>>, outs: seq<nat>)
    requires Printed(m, keys, outs) && SameNames(m, m')
    ensures Printed(m', keys, outs)
  {
    hide InOrder;
    SameCount(m, m', |keys|);
    assert forall k :: 0 <= k < |keys| ==> Marked(m', k) == Marked(m, k);
  }

  lemma {:induction false} SameCount(m: seq<byte>, m': seq<byte>, n: nat)
    requires SameNames(m, m') && n <= MAX_FILES
    ensures Unmarked(m', n) == Unmarked(m, n)
  {
    if n != 0 {
      SameCount(m, m', n - 1);
    }
  }

  lemma PrintedAll(m: seq<byte>, keys: seq<seq<byte>>, outs: seq<nat>)
    requires Printed(m, keys, outs)
    requires forall k :: 0 <= k < |keys| ==> Marked(m, k)
    ensures IsOrderOf(keys, outs)
  {
    hide InOrder;
    AllMarked(m, |keys|);
  }

  lemma NonePrinted(m: seq<byte>, keys: seq<seq<byte>>)
    requires KeysAre(m, keys) && forall k :: 0 <= k < |keys| ==> !Marked(m, k)
    ensures Printed(m, keys, [])
  {
    AllMarked(m, |keys|);
  }

  // Mark the least file, which is printed.
  method MarkLeast(mem: array<byte>, ghost keys: seq<seq<byte>>) returns (i: nat)
    requires mem.Length == MEMORY_SIZE && KeysAre(mem[..], keys)
    requires mem[LEAST] % 8 == 0 && mem[LEAST] < 8 * |keys| && !Marked(mem[..], mem[LEAST] / 8)
    modifies mem
    ensures i == old(mem[LEAST]) / 8 && KeysAre(mem[..], keys)
    ensures Marked(mem[..], i)
    ensures forall k :: 0 <= k < |keys| && k != i ==> Marked(mem[..], k) == old(Marked(mem[..], k))
  {
    ghost var m := mem[..];
    var y := mem[LEAST];
    mem[NAMES + y] := mem[NAMES + y] + 128;
    i := y / 8;
    MarkKeeps(m, mem[..], keys, i);
  }

  lemma MarkKeeps(m: seq<byte>, m': seq<byte>, keys: seq<seq<byte>>, i: nat)
    requires KeysAre(m, keys) && i < |keys| && !Marked(m, i)
    requires m' == m[NAMES + 8 * i := m[NAMES + 8 * i] + 128]
    ensures KeysAre(m', keys)
  {
    forall k | 0 <= k < |keys|
      ensures Key(m', 8 * k) == keys[k]
    {
      assert Key(m, 8 * k) == keys[k];
    }
  }

  // pc12: select, mark and print until no file is left unmarked.
  method PrintFiles(mem: array<byte>, ghost keys: seq<seq<byte>>) returns (outs: seq<nat>)
    requires mem.Length == MEMORY_SIZE && KeysAre(mem[..], keys)
    requires forall k :: 0 <= k < |keys| ==> !Marked(mem[..], k)
    modifies mem
    ensures IsOrderOf(keys, outs) && mem[CUR_DRV_CAT] == 0xFF
  {
    hide Printed, KeysAre, LeastBelow, InOrder, SameNames;
    outs := [];
    NonePrinted(mem[..], keys);
    CountFact(mem[..], keys);
    var y, found := FindUnmarked(mem, 0, |keys|);
    while found
      invariant KeysAre(mem[..], keys) && Printed(mem[..], keys, outs)
      invariant mem[COUNT] == 8 * |keys| && |keys| <= MAX_FILES
      invariant y % 8 == 0 && found == (y < 8 * |keys|) && (found ==> !Marked(mem[..], y / 8))
      invariant forall k :: 0 <= 8 * k < y && k < |keys| ==> Marked(mem[..], k)
      decreases Unmarked(mem[..], |keys|)
    {
      ghost var m := mem[..];
      SelectLeast(mem, y, keys);
      ghost var m' := mem[..];
      Selected(m, m', keys, outs, m'[LEAST] / 8);
      var i := MarkLeast(mem, keys);
      MarkOne(m', mem[..], |keys|, i);
      PrintNext(m', mem[..], keys, outs, i);
      outs := outs + [i];
      CountFact(mem[..], keys);
      y, found := FindUnmarked(mem, 0, |keys|);
    }
    PrintedAll(mem[..], keys, outs);
    mem[CUR_DRV_CAT] := 0xFF;
  }

  lemma CountFact(m: seq<byte>, keys: seq<seq<byte>>)
    requires KeysAre(m, keys)
    ensures |m| == MEMORY_SIZE && |keys| <= MAX_FILES && m[COUNT] == 8 * |keys|
  {
  }

  lemma Selected(m: seq<byte>, m': seq<byte>, keys: seq<seq<byte>>, outs: seq<nat>, i: nat)
    requires SameNames(m, m') && KeysAre(m, keys) && Printed(m, keys, outs) && LeastBelow(m', keys, i, |keys|)
    ensures KeysAre(m', keys) && Printed(m', keys, outs) && i < |keys| && !Marked(m', i)
    ensures Unmarked(m', |keys|) == Unmarked(m, |keys|)
  {
    KeysKept(m, m', keys);
    SamePrinted(m, m', keys, outs);
    SameCount(m, m', |keys|);
  }

  // ---- The current directory first ----

  lemma SameDirectory(a: byte, b: byte)
    ensures Eor(a, b) % 128 == 0 <==> a % 128 == b % 128
  {
    EorAgrees(a, b, 7);
    assert Pow2(4) == 16;
    assert Pow2(7) == 128;
  }

  // The key of file k as listed: in the current directory the directory is blank.
  function ListedKey(m: seq<byte>, k: nat): (r: seq<byte>)
    requires |m| == MEMORY_SIZE && k < MAX_FILES
    ensures |r| == 8
  {
    var key := Key(m, 8 * k);
    key[0 := if key[0] == m[DEFAULT_DIR] % 128 then 0 else key[0]]
  }

  ghost function ListedKeys(m: seq<byte>, n: nat): (keys: seq<seq<byte>>)
    requires |m| == MEMORY_SIZE && n <= MAX_FILES
    ensures |keys| == n && AreKeys(keys)
    ensures forall k :: 0 <= k < n ==> keys[k] == ListedKey(m, k)
  {
    seq(n, k requires 0 <= k < n => ListedKey(m, k))
  }

  // Blank the directory byte of each file in the current directory, all but its lock bit.
  method ClearCurrentDir(mem: array<byte>, n: nat)
    requires mem.Length == MEMORY_SIZE && n <= MAX_FILES && mem[COUNT] == 8 * n
    modifies mem
    ensures forall k :: 0 <= k < n ==> Key(mem[..], 8 * k) == old(ListedKey(mem[..], k))
    ensures forall i :: 0 <= i < MEMORY_SIZE && !(NAMES <= i < NAMES + 8 * n && i % 8 == 7) ==> mem[i] == old(mem[i])
  {
    hide Eor, Key, ListedKey;
    ghost var m0 := mem[..];
    var y: byte := 0;
    while y < mem[COUNT]
      invariant y % 8 == 0 && y <= 8 * n
      invariant forall i :: 0 <= i < MEMORY_SIZE && !(NAMES <= i < NAMES + y && i % 8 == 7) ==> mem[i] == m0[i]
      invariant forall i :: NAMES <= i < NAMES + y && i % 8 == 7 ==> mem[i] == ClearedDir(m0[i], m0[DEFAULT_DIR])
    {
      SameDirectory(mem[NAMES + 7 + y], mem[DEFAULT_DIR]);
      if Eor(mem[NAMES + 7 + y], mem[DEFAULT_DIR]) % 128 == 0 {
        mem[NAMES + 7 + y] := mem[NAMES + 7 + y] / 128 * 128;
      }
      y := y + 8;
    }
    forall k | 0 <= k < n
      ensures Key(mem[..], 8 * k) == ListedKey(m0, k)
    {
      ClearedKey(m0, mem[..], n, k);
    }
  }

  function ClearedDir(d: byte, current: byte): byte { if d % 128 == current % 128 then d / 128 * 128 else d }

  lemma ClearedKey(m: seq<byte>, m': seq<byte>, n: nat, k: nat)
    requires |m| == |m'| == MEMORY_SIZE && k < n <= MAX_FILES
    requires forall i :: 0 <= i < MEMORY_SIZE && !(NAMES <= i < NAMES + 8 * n && i % 8 == 7) ==> m'[i] == m[i]
    requires forall i :: NAMES <= i < NAMES + 8 * n && i % 8 == 7 ==> m'[i] == ClearedDir(m[i], m[DEFAULT_DIR])
    ensures Key(m', 8 * k) == ListedKey(m, k)
  {
    hide ClearedDir;
    var i := NAMES + 8 * k;
    EntryPlaces(k);
    assert m'[i] == m[i] && m'[i + 1] == m[i + 1] && m'[i + 2] == m[i + 2] && m'[i + 3] == m[i + 3];
    assert m'[i + 4] == m[i + 4] && m'[i + 5] == m[i + 5] && m'[i + 6] == m[i + 6];
    assert m'[i + 7] == ClearedDir(m[i + 7], m[DEFAULT_DIR]);
    ClearedLow(m[i + 7], m[DEFAULT_DIR]);
  }

  lemma EntryPlaces(k: nat)
    ensures var i := NAMES + 8 * k;
      && i % 8 == 0 && (i + 1) % 8 == 1 && (i + 2) % 8 == 2 && (i + 3) % 8 == 3
      && (i + 4) % 8 == 4 && (i + 5) % 8 == 5 && (i + 6) % 8 == 6 && (i + 7) % 8 == 7
  {
  }

  lemma ClearedLow(d: byte, current: byte)
    ensures ClearedDir(d, current) % 128 == if d % 128 == current % 128 then 0 else d % 128
  {
  }

  // ---- What is printed, in the bytes of the catalogue ----

  // The directory of file k, and a character of its name.
  function Directory(m: seq<byte>, k: nat): nat
    requires |m| == MEMORY_SIZE && k < MAX_FILES
  {
    m[NAMES + 8 * k + 7] % 128
  }

  function Character(m: seq<byte>, k: nat, x: nat): byte
    requires |m| == MEMORY_SIZE && k < MAX_FILES && x < 7
  {
    m[NAMES + 8 * k + x]
  }

  // The name of file a is not greater than that of file b: at the first character where they
  // differ it has the lesser one.
  predicate NameUpTo(m: seq<byte>, a: nat, b: nat)
    requires |m| == MEMORY_SIZE && a < MAX_FILES && b < MAX_FILES
  {
    forall x :: 0 <= x < 7 && SameStart(m, a, b, x) ==> Character(m, a, x) <= Character(m, b, x)
  }

  predicate SameStart(m: seq<byte>, a: nat, b: nat, x: nat)
    requires |m| == MEMORY_SIZE && a < MAX_FILES && b < MAX_FILES && x < 7
  {
    forall w :: 0 <= w < x ==> Character(m, a, w) == Character(m, b, w)
  }

  // File a may be listed before file b: the current directory comes before every other, and
  // the others in order; within a directory the names are in order. A directory byte of zero
  // counts as current.
  predicate MayPrecede(m: seq<byte>, a: nat, b: nat)
    requires |m| == MEMORY_SIZE && a < MAX_FILES && b < MAX_FILES
  {
    var here, da, db := m[DEFAULT_DIR] % 128, Directory(m, a), Directory(m, b);
    if da == here || da == 0 then (db == here || db == 0 ==> NameUpTo(m, a, b))
    else db != here && db != 0 && da <= db && (da == db ==> NameUpTo(m, a, b))
  }

  // Every file once, and none after one it must precede; files of the same name and directory
  // as they stand in the catalogue.
  ghost predicate IsListing(m: seq<byte>, n: nat, outs: seq<nat>) {
    && |m| == MEMORY_SIZE && n <= MAX_FILES && |outs| == n
    && (forall i :: 0 <= i < n ==> outs[i] < n)
    && (forall k :: 0 <= k < n ==> k in outs)
    && (forall i, j :: 0 <= i < j < n ==> MayPrecede(m, outs[i], outs[j]))
    && (forall i, j :: 0 <= i < j < n && MayPrecede(m, outs[j], outs[i]) ==> outs[i] < outs[j])
  }

  // So a file of the current directory comes before every file of another (that is not zero),
  // and the other directories are in order.
  lemma CurrentDirFirst(m: seq<byte>, n: nat, outs: seq<nat>, i: nat, j: nat)
    requires IsListing(m, n, outs) && i < j < n
    ensures var a, b, here := m[0x0E0F + 8 * outs[i]] % 128, m[0x0E0F + 8 * outs[j]] % 128, m[0x10CA] % 128;
      && (b == here && a != 0 ==> a == here)
      && (a != here && b != here && b != 0 ==> a <= b)
  {
    assert MayPrecede(m, outs[i], outs[j]);
    hide NameUpTo;
  }

  // And the names in a directory are in order, character by character.
  lemma NamesInOrder(m: seq<byte>, n: nat, outs: seq<nat>, i: nat, j: nat, x: nat)
    requires IsListing(m, n, outs) && i < j < n && x < 7
    requires m[0x0E0F + 8 * outs[i]] % 128 == m[0x0E0F + 8 * outs[j]] % 128
    requires var a, b := 0x0E08 + 8 * outs[i], 0x0E08 + 8 * outs[j];
      m[a..a + x] == m[b..b + x]
    ensures m[0x0E08 + 8 * outs[i] + x] <= m[0x0E08 + 8 * outs[j] + x]
  {
    var a, b := 0x0E08 + 8 * outs[i], 0x0E08 + 8 * outs[j];
    assert MayPrecede(m, outs[i], outs[j]);
    assert NameUpTo(m, outs[i], outs[j]);
    forall w | 0 <= w < x
      ensures Character(m, outs[i], w) == Character(m, outs[j], w)
    {
      assert m[a..a + x][w] == m[b..b + x][w];
    }
    assert SameStart(m, outs[i], outs[j], x);
    assert Character(m, outs[i], x) <= Character(m, outs[j], x);
  }

  lemma ListedBytes(m: seq<byte>, n: nat, outs: seq<nat>)
    requires |m| == MEMORY_SIZE && n <= MAX_FILES
    requires forall i :: NAMES <= i < NAMES + 8 * n && i % 8 != 7 ==> m[i] < 128
    requires IsOrderOf(ListedKeys(m, n), outs)
    ensures IsListing(m, n, outs)
  {
    hide Before, MayPrecede, ListedKey;
    var keys := ListedKeys(m, n);
    forall i, j | 0 <= i < j < n
      ensures MayPrecede(m, outs[i], outs[j])
      ensures MayPrecede(m, outs[j], outs[i]) ==> outs[i] < outs[j]
    {
      var a, b := outs[i], outs[j];
      assert InOrder(keys, a, b);
      PlainName(m, n, a);
      PlainName(m, n, b);
      PrecedingKeys(m, a, b);
      PrecedingKeys(m, b, a);
      BeforeTotal(keys[a], keys[b], 0);
    }
  }

  lemma PlainName(m: seq<byte>, n: nat, k: nat)
    requires |m| == MEMORY_SIZE && k < n <= MAX_FILES
    requires forall i :: NAMES <= i < NAMES + 8 * n && i % 8 != 7 ==> m[i] < 128
    ensures Character(m, k, 0) < 128
  {
    EntryPlaces(k);
  }

  // On the keys that is dictionary order.
  lemma PrecedingKeys(m: seq<byte>, a: nat, b: nat)
    requires |m| == MEMORY_SIZE && a < MAX_FILES && b < MAX_FILES
    requires Character(m, a, 0) < 128 && Character(m, b, 0) < 128
    ensures var ka, kb := ListedKey(m, a), ListedKey(m, b);
      MayPrecede(m, a, b) <==> Before(ka, kb, 0) || ka == kb
  {
    var ka, kb := ListedKey(m, a), ListedKey(m, b);
    KeyCharacters(m, a);
    KeyCharacters(m, b);
    NamesOfKeys(m, a, b, ka, kb);
    UpToMeans(ka, kb, 1);
    SplitKeys(ka, kb);
    hide ListedKey, NameUpTo, UpTo;
    assert Before(ka, kb, 0) <==> ka[0] < kb[0] || (ka[0] == kb[0] && Before(ka, kb, 1));
  }

  lemma SplitKeys(a: seq<byte>, b: seq<byte>)
    requires |a| == |b| == 8
    ensures a == b <==> a[0] == b[0] && a[1..] == b[1..]
  {
    assert a == [a[0]] + a[1..] && b == [b[0]] + b[1..];
  }

  lemma KeyCharacters(m: seq<byte>, k: nat)
    requires |m| == MEMORY_SIZE && k < MAX_FILES && Character(m, k, 0) < 128
    ensures var key := ListedKey(m, k);
      && key[0] == (if Directory(m, k) == m[DEFAULT_DIR] % 128 then 0 else Directory(m, k))
      && forall x :: 0 <= x < 7 ==> key[x + 1] == Character(m, k, x)
  {
  }

  // From position i on: at the first place where they differ a has the lesser byte.
  predicate UpTo(a: seq<byte>, b: seq<byte>, i: nat)
    requires |a| == |b|
  {
    forall x :: i <= x < |a| && Agree(a, b, i, x) ==> a[x] <= b[x]
  }

  predicate Agree(a: seq<byte>, b: seq<byte>, i: nat, x: nat)
    requires |a| == |b| && x <= |a|
  {
    forall w :: i <= w < x ==> a[w] == b[w]
  }

  lemma {:induction false} UpToMeans(a: seq<byte>, b: seq<byte>, i: nat)
    requires |a| == |b| && i <= |a|
    ensures UpTo(a, b, i) <==> Before(a, b, i) || a[i..] == b[i..]
    decreases |a| - i
  {
    if i < |a| {
      UpToMeans(a, b, i + 1);
      assert a[i..] == [a[i]] + a[i + 1..] && b[i..] == [b[i]] + b[i + 1..];
      if a[i] == b[i] {
        UpToLater(a, b, i);
      }
    }
  }

  lemma UpToLater(a: seq<byte>, b: seq<byte>, i: nat)
    requires |a| == |b| && i < |a| && a[i] == b[i]
    ensures UpTo(a, b, i) <==> UpTo(a, b, i + 1)
  {
    assert forall x :: i < x < |a| ==> (Agree(a, b, i, x) <==> Agree(a, b, i + 1, x));
  }

  lemma NamesOfKeys(m: seq<byte>, a: nat, b: nat, ka: seq<byte>, kb: seq<byte>)
    requires |m| == MEMORY_SIZE && a < MAX_FILES && b < MAX_FILES && |ka| == |kb| == 8
    requires forall x :: 0 <= x < 7 ==> ka[x + 1] == Character(m, a, x) && kb[x + 1] == Character(m, b, x)
    ensures NameUpTo(m, a, b) <==> UpTo(ka, kb, 1)
  {
    forall x | 0 <= x < 7
      ensures SameStart(m, a, b, x) <==> Agree(ka, kb, 1, x + 1)
    {
      assert forall w :: 1 <= w < x + 1 ==> ka[w] == Character(m, a, w - 1) && kb[w] == Character(m, b, w - 1);
    }
    if NameUpTo(m, a, b) {
      forall x | 1 <= x < 8 && Agree(ka, kb, 1, x)
        ensures ka[x] <= kb[x]
      {
        assert SameStart(m, a, b, x - 1);
      }
    }
  }

  // *CAT from the point where the files are listed.
  method Cat(mem: array<byte>, n: nat) returns (outs: seq<nat>)
    requires mem.Length == MEMORY_SIZE && n <= MAX_FILES && mem[COUNT] == 8 * n
    requires forall i :: NAMES <= i < NAMES + 8 * n && i % 8 != 7 ==> mem[i] < 128
    modifies mem
    ensures IsListing(old(mem[..]), n, outs)
    ensures IsOrderOf(old(ListedKeys(mem[..], n)), outs)
    ensures mem[CUR_DRV_CAT] == 0xFF
  {
    hide IsListing, MayPrecede, Before;
    ghost var m, keys := mem[..], ListedKeys(mem[..], n);
    ClearCurrentDir(mem, n);
    NamesUnmarked(mem[..], n);
    outs := PrintFiles(mem, keys);
    ListedBytes(m, n, outs);
  }

  lemma NamesUnmarked(m: seq<byte>, n: nat)
    requires |m| == MEMORY_SIZE && n <= MAX_FILES
    requires forall i :: NAMES <= i < NAMES + 8 * n && i % 8 != 7 ==> m[i] < 128
    ensures PlainNames(m, n) && forall k :: 0 <= k < n ==> !Marked(m, k)
  {
    forall k | 0 <= k < n
      ensures !Marked(m, k)
    {
      assert (NAMES + 8 * k) % 8 == 0;
    }
  }
}
