// The UPTX ROM's transfer: the same protocol started from a command line, with each
// byte of the reply stored through the ROM select latch into any of sixteen banks.

module Uptx {
  import opened Bytes
  import opened Layout
  import opened Firmware
  import opened Lockstep
  import opened Server
  import Transfer
  import Opcodes

  const WINDOW := 0x8000       // the selected bank shows here
  const BANK_SIZE := 0x4000
  const BANKS := 16

  const DATA_PTR := 0xDA
  const BASE := 0x0380
  const CHANNEL := BASE
  const COMMAND := BASE + 1    // holds the latch while receiving
  const PARAM1 := BASE + 2
  const PARAM2 := BASE + 3
  const SEND_LENGTH := BASE + 4
  const SEND_ADDR := BASE + 6
  const RECV_ADDR := BASE + 8
  const DEST_ROM := BASE + 10
  const STORE_BYTE := BASE + 11

  // LDX dest_rom, STX ROM, STA (data_ptr),Y, LDX command, STX ROM, RTS.
  const STORE_CODE: seq<byte> :=
    [0xAE, 0x8A, 0x03, 0x8E, 0x30, 0xFE, 0x91, 0xDA, 0xAE, 0x81, 0x03, 0x8E, 0x30, 0xFE, 0x60]

  const ROM_SELECT := 0xFE30

  // The stored bytes, as the instructions they are.
  lemma StoringCode()
    ensures Opcodes.OpcodeAt(STORE_CODE[0]) == Opcodes.Op(Opcodes.N('l', 'd', 'x'), Opcodes.ABS)
    ensures Word(STORE_CODE[1], STORE_CODE[2]) == DEST_ROM
    ensures Opcodes.OpcodeAt(STORE_CODE[3]) == Opcodes.Op(Opcodes.N('s', 't', 'x'), Opcodes.ABS)
    ensures Word(STORE_CODE[4], STORE_CODE[5]) == ROM_SELECT
    ensures Opcodes.OpcodeAt(STORE_CODE[6]) == Opcodes.Op(Opcodes.N('s', 't', 'a'), Opcodes.INDY)
    ensures STORE_CODE[7] == DATA_PTR
    ensures Opcodes.OpcodeAt(STORE_CODE[8]) == Opcodes.Op(Opcodes.N('l', 'd', 'x'), Opcodes.ABS)
    ensures Word(STORE_CODE[9], STORE_CODE[10]) == COMMAND
    ensures Opcodes.OpcodeAt(STORE_CODE[11]) == Opcodes.Op(Opcodes.N('s', 't', 'x'), Opcodes.ABS)
    ensures Word(STORE_CODE[12], STORE_CODE[13]) == ROM_SELECT
    ensures Opcodes.OpcodeAt(STORE_CODE[14]) == Opcodes.Op(Opcodes.N('r', 't', 's'), Opcodes.IMP)
  {
  }

  predicate InWindow(a: nat) { WINDOW <= a < WINDOW + BANK_SIZE }

  function BankIndex(a: nat, bank: byte): (i: nat)
    requires InWindow(a) && bank < BANKS
    ensures i < 0x40000
  {
    0x4000 * bank + (a - WINDOW)
  }

  // An address of the block that is not in the window.
  predicate InOpen(i: int, a: nat, n: nat) { Transfer.InRegion(i, a, n) && !InWindow(i) }

  // The variables the transfer writes.
  predicate IsWorking(k: int) { DATA_PTR <= k <= DATA_PTR + 1 || BASE <= k < STORE_BYTE + 15 }

  predicate CanSendFrom(a: nat, n: nat) { Transfer.ClearOf(a, n, DATA_PTR, SEND_LENGTH + 1) }

  predicate CanReceiveAt(a: nat, n: nat) {
    Transfer.IsRegion(a, n) && forall k | a <= k < a + n :: !IsWorking(k)
  }

  // Byte i of the banks belongs to the block of n addresses from a in this bank.
  predicate IsTarget(i: int, a: nat, n: nat, bank: byte)
    requires bank < BANKS
  {
    0x4000 * bank <= i < 0x4000 * bank + BANK_SIZE && Transfer.InRegion(i - 0x4000 * bank + WINDOW, a, n)
  }

  // The storing code is in place.
  predicate Installed(m: seq<byte>) {
    |m| == MEMORY_SIZE && forall i {:trigger m[i]} :: STORE_BYTE <= i < STORE_BYTE + 15 ==>
      m[i] == STORE_CODE[i - STORE_BYTE]
  }

  lemma StillInstalled(m: seq<byte>, m': seq<byte>)
    requires Installed(m) && |m'| == MEMORY_SIZE
    requires forall i :: STORE_BYTE <= i < STORE_BYTE + 15 ==> m'[i] == m[i]
    ensures Installed(m')
  {
  }

  class Micro {
    const b: Transfer.Beeb
    const banks: array<byte>
    var latch: byte

    ghost predicate Valid()
      reads this, b, b.host
    {
      && b.Valid() && banks.Length == 0x40000 && latch < BANKS
      && banks != b.mem && banks != b.host.diskImage && banks != b.host.reqBuffer && banks != b.host.rspBuffer
    }

    constructor (beeb: Transfer.Beeb)
      requires beeb.Valid()
      ensures Valid() && b == beeb && fresh(banks)
    {
      b, latch := beeb, 0;
      banks := new byte[0x40000](_ => 0);
    }

    // What is at an address with a given bank selected.
    function Peek(a: nat, bank: byte): byte
      requires b.mem.Length == MEMORY_SIZE && banks.Length == 0x40000 && a < MEMORY_SIZE && bank < BANKS
      reads b.mem, banks
    {
      if InWindow(a) then banks[BankIndex(a, bank)] else b.mem[a]
    }

    ghost predicate Holds(a: nat, s: seq<byte>, bank: byte)
      reads b.mem, banks
    {
      && b.mem.Length == MEMORY_SIZE && banks.Length == 0x40000 && bank < BANKS && a + |s| <= MEMORY_SIZE
      && forall j :: 0 <= j < |s| ==> Peek(a + j, bank) == s[j]
    }

    // A byte of the body, from the bank the latch selects.
    method SendBodyByte(ghost r: Avr, ghost x: Exchange, ghost from: nat, ghost j: nat, y: byte)
      requires Valid() && Idle(r) && IsExchange(x) && j < |x.body|
      requires b.Indirect(DATA_PTR, y) == from + j && from + j < MEMORY_SIZE && Peek(from + j, latch) == x.body[j]
      requires b.Driving() && b.avr.Snapshot() == RequestAt(r, x, 6 + j)
      modifies b`drb, b`strobes, b.avr, b.avr.usb
      ensures b.avr.Snapshot() == RequestAt(r, x, 7 + j)
      ensures b.strobes == old(b.strobes) + 1
    {
      hide Step, RequestAt, Transfer.Offset;
      assert Request(x)[6 + j] == x.body[j];
      b.SendNext(Peek(b.Indirect(DATA_PTR, y), latch), r, x, 6 + j);
    }

    // The whole pages of the body; y is zero afterwards.
    method SendPages(ghost r: Avr, ghost x: Exchange, ghost from: nat) returns (y: byte)
      requires Valid() && Idle(r) && IsExchange(x) && b.mem[SEND_LENGTH + 1] == |x.body| / 256
      requires CanSendFrom(from, |x.body|) && Holds(from, x.body, latch) && from == b.WordAt(DATA_PTR)
      requires b.Driving() && b.avr.Snapshot() == RequestAt(r, x, 6)
      modifies b`drb, b`strobes, b.mem, b.avr, b.avr.usb
      ensures y == 0
      ensures b.mem[DATA_PTR + 1] == Transfer.Page(old(b.mem[DATA_PTR + 1]), |x.body| / 256)
      ensures b.avr.Snapshot() == RequestAt(r, x, 6 + 256 * (|x.body| / 256))
      ensures b.strobes == old(b.strobes) + 256 * (|x.body| / 256)
      ensures forall k :: 0 <= k < MEMORY_SIZE && k != DATA_PTR + 1 && k != SEND_LENGTH + 1 ==>
        b.mem[k] == old(b.mem[k])
    {
      hide Step, RequestAt, Transfer.Page, Transfer.Offset, Lockstep.Clean;
      ghost var pages, page, sent := b.mem[SEND_LENGTH + 1], b.mem[DATA_PTR + 1], 0;
      Transfer.NextPage(page, 0);
      y := b.mem[SEND_LENGTH + 1];
      if y != 0 {
        y := 0;
        var more := true;
        while more
          invariant more == (b.mem[SEND_LENGTH + 1] > 0)
          invariant b.mem[SEND_LENGTH + 1] <= pages && (!more ==> y == 0)
          invariant b.mem[DATA_PTR + 1] == Transfer.Page(page, pages - b.mem[SEND_LENGTH + 1])
          invariant sent == 256 * (pages - b.mem[SEND_LENGTH + 1]) + y
          invariant more ==> sent < 256 * pages
          invariant b.avr.Snapshot() == RequestAt(r, x, 6 + sent)
          invariant b.strobes == old(b.strobes) + sent
          invariant forall k :: 0 <= k < MEMORY_SIZE && k != DATA_PTR + 1 && k != SEND_LENGTH + 1 ==>
            b.mem[k] == old(b.mem[k])
          decreases b.mem[SEND_LENGTH + 1], 256 - y
        {
          Transfer.FlatAddress(b.mem[DATA_PTR], page, pages - b.mem[SEND_LENGTH + 1], y);
          assert Peek(from + sent, latch) == old(Peek(from + sent, latch)) == x.body[sent];
          SendBodyByte(r, x, from, sent, y);
          sent := sent + 1;
          y := Inc(y);
          if y == 0 {
            Transfer.NextPage(page, pages - b.mem[SEND_LENGTH + 1]);
            more := b.TurnPage(DATA_PTR, SEND_LENGTH + 1);
          }
        }
      }
    }

    // The bytes of the last, partial page.
    method SendFinalPage(ghost r: Avr, ghost x: Exchange, ghost from: nat, ghost page: byte)
      requires Valid() && Idle(r) && IsExchange(x) && b.mem[SEND_LENGTH] == |x.body| % 256
      requires CanSendFrom(from, |x.body|) && Holds(from, x.body, latch)
      requires from == Word(b.mem[DATA_PTR], page) && b.mem[DATA_PTR + 1] == Transfer.Page(page, |x.body| / 256)
      requires b.Driving() && b.avr.Snapshot() == RequestAt(r, x, 6 + 256 * (|x.body| / 256))
      modifies b`drb, b`strobes, b.avr, b.avr.usb
      ensures b.avr.Snapshot() == RequestAt(r, x, 6 + |x.body|)
      ensures b.strobes == old(b.strobes) + |x.body| % 256
    {
      hide Step, RequestAt, Transfer.Page, Transfer.Offset, Lockstep.Clean;
      ghost var pages := |x.body| / 256;
      var y: byte := 0;
      while y != b.mem[SEND_LENGTH]
        invariant y <= b.mem[SEND_LENGTH]
        invariant b.avr.Snapshot() == RequestAt(r, x, 6 + 256 * pages + y)
        invariant b.strobes == old(b.strobes) + y
      {
        Transfer.FlatAddress(b.mem[DATA_PTR], page, pages, y);
        SendBodyByte(r, x, from, 256 * pages + y, y);
        y := Inc(y);
      }
    }

    method SendBody(ghost r: Avr, ghost x: Exchange, ghost from: nat)
      requires Valid() && Idle(r) && IsExchange(x)
      requires CanSendFrom(from, |x.body|) && Holds(from, x.body, latch) && from == b.WordAt(DATA_PTR)
      requires b.mem[SEND_LENGTH] == |x.body| % 256 && b.mem[SEND_LENGTH + 1] == |x.body| / 256
      requires b.Driving() && b.avr.Snapshot() == RequestAt(r, x, 6)
      modifies b`drb, b`strobes, b.mem, b.avr, b.avr.usb
      ensures b.avr.Snapshot() == RequestAt(r, x, 6 + |x.body|)
      ensures b.strobes == old(b.strobes) + |x.body|
      ensures forall k :: 0 <= k < MEMORY_SIZE && k != DATA_PTR + 1 && k != SEND_LENGTH + 1 ==>
        b.mem[k] == old(b.mem[k])
    {
      hide Step, RequestAt, Transfer.Page, Bridge.Snapshot, Lockstep.Clean;
      ghost var page := b.mem[DATA_PTR + 1];
      var _ := SendPages(r, x, from);
      forall j | 0 <= j < |x.body|
        ensures Peek(from + j, latch) == x.body[j]
      {
        assert old(Peek(from + j, latch)) == x.body[j];
      }
      SendFinalPage(r, x, from, page);
    }

    // Keep the latch, and put the storing code where the bank switch cannot reach it.
    method InstallStore()
      requires b.mem.Length == MEMORY_SIZE
      modifies b.mem
      ensures b.mem[COMMAND] == latch && Installed(b.mem[..])
      ensures forall k :: 0 <= k < MEMORY_SIZE && k != COMMAND && !(STORE_BYTE <= k < STORE_BYTE + 15) ==>
        b.mem[k] == old(b.mem[k])
    {
      b.mem[COMMAND] := latch;
      var y := 15;
      while y != 0
        invariant 0 <= y <= 15 && b.mem[COMMAND] == latch
        invariant forall i {:trigger b.mem[i]} :: STORE_BYTE + y <= i < STORE_BYTE + 15 ==>
          b.mem[i] == STORE_CODE[i - STORE_BYTE]
        invariant forall k :: 0 <= k < MEMORY_SIZE && k != COMMAND && !(STORE_BYTE <= k < STORE_BYTE + 15) ==>
          b.mem[k] == old(b.mem[k])
      {
        b.mem[STORE_BYTE - 1 + y] := STORE_CODE[y - 1];
        y := y - 1;
      }
    }

    // The reset pulse and the request.
    method SendMessage(ghost x: Exchange) returns (ghost r: Avr)
      requires Valid() && Idle(b.avr.Snapshot()) && IsExchange(x)
      requires CanSendFrom(b.WordAt(SEND_ADDR), |x.body|) && Holds(b.WordAt(SEND_ADDR), x.body, latch)
      requires b.Holds(BASE, x.header)
      modifies b`drb, b`ddrb, b`pcr, b`flagLow, b`pulses, b`strobes, b.mem, b.avr, b.avr.usb
      ensures b.Driving() && b.pulses == old(b.pulses) + 1 && Idle(r) && r.usb == old(b.avr.usb.State())
      ensures b.avr.Snapshot() == RequestAt(r, x, |Request(x)|)
      ensures b.strobes == old(b.strobes) + 6 + |x.body|
      ensures forall k :: 0 <= k < MEMORY_SIZE && !(DATA_PTR <= k <= DATA_PTR + 1) && k != SEND_LENGTH + 1 ==>
        b.mem[k] == old(b.mem[k])
    {
      hide Step, RequestAt, Bridge.Snapshot, Lockstep.Clean;
      ghost var from := b.WordAt(SEND_ADDR);
      Transfer.LengthBytes(x);
      assert b.mem[BASE + 4] == x.header[4] && b.mem[BASE + 5] == x.header[5];
      b.SetDataPtr(DATA_PTR, SEND_ADDR);
      r := b.OpenBus(x);
      b.SendHeader(BASE, r, x);
      forall j | 0 <= j < |x.body|
        ensures Peek(from + j, latch) == x.body[j]
      {
        assert old(Peek(from + j, latch)) == x.body[j];
      }
      SendBody(r, x, from);
    }

    // The request, the storing code, and the strobe that turns the bus round.
    method SendRequest(ghost x: Exchange) returns (ghost r: Avr)
      requires Valid() && Idle(b.avr.Snapshot()) && IsExchange(x)
      requires CanSendFrom(b.WordAt(SEND_ADDR), |x.body|) && Holds(b.WordAt(SEND_ADDR), x.body, latch)
      requires b.Holds(BASE, x.header)
      modifies b`drb, b`ddrb, b`pcr, b`flagLow, b`pulses, b`strobes, b.mem, b.avr, b.avr.usb
      ensures b.Listening() && b.pulses == old(b.pulses) + 1 && Idle(r) && r.usb == old(b.avr.usb.State())
      ensures b.avr.Snapshot() == RequestAt(r, x, |Request(x)|).(state := SendRetcode, ddrd := OUTPUT)
      ensures b.strobes == old(b.strobes) + 6 + |x.body| + 1
      ensures b.mem[COMMAND] == latch && Installed(b.mem[..])
      ensures b.WordAt(DATA_PTR) == old(b.WordAt(RECV_ADDR)) && b.mem[DEST_ROM] == old(b.mem[DEST_ROM])
      ensures forall k :: 0 <= k < MEMORY_SIZE && !IsWorking(k) ==> b.mem[k] == old(b.mem[k])
    {
      hide Installed, Step, RequestAt, Request, Bridge.Snapshot, Lockstep.Clean, CanSendFrom, Holds,
        Transfer.Beeb.Holds;
      r := SendMessage(x);
      b.SetDataPtr(DATA_PTR, RECV_ADDR);
      InstallStore();
      b.TurnBus(r, x);
    }

    // The copied routine: select the bank, store through (data_ptr),y, select back.
    method StoreByte(a: byte, y: byte, ghost at: nat)
      requires Valid() && at == b.Indirect(DATA_PTR, y) && at < MEMORY_SIZE && at != COMMAND
      requires b.mem[DEST_ROM] < BANKS && b.mem[COMMAND] < BANKS && Installed(b.mem[..])
      modifies this`latch, b.mem, banks
      ensures latch == b.mem[COMMAND] == old(b.mem[COMMAND])
      ensures forall i :: 0 <= i < MEMORY_SIZE ==> b.mem[i] == if i == at && !InWindow(at) then a else old(b.mem[i])
      ensures forall i :: 0 <= i < banks.Length ==>
        banks[i] == if InWindow(at) && i == BankIndex(at, old(b.mem[DEST_ROM])) then a else old(banks[i])
    {
      hide Transfer.Offset;
      var to := b.Indirect(DATA_PTR, y);
      latch := b.mem[DEST_ROM];
      if InWindow(to) {
        banks[BankIndex(to, latch)] := a;
      } else {
        b.mem[to] := a;
      }
      latch := b.mem[COMMAND];
    }

    // Status and length go to the parameter block.
    method ReceiveHeader(ghost a: Avr, ghost x: Exchange)
      requires b.mem.Length == MEMORY_SIZE
      requires AwaitingReply(a, x) && b.avr.Snapshot() == a && b.Listening()
      modifies b`drb, b`strobes, b.mem, b.avr, b.avr.usb
      ensures ResponseAt(b.avr.Snapshot(), a, x, 3)
      ensures b.mem[CHANNEL] == x.status
      ensures b.mem[PARAM1] == b.mem[SEND_LENGTH] == |x.reply| % 256
      ensures b.mem[PARAM2] == b.mem[SEND_LENGTH + 1] == |x.reply| / 256
      ensures b.strobes == old(b.strobes) + 3
      ensures forall k :: 0 <= k < MEMORY_SIZE && k != CHANNEL && !(PARAM1 <= k <= SEND_LENGTH + 1) ==>
        b.mem[k] == old(b.mem[k])
    {
      hide ResponseAt, Response;
      Transfer.ResponseStart(a, x);
      var v := b.ReceiveByte(0x60, a, x, 0);
      b.mem[CHANNEL] := v;
      v := b.ReceiveByte(0x60, a, x, 1);
      b.mem[PARAM1] := v;
      b.mem[SEND_LENGTH] := v;
      v := b.ReceiveByte(0x60, a, x, 2);
      b.mem[PARAM2] := v;
      b.mem[SEND_LENGTH + 1] := v;
    }

    // What storing k bytes of a reply at to in bank dest has made of memory; the page
    // counting moves the pointer and PARAM2.
    ghost predicate Stored(m: seq<byte>, bk: seq<byte>, to: nat, k: nat, n: nat, dest: byte, reply: seq<byte>)
      reads b.mem, banks
    {
      && b.mem.Length == |m| == MEMORY_SIZE && banks.Length == |bk| == 0x40000 && dest < BANKS
      && k <= |reply| && to + |reply| <= MEMORY_SIZE
      && (forall i :: 0 <= i < k ==> Peek(to + i, dest) == reply[i])
      && (forall i :: 0 <= i < MEMORY_SIZE && !InOpen(i, to, n) && i != DATA_PTR + 1 && i != PARAM2 ==>
            b.mem[i] == m[i])
      && (forall i :: 0 <= i < 0x40000 && !IsTarget(i, to, n, dest) ==> banks[i] == bk[i])
    }

    lemma CodeKept(m: seq<byte>, bk: seq<byte>, to: nat, k: nat, n: nat, dest: byte, reply: seq<byte>)
      requires Stored(m, bk, to, k, n, dest, reply) && Installed(m) && CanReceiveAt(to, n)
      ensures Installed(b.mem[..])
    {
      forall i {:trigger b.mem[..][i]} | STORE_BYTE <= i < STORE_BYTE + 15
        ensures b.mem[..][i] == STORE_CODE[i - STORE_BYTE]
      {
        assert IsWorking(i) && m[i] == STORE_CODE[i - STORE_BYTE];
      }
    }

    // A byte of the reply, into its bank; the latch is back afterwards.
    method ReceiveBodyByte(junk: byte, y: byte, ghost a: Avr, ghost x: Exchange, ghost to: nat, ghost k: nat,
      ghost m: seq<byte>, ghost bk: seq<byte>) returns (v: byte)
      requires Valid() && AwaitingReply(a, x) && k < |x.reply| && ResponseAt(b.avr.Snapshot(), a, x, 3 + k)
      requires b.Listening() && b.Indirect(DATA_PTR, y) == to + k && CanReceiveAt(to, |x.reply|)
      requires Installed(m) && m[DEST_ROM] < BANKS && m[COMMAND] == latch
      requires Stored(m, bk, to, k, |x.reply|, m[DEST_ROM], x.reply)
      modifies this`latch, b`drb, b`strobes, b.mem, banks, b.avr, b.avr.usb
      ensures ResponseAt(b.avr.Snapshot(), a, x, 4 + k)
      ensures Stored(m, bk, to, k + 1, |x.reply|, m[DEST_ROM], x.reply)
      ensures latch == old(latch) && b.strobes == old(b.strobes) + 1
      ensures b.mem[DATA_PTR] == old(b.mem[DATA_PTR]) && b.mem[DATA_PTR + 1] == old(b.mem[DATA_PTR + 1]) &&
        b.mem[PARAM2] == old(b.mem[PARAM2])
    {
      hide ResponseAt, Response, Transfer.Offset, Lockstep.Clean;
      ReceiveClear(to, |x.reply|);
      CodeKept(m, bk, to, k, |x.reply|, m[DEST_ROM], x.reply);
      ReplyByte(x, k);
      v := b.ReceiveByte(junk, a, x, 3 + k);
      StoreByte(v, y, to + k);
    }

    // The whole pages of the reply.
    method ReceivePages(ghost a: Avr, ghost x: Exchange, ghost to: nat, ghost m: seq<byte>, ghost bk: seq<byte>)
      returns (v: byte, y: byte)
      requires Valid() && AwaitingReply(a, x) && ResponseAt(b.avr.Snapshot(), a, x, 3) && b.Listening()
      requires b.mem[PARAM2] == |x.reply| / 256 && to == b.WordAt(DATA_PTR) && CanReceiveAt(to, |x.reply|)
      requires Installed(m) && m[DEST_ROM] < BANKS && m[COMMAND] == latch
      requires Stored(m, bk, to, 0, |x.reply|, m[DEST_ROM], x.reply)
      modifies this`latch, b`drb, b`strobes, b.mem, banks, b.avr, b.avr.usb
      ensures y == 0 && latch == old(latch)
      ensures ResponseAt(b.avr.Snapshot(), a, x, 3 + 256 * (|x.reply| / 256))
      ensures b.mem[DATA_PTR] == old(b.mem[DATA_PTR]) &&
        b.mem[DATA_PTR + 1] == Transfer.Page(old(b.mem[DATA_PTR + 1]), |x.reply| / 256)
      ensures b.strobes == old(b.strobes) + 256 * (|x.reply| / 256)
      ensures Stored(m, bk, to, 256 * (|x.reply| / 256), |x.reply|, m[DEST_ROM], x.reply)
    {
      hide ResponseAt, Stored, Transfer.Page, Transfer.Offset, CanReceiveAt, Lockstep.Clean;
      ghost var pages, page, got := b.mem[PARAM2], b.mem[DATA_PTR + 1], 0;
      Transfer.NextPage(page, 0);
      ReceiveClear(to, |x.reply|);
      v, y := 0x60, 0;
      if b.mem[PARAM2] != 0 {
        var more := true;
        while more
          invariant more == (b.mem[PARAM2] > 0)
          invariant b.mem[PARAM2] <= pages && (!more ==> y == 0)
          invariant b.mem[DATA_PTR] == old(b.mem[DATA_PTR]) &&
            b.mem[DATA_PTR + 1] == Transfer.Page(page, pages - b.mem[PARAM2])
          invariant got == 256 * (pages - b.mem[PARAM2]) + y
          invariant more ==> got < 256 * pages
          invariant ResponseAt(b.avr.Snapshot(), a, x, 3 + got)
          invariant latch == old(latch) && b.strobes == old(b.strobes) + got
          invariant Stored(m, bk, to, got, |x.reply|, m[DEST_ROM], x.reply)
          decreases b.mem[PARAM2], 256 - y
        {
          Transfer.FlatAddress(b.mem[DATA_PTR], page, pages - b.mem[PARAM2], y);
          v := ReceiveBodyByte(v, y, a, x, to, got, m, bk);
          got := got + 1;
          y := Inc(y);
          if y == 0 {
            Transfer.NextPage(page, pages - b.mem[PARAM2]);
            more := CountPage(m, bk, to, got, |x.reply|, m[DEST_ROM], x.reply);
          }
        }
      }
    }

    // Turning the page leaves what has been stored.
    method CountPage(ghost m: seq<byte>, ghost bk: seq<byte>, ghost to: nat, ghost k: nat, ghost n: nat,
      ghost dest: byte, ghost reply: seq<byte>)
      returns (more: bool)
      requires Valid() && Stored(m, bk, to, k, n, dest, reply)
      requires !Transfer.InRegion(DATA_PTR + 1, to, |reply|) && !Transfer.InRegion(PARAM2, to, |reply|)
      modifies b.mem
      ensures b.mem[DATA_PTR] == old(b.mem[DATA_PTR])
      ensures b.mem[DATA_PTR + 1] == Inc(old(b.mem[DATA_PTR + 1])) && b.mem[PARAM2] == Dec(old(b.mem[PARAM2]))
      ensures more == (b.mem[PARAM2] != 0)
      ensures Stored(m, bk, to, k, n, dest, reply)
    {
      more := b.TurnPage(DATA_PTR, PARAM2);
      forall i | 0 <= i < k
        ensures Peek(to + i, dest) == reply[i]
      {
        assert old(Peek(to + i, dest)) == reply[i];
      }
    }

    method ReceiveFinalPage(v0: byte, ghost a: Avr, ghost x: Exchange, ghost to: nat, ghost page: byte,
      ghost m: seq<byte>, ghost bk: seq<byte>)
      returns (v: byte)
      requires Valid() && AwaitingReply(a, x) && ResponseAt(b.avr.Snapshot(), a, x, 3 + 256 * (|x.reply| / 256)) &&
        b.Listening()
      requires b.mem[PARAM1] == |x.reply| % 256 && CanReceiveAt(to, |x.reply|)
      requires to == Word(b.mem[DATA_PTR], page) && b.mem[DATA_PTR + 1] == Transfer.Page(page, |x.reply| / 256)
      requires Installed(m) && m[DEST_ROM] < BANKS && m[COMMAND] == latch && m[PARAM1] == b.mem[PARAM1]
      requires Stored(m, bk, to, 256 * (|x.reply| / 256), |x.reply|, m[DEST_ROM], x.reply)
      modifies this`latch, b`drb, b`strobes, b.mem, banks, b.avr, b.avr.usb
      ensures latch == old(latch) && b.strobes == old(b.strobes) + |x.reply| % 256
      ensures ResponseAt(b.avr.Snapshot(), a, x, 3 + |x.reply|)
      ensures Stored(m, bk, to, |x.reply|, |x.reply|, m[DEST_ROM], x.reply)
    {
      hide ResponseAt, Stored, Transfer.Page, Transfer.Offset, CanReceiveAt, Lockstep.Clean;
      ghost var pages := |x.reply| / 256;
      ReceiveClear(to, |x.reply|);
      v := v0;
      var y: byte := 0;
      while y != b.mem[PARAM1]
        invariant y <= b.mem[PARAM1] == m[PARAM1] && 256 * pages + m[PARAM1] == |x.reply|
        invariant b.mem[DATA_PTR] == old(b.mem[DATA_PTR]) && b.mem[DATA_PTR + 1] == old(b.mem[DATA_PTR + 1])
        invariant ResponseAt(b.avr.Snapshot(), a, x, 3 + 256 * pages + y)
        invariant latch == old(latch) && b.strobes == old(b.strobes) + y
        invariant Stored(m, bk, to, 256 * pages + y, |x.reply|, m[DEST_ROM], x.reply)
      {
        Transfer.FlatAddress(b.mem[DATA_PTR], page, pages, y);
        v := ReceiveBodyByte(v, y, a, x, to, 256 * pages + y, m, bk);
        KeptParam1(m, bk, to, 256 * pages + y + 1, |x.reply|, m[DEST_ROM], x.reply);
        y := Inc(y);
      }
    }

    lemma KeptParam1(m: seq<byte>, bk: seq<byte>, to: nat, k: nat, n: nat, dest: byte, reply: seq<byte>)
      requires Stored(m, bk, to, k, n, dest, reply) && !Transfer.InRegion(PARAM1, to, n)
      ensures b.mem.Length == |m| == MEMORY_SIZE && b.mem[PARAM1] == m[PARAM1]
    {
    }

    // The reply: header to the parameter block, body to its bank.
    method ReceiveReply(ghost a: Avr, ghost x: Exchange, ghost to: nat, ghost m0: seq<byte>, ghost bk: seq<byte>)
      requires Valid() && AwaitingReply(a, x) && b.avr.Snapshot() == a && b.Listening()
      requires to == b.WordAt(DATA_PTR) && CanReceiveAt(to, |x.reply|)
      requires b.mem[DEST_ROM] < BANKS && b.mem[COMMAND] == latch && Installed(b.mem[..])
      requires m0 == b.mem[..] && bk == banks[..]
      modifies this`latch, b`drb, b`strobes, b.mem, banks, b.avr, b.avr.usb
      ensures latch == old(latch) && b.strobes == old(b.strobes) + 3 + |x.reply| + 1
      ensures ResponseAt(b.avr.Snapshot(), a, x, 4 + |x.reply|)
      ensures b.mem[CHANNEL] == x.status && b.WordAt(SEND_LENGTH) == |x.reply|
      ensures forall i :: 0 <= i < |x.reply| ==> Peek(to + i, m0[DEST_ROM]) == x.reply[i]
      ensures forall i :: 0 <= i < MEMORY_SIZE && !IsWorking(i) && !InOpen(i, to, |x.reply|) ==> b.mem[i] == m0[i]
      ensures forall i :: 0 <= i < 0x40000 && !IsTarget(i, to, |x.reply|, m0[DEST_ROM]) ==> banks[i] == bk[i]
    {
      hide ResponseAt, Response, Transfer.Page, CanReceiveAt, Bridge.Snapshot, Step, Lockstep.Clean, Installed;
      ReceiveClear(to, |x.reply|);
      ghost var page := b.mem[DATA_PTR + 1];
      ReceiveHeader(a, x);
      ghost var m := b.mem[..];
      StillInstalled(m0, m);
      var v, _ := ReceivePages(a, x, to, m, bk);
      KeptParam1(m, bk, to, 256 * (|x.reply| / 256), |x.reply|, m[DEST_ROM], x.reply);
      v := ReceiveFinalPage(v, a, x, to, page, m, bk);
      b.DropBus(v, a, x);
    }

    // The whole transfer: the reply lies in the bank asked for, the latch shows the bank
    // it showed before, and nothing else has moved.
    method RunTransfer(ghost x: Exchange)
      requires Valid() && b.Ready() && IsExchange(x)
      requires b.Holds(BASE, x.header)
      requires CanSendFrom(b.WordAt(SEND_ADDR), |x.body|) && Holds(b.WordAt(SEND_ADDR), x.body, latch)
      requires Answerable(Header(x.header), x.body)
      requires Answer(Header(x.header), x.body, b.host.diskImage[..]) == (x.status, x.reply)
      requires b.mem[DEST_ROM] < BANKS && CanReceiveAt(b.WordAt(RECV_ADDR), |x.reply|)
      modifies this`latch, b`drb, b`ddrb, b`pcr, b`flagLow, b`pulses, b`strobes, b.mem, banks, b.avr, b.avr.usb,
        b.host.reqBuffer, b.host.rspBuffer
      ensures b.Ready() && latch == old(latch)
      ensures b.mem[CHANNEL] == x.status && b.WordAt(SEND_LENGTH) == |x.reply|
      ensures var to, dest := old(b.WordAt(RECV_ADDR)), old(b.mem[DEST_ROM]);
        && (forall i :: 0 <= i < |x.reply| ==> Peek(to + i, dest) == x.reply[i])
        && (forall i :: 0 <= i < MEMORY_SIZE && !IsWorking(i) && !InOpen(i, to, |x.reply|) ==>
              b.mem[i] == old(b.mem[i]))
        && (forall i :: 0 <= i < 0x40000 && !IsTarget(i, to, |x.reply|, dest) ==> banks[i] == old(banks[i]))
      ensures b.strobes == old(b.strobes) + 6 + |x.body| + 1 + 3 + |x.reply| + 1 && b.pulses == old(b.pulses) + 1
    {
      hide ResponseAt, Response, Step, RequestAt, Request, Bridge.Snapshot, CanReceiveAt, CanSendFrom, Answer,
        Installed, Holds, IsTarget;
      ghost var to := b.WordAt(RECV_ADDR);
      b.SnapshotPort();
      ghost var r := SendRequest(x);
      b.HostAnswers(r, x);
      ghost var a := b.avr.Snapshot();
      b.SnapshotPort();
      ReceiveReply(a, x, to, b.mem[..], banks[..]);
      b.SnapshotPort();
      Transfer.ResponseDone(b.avr.Snapshot(), a, x);
    }
  }

  lemma ReplyByte(x: Exchange, k: nat)
    requires IsExchange(x) && k < |x.reply|
    ensures 3 + k < |Response(x)| && Response(x)[3 + k] == x.reply[k]
  {
  }

  lemma ReceiveClear(a: nat, n: nat)
    requires CanReceiveAt(a, n)
    ensures a + n <= MEMORY_SIZE
    ensures !Transfer.InRegion(DATA_PTR, a, n) && !Transfer.InRegion(DATA_PTR + 1, a, n)
    ensures !Transfer.InRegion(COMMAND, a, n) && !Transfer.InRegion(PARAM1, a, n) && !Transfer.InRegion(PARAM2, a, n)
    ensures !Transfer.InRegion(CHANNEL, a, n) && !Transfer.InRegion(DEST_ROM, a, n)
    ensures !Transfer.InRegion(SEND_LENGTH, a, n) && !Transfer.InRegion(SEND_LENGTH + 1, a, n)
  {
    assert IsWorking(DATA_PTR) && IsWorking(DATA_PTR + 1) && IsWorking(COMMAND) && IsWorking(PARAM1) &&
      IsWorking(PARAM2);
    assert IsWorking(CHANNEL) && IsWorking(DEST_ROM) && IsWorking(SEND_LENGTH) && IsWorking(SEND_LENGTH + 1);
  }
}
