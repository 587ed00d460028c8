// The BBC side of the cable: send_msg and the block reads built on it, running
// against the bridge and the host.

module Transfer {
  import opened Bytes
  import opened Layout
  import opened Usb
  import opened Firmware
  import opened Lockstep
  import opened Server

  const DATA_PTR := 0xA0
  const SECTOR := 0xA2
  const SECTOR_COUNT := 0xA5
  const BYTES_LAST_SECTOR := 0xA7

  const BASE := 0x0D42
  const CHANNEL := BASE
  const COMMAND := BASE + 1
  const PARAM1 := BASE + 2
  const PARAM2 := BASE + 3
  const SEND_LENGTH := BASE + 4
  const SEND_ADDR := BASE + 6
  const RECV_ADDR := BASE + 8
  const BLOCK_DATA := BASE + 10

  // A block of n addresses starting at a, clear of the top of memory and of the
  // I/O pages.
  predicate IsRegion(a: nat, n: nat) { a + n <= MEMORY_SIZE && (a + n <= 0xFC00 || 0xFF00 <= a) }

  predicate InRegion(k: int, a: nat, n: nat) { a <= k < a + n }

  // The variables send_msg writes.
  predicate IsWorking(k: int) {
    k == DATA_PTR || k == DATA_PTR + 1 || k == CHANNEL || PARAM1 <= k <= SEND_LENGTH + 1
  }

  // A message to send must not lie over the pointer and counter that walk it.
  predicate ClearOf(a: nat, n: nat, ptr: nat, counter: nat) {
    IsRegion(a, n) && !InRegion(ptr, a, n) && !InRegion(ptr + 1, a, n) && !InRegion(counter, a, n)
  }

  predicate CanSendFrom(a: nat, n: nat) { ClearOf(a, n, DATA_PTR, SEND_LENGTH + 1) }

  predicate CanReceiveAt(a: nat, n: nat) {
    IsRegion(a, n) && forall k | a <= k < a + n :: !IsWorking(k)
  }

  // The high byte of a pointer moved on by whole pages; it wraps.
  function Page(hi: byte, pages: nat): byte { (hi + pages) % 256 }

  function Offset(lo: byte, hi: byte, y: byte): nat { (Word(lo, hi) + y) % MEMORY_SIZE }

  lemma NextPage(hi: byte, pages: nat)
    ensures Page(hi, 0) == hi && Page(hi, pages + 1) == Inc(Page(hi, pages))
  {
  }

  lemma PageFlat(hi: byte, pages: nat)
    requires hi + pages < 256
    ensures Page(hi, pages) == hi + pages
  {
  }

  lemma NoWrap(a: nat)
    requires a < MEMORY_SIZE
    ensures a % MEMORY_SIZE == a
  {
  }

  // As long as the block does not wrap, the paged pointer is the flat address.
  lemma FlatAddress(lo: byte, hi: byte, pages: nat, y: byte)
    requires Word(lo, hi) + 256 * pages + y < MEMORY_SIZE
    ensures Offset(lo, Page(hi, pages), y) == Word(lo, hi) + 256 * pages + y
  {
    hide Page;
    PageFlat(hi, pages);
    NoWrap(Word(lo, hi) + 256 * pages + y);
  }

  class Beeb {
    const mem: array<byte>
    var drb: byte        // user port B: output latch
    var ddrb: byte       // and direction
    var acr: byte
    var pcr: byte
    var flagLow: bool    // CB2, the BBC's flag to the bridge
    const avr: Bridge
    const host: Host
    ghost var strobes: nat   // bytes handshaken so far
    ghost var pulses: nat    // and resets

    ghost predicate Valid()
      reads this, host
    {
      && mem.Length == MEMORY_SIZE
      && host.Valid()
      && mem != host.diskImage && mem != host.reqBuffer && mem != host.rspBuffer
    }

    // Between messages nothing is in flight anywhere.
    ghost predicate Ready()
      reads this, host, avr, avr.usb
    {
      Valid() && Clean(avr.Snapshot()) && avr.usb.sent == []
    }

    constructor (memory: seq<byte>, image: seq<byte>)
      requires |memory| == MEMORY_SIZE && |image| == IMAGE_SIZE
      ensures Ready() && mem[..] == memory && host.diskImage[..] == image
    {
      mem := new byte[MEMORY_SIZE](i requires 0 <= i < MEMORY_SIZE => memory[i]);
      avr := new Bridge();
      host := new Host(image);
      drb, ddrb, acr, pcr, flagLow, strobes, pulses := 0, 0, 0, 0, false, 0, 0;
    }

    function WordAt(a: nat): nat
      requires mem.Length == MEMORY_SIZE && a + 1 < MEMORY_SIZE
      reads mem
    {
      Word(mem[a], mem[a + 1])
    }

    ghost predicate Holds(a: nat, s: seq<byte>)
      reads mem
    {
      mem.Length == MEMORY_SIZE && a + |s| <= MEMORY_SIZE && forall j :: 0 <= j < |s| ==> mem[a + j] == s[j]
    }

    // The address (ptr),y.
    function Indirect(ptr: nat, y: byte): nat
      requires mem.Length == MEMORY_SIZE && ptr < 255
      reads mem
    {
      Offset(mem[ptr], mem[ptr + 1], y)
    }

    // The request in the parameter block.
    function HeaderBytes(): seq<byte>
      requires mem.Length == MEMORY_SIZE
      reads mem
    {
      mem[BASE..BASE + 6]
    }

    function BodyBytes(): seq<byte>
      requires mem.Length == MEMORY_SIZE && WordAt(SEND_ADDR) + WordAt(SEND_LENGTH) <= MEMORY_SIZE
      reads mem
    {
      mem[WordAt(SEND_ADDR)..WordAt(SEND_ADDR) + WordAt(SEND_LENGTH)]
    }

    // With $80 in the control register each write of the port strobes the flag.
    predicate Strobing()
      reads this`pcr, this`flagLow
    {
      pcr == 0x80 && !flagLow
    }

    predicate Driving()
      reads this`ddrb, this`pcr, this`flagLow
    {
      ddrb == OUTPUT && Strobing()
    }

    predicate Listening()
      reads this`ddrb, this`pcr, this`flagLow
    {
      ddrb == INPUT && Strobing()
    }

    // Hold the flag low: the bridge takes what floats on the bus for a byte, finds the
    // flag still low after acknowledging it, and starts again.
    method HoldFlag()
      requires Idle(avr.Snapshot()) && ddrb == INPUT
      modifies this`pcr, this`flagLow, this`pulses, avr, avr.usb
      ensures flagLow && pulses == old(pulses) + 1
      ensures exists floating: byte :: avr.Snapshot() == old(avr.Snapshot()).(channel := floating)
    {
      pcr, flagLow := 0xC0, true;
      var floating: byte := *;
      avr.DoMessaging(floating, true);
      ResetAtIdle(old(avr.Snapshot()), floating);
      pulses := pulses + 1;
    }

    method ReleaseFlag()
      modifies this`pcr, this`flagLow
      ensures !flagLow
    {
      pcr, flagLow := 0xE0, false;
    }

    // Put A in the output latch and strobe: the bridge sees the latch if the port is
    // driving, and otherwise whatever is on the bus. They never both drive.
    method SendByte(a: byte) returns (ghost pins: byte)
      requires Listening() || (Driving() && avr.ddrd == INPUT)
      requires Enabled(avr.Snapshot())
      modifies this`drb, this`strobes, avr, avr.usb
      ensures ddrb == OUTPUT ==> pins == a
      ensures ddrb == INPUT && old(avr.ddrd) == OUTPUT ==> pins == old(avr.portd)
      ensures avr.Snapshot() == Step(old(avr.Snapshot()), pins, false)
      ensures strobes == old(strobes) + 1
    {
      drb := a;
      var bus: byte := *;
      if ddrb == OUTPUT {
        bus := drb;
      } else if avr.ddrd == OUTPUT {
        bus := avr.portd;
      }
      avr.DoMessaging(bus, false);
      strobes := strobes + 1;
      pins := bus;
    }

    // Reading the port is meaningful only while the bridge drives it.
    method LoadDrb() returns (a: byte)
      requires Listening() && avr.ddrd == OUTPUT
      ensures a == avr.portd
    {
      a := avr.portd;
    }

    // A strobe of the send phase.
    method SendNext(v: byte, ghost r: Avr, ghost x: Exchange, ghost i: nat)
      requires Idle(r) && IsExchange(x) && i < |Request(x)| && v == Request(x)[i]
      requires Driving() && avr.Snapshot() == RequestAt(r, x, i)
      modifies this`drb, this`strobes, avr, avr.usb
      ensures avr.Snapshot() == RequestAt(r, x, i + 1)
      ensures strobes == old(strobes) + 1
    {
      hide Step, RequestAt;
      RequestSendable(r, x, i);
      var _ := SendByte(v);
    }

    method SendHeader(base: nat, ghost r: Avr, ghost x: Exchange)
      requires mem.Length == MEMORY_SIZE
      requires Idle(r) && IsExchange(x) && Holds(base, x.header)
      requires Driving() && avr.Snapshot() == RequestAt(r, x, 0)
      modifies this`drb, this`strobes, avr, avr.usb
      ensures avr.Snapshot() == RequestAt(r, x, 6)
      ensures strobes == old(strobes) + 6
    {
      hide Step, RequestAt;
      var y: byte := 0;
      while y != 6
        invariant 0 <= y <= 6
        invariant avr.Snapshot() == RequestAt(r, x, y)
        invariant strobes == old(strobes) + y
      {
        assert mem[base + y] == x.header[y] == Request(x)[y];
        SendNext(mem[base + y], r, x, y);
        y := Inc(y);
      }
    }

    // Move the pointer to the next page and count the page off.
    method TurnPage(ptr: nat, counter: nat) returns (more: bool)
      requires mem.Length == MEMORY_SIZE && ptr + 1 < counter < MEMORY_SIZE
      modifies mem
      ensures mem[ptr + 1] == Inc(old(mem[ptr + 1])) && mem[counter] == Dec(old(mem[counter]))
      ensures more == (mem[counter] != 0)
      ensures forall k :: 0 <= k < MEMORY_SIZE && k != ptr + 1 && k != counter ==> mem[k] == old(mem[k])
    {
      mem[ptr + 1] := Inc(mem[ptr + 1]);
      mem[counter] := Dec(mem[counter]);
      more := mem[counter] != 0;
    }

    // The whole pages of the body; y is zero afterwards.
    method SendPages(ghost r: Avr, ghost x: Exchange, ghost from: nat) returns (y: byte)
      requires mem.Length == MEMORY_SIZE
      requires Idle(r) && IsExchange(x) && mem[SEND_LENGTH + 1] == |x.body| / 256
      requires CanSendFrom(from, |x.body|) && Holds(from, x.body)
      requires from == WordAt(DATA_PTR)
      requires Driving() && avr.Snapshot() == RequestAt(r, x, 6)
      modifies this`drb, this`strobes, mem, avr, avr.usb
      ensures y == 0
      ensures var sent := 256 * (|x.body| / 256);
        && mem[DATA_PTR + 1] == Page(old(mem[DATA_PTR + 1]), |x.body| / 256)
        && avr.Snapshot() == RequestAt(r, x, 6 + sent)
        && strobes == old(strobes) + sent
      ensures forall k :: 0 <= k < MEMORY_SIZE && k != DATA_PTR + 1 && k != SEND_LENGTH + 1 ==> mem[k] == old(mem[k])
    {
      hide Step, RequestAt, Page, Offset;
      ghost var pages, page := mem[SEND_LENGTH + 1], mem[DATA_PTR + 1];
      ghost var sent := 0;
      NextPage(page, 0);
      y := mem[SEND_LENGTH + 1];
      if y != 0 {
        y := 0;
        var more := true;
        while more
          invariant more == (mem[SEND_LENGTH + 1] > 0)
          invariant mem[SEND_LENGTH + 1] <= pages && (!more ==> y == 0)
          invariant mem[DATA_PTR + 1] == Page(page, pages - mem[SEND_LENGTH + 1])
          invariant sent == 256 * (pages - mem[SEND_LENGTH + 1]) + y
          invariant more ==> sent < 256 * pages
          invariant avr.Snapshot() == RequestAt(r, x, 6 + sent)
          invariant strobes == old(strobes) + sent
          invariant forall k :: 0 <= k < MEMORY_SIZE && k != DATA_PTR + 1 && k != SEND_LENGTH + 1 ==>
            mem[k] == old(mem[k])
          decreases mem[SEND_LENGTH + 1], 256 - y
        {
          FlatAddress(mem[DATA_PTR], page, pages - mem[SEND_LENGTH + 1], y);
          assert Indirect(DATA_PTR, y) == from + sent && mem[from + sent] == x.body[sent];
          SendBodyByte(r, x, sent, Indirect(DATA_PTR, y));
          sent := sent + 1;
          y := Inc(y);
          if y == 0 {
            NextPage(page, pages - mem[SEND_LENGTH + 1]);
            more := TurnPage(DATA_PTR, SEND_LENGTH + 1);
          }
        }
      }
    }

    // The bytes of the last, partial page.
    method SendFinalPage(ghost r: Avr, ghost x: Exchange, ghost from: nat, ghost page: byte)
      requires mem.Length == MEMORY_SIZE
      requires Idle(r) && IsExchange(x) && mem[SEND_LENGTH] == |x.body| % 256
      requires CanSendFrom(from, |x.body|)
      requires Holds(from, x.body)
      requires from == Word(mem[DATA_PTR], page) && mem[DATA_PTR + 1] == Page(page, |x.body| / 256)
      requires Driving() && avr.Snapshot() == RequestAt(r, x, 6 + 256 * (|x.body| / 256))
      modifies this`drb, this`strobes, avr, avr.usb
      ensures avr.Snapshot() == RequestAt(r, x, 6 + |x.body|)
      ensures strobes == old(strobes) + |x.body| % 256
    {
      hide Step, RequestAt, Page, Offset;
      ghost var pages := |x.body| / 256;
      var y: byte := 0;
      while y != mem[SEND_LENGTH]
        invariant y <= mem[SEND_LENGTH]
        invariant avr.Snapshot() == RequestAt(r, x, 6 + 256 * pages + y)
        invariant strobes == old(strobes) + y
      {
        FlatAddress(mem[DATA_PTR], page, pages, y);
        assert Indirect(DATA_PTR, y) == from + (256 * pages + y);
        SendBodyByte(r, x, 256 * pages + y, Indirect(DATA_PTR, y));
        y := Inc(y);
      }
    }

    method SendBodyByte(ghost r: Avr, ghost x: Exchange, ghost j: nat, a: nat)
      requires mem.Length == MEMORY_SIZE && a < MEMORY_SIZE
      requires Idle(r) && IsExchange(x) && j < |x.body| && mem[a] == x.body[j]
      requires Driving() && avr.Snapshot() == RequestAt(r, x, 6 + j)
      modifies this`drb, this`strobes, avr, avr.usb
      ensures avr.Snapshot() == RequestAt(r, x, 7 + j)
      ensures strobes == old(strobes) + 1
    {
      hide Step, RequestAt;
      assert Request(x)[6 + j] == x.body[j];
      SendNext(mem[a], r, x, 6 + j);
    }

    method SendBody(ghost r: Avr, ghost x: Exchange, ghost from: nat, ghost page: byte)
      requires mem.Length == MEMORY_SIZE
      requires Idle(r) && IsExchange(x) && Holds(BASE, x.header)
      requires CanSendFrom(from, |x.body|) && Holds(from, x.body)
      requires from == WordAt(DATA_PTR) && page == mem[DATA_PTR + 1]
      requires Driving() && avr.Snapshot() == RequestAt(r, x, 6)
      modifies this`drb, this`strobes, mem, avr, avr.usb
      ensures avr.Snapshot() == RequestAt(r, x, 6 + |x.body|)
      ensures strobes == old(strobes) + |x.body|
      ensures forall k :: 0 <= k < MEMORY_SIZE && k != DATA_PTR + 1 && k != SEND_LENGTH + 1 ==> mem[k] == old(mem[k])
    {
      hide Step, RequestAt, Page, Bridge.Snapshot;
      LengthBytes(x);
      assert mem[BASE + 4] == x.header[4] && mem[BASE + 5] == x.header[5];
      var _ := SendPages(r, x, from);
      SendFinalPage(r, x, from, page);
    }

    method SetDataPtr(ptr: nat, a: nat)
      requires mem.Length == MEMORY_SIZE && ptr + 1 < a < MEMORY_SIZE - 1
      modifies mem
      ensures mem[ptr] == mem[a] && mem[ptr + 1] == mem[a + 1]
      ensures forall k :: 0 <= k < MEMORY_SIZE && k != ptr && k != ptr + 1 ==> mem[k] == old(mem[k])
    {
      mem[ptr] := mem[a];
      mem[ptr + 1] := mem[a + 1];
    }

    // Pulse the flag to restart the bridge, then take the bus.
    method OpenBus(ghost x: Exchange) returns (ghost r: Avr)
      requires Idle(avr.Snapshot()) && IsExchange(x)
      modifies this`ddrb, this`pcr, this`flagLow, this`pulses, avr, avr.usb
      ensures Driving() && pulses == old(pulses) + 1
      ensures Idle(r) && r.usb == old(avr.usb.State())
      ensures avr.Snapshot() == RequestAt(r, x, 0)
    {
      ddrb := INPUT;
      HoldFlag();
      ReleaseFlag();
      pcr := 0x80;
      ddrb := OUTPUT;
      r := avr.Snapshot();
    }

    // One strobe with the port as an input tells the bridge to take the bus.
    method TurnBus(ghost r: Avr, ghost x: Exchange)
      requires mem.Length == MEMORY_SIZE
      requires Driving() && Idle(r) && IsExchange(x) && avr.Snapshot() == RequestAt(r, x, |Request(x)|)
      modifies this`drb, this`ddrb, this`strobes, avr, avr.usb
      ensures Listening() && strobes == old(strobes) + 1
      ensures avr.Snapshot() == RequestAt(r, x, |Request(x)|).(state := SendRetcode, ddrd := OUTPUT)
    {
      hide Step, RequestAt;
      ddrb := INPUT;
      PrepStep(r, x);
      var _ := SendByte(mem[RECV_ADDR + 1]);
    }

    // The reset pulse, the whole request, and the strobe that turns the bus round.
    method SendRequest(ghost x: Exchange) returns (ghost r: Avr)
      requires Valid() && Idle(avr.Snapshot()) && IsExchange(x)
      requires CanSendFrom(WordAt(SEND_ADDR), |x.body|)
      requires Holds(BASE, x.header) && Holds(WordAt(SEND_ADDR), x.body)
      modifies this`drb, this`ddrb, this`pcr, this`flagLow, this`pulses, this`strobes, mem, avr, avr.usb
      ensures Listening() && pulses == old(pulses) + 1
      ensures Idle(r) && r.usb == old(avr.usb.State())
      ensures avr.Snapshot() == RequestAt(r, x, |Request(x)|).(state := SendRetcode, ddrd := OUTPUT)
      ensures strobes == old(strobes) + 6 + |x.body| + 1
      ensures WordAt(DATA_PTR) == old(WordAt(RECV_ADDR))
      ensures forall k :: 0 <= k < MEMORY_SIZE && !IsWorking(k) ==> mem[k] == old(mem[k])
    {
      hide Step, RequestAt, Bridge.Snapshot;
      ghost var from, page := WordAt(SEND_ADDR), mem[SEND_ADDR + 1];
      SetDataPtr(DATA_PTR, SEND_ADDR);
      r := OpenBus(x);
      SendHeader(BASE, r, x);
      SendBody(r, x, from, page);
      SetDataPtr(DATA_PTR, RECV_ADDR);
      TurnBus(r, x);
    }

    // While the bridge waits in SEND_RETCODE the host takes the request off the
    // cable, executes it and writes its answer.
    method HostAnswers(ghost r: Avr, ghost x: Exchange)
      requires Valid() && Idle(r) && IsExchange(x) && Answerable(Header(x.header), x.body)
      requires Answer(Header(x.header), x.body, host.diskImage[..]) == (x.status, x.reply)
      requires r.usb.sent == [] && r.usb.arriving == [] && !r.usb.outReady && r.usb.outBank == []
      requires avr.Snapshot() == RequestAt(r, x, |Request(x)|).(state := SendRetcode, ddrd := OUTPUT)
      modifies avr.usb, host.reqBuffer, host.rspBuffer
      ensures AwaitingReply(avr.Snapshot(), x)
      ensures avr.usb.inBank == [] && avr.usb.sent == []
    {
      RequestDone(r, x);
      assert [] + [x.header] + Chunks(x.body) == [x.header] + Chunks(x.body);
      host.Serve(avr.usb, x.header, x.body);
      ReplyPackets(x);
      assert avr.usb.arriving == [[x.status, |x.reply| % 256, |x.reply| / 256]] + Chunks(x.reply);
    }

    // A strobe of the receive phase, and the byte it brings.
    method ReceiveByte(a: byte, ghost b: Avr, ghost x: Exchange, ghost j: nat) returns (v: byte)
      requires AwaitingReply(b, x) && j < |Response(x)| && ResponseAt(avr.Snapshot(), b, x, j)
      requires Listening()
      modifies this`drb, this`strobes, avr, avr.usb
      ensures ResponseAt(avr.Snapshot(), b, x, j + 1)
      ensures v == Response(x)[j]
      ensures strobes == old(strobes) + 1
    {
      hide Step, ResponseAt, Response, AwaitingReply;
      ResponseEnabled(avr.Snapshot(), b, x, j);
      var _ := SendByte(a);
      ResponseBus(avr.Snapshot(), b, x, j + 1);
      v := LoadDrb();
    }

    // Status and length go to the parameter block.
    method ReceiveHeader(ghost b: Avr, ghost x: Exchange)
      requires mem.Length == MEMORY_SIZE
      requires AwaitingReply(b, x) && avr.Snapshot() == b && Listening()
      modifies this`drb, this`strobes, mem, avr, avr.usb
      ensures ResponseAt(avr.Snapshot(), b, x, 3)
      ensures mem[CHANNEL] == x.status
      ensures mem[PARAM1] == mem[SEND_LENGTH] == |x.reply| % 256
      ensures mem[PARAM2] == mem[SEND_LENGTH + 1] == |x.reply| / 256
      ensures strobes == old(strobes) + 3
      ensures forall k :: 0 <= k < MEMORY_SIZE && !(k == CHANNEL || PARAM1 <= k <= SEND_LENGTH + 1) ==>
        mem[k] == old(mem[k])
    {
      hide ResponseAt, Response;
      ResponseStart(b, x);
      var v := ReceiveByte(0x10, b, x, 0);
      mem[CHANNEL] := v;
      v := ReceiveByte(0x10, b, x, 1);
      mem[PARAM1] := v;
      mem[SEND_LENGTH] := v;
      v := ReceiveByte(0x10, b, x, 2);
      mem[PARAM2] := v;
      mem[SEND_LENGTH + 1] := v;
    }

    // What storing k bytes of a reply at to has made of the memory m; the page counting
    // moves the pointer and PARAM2.
    ghost predicate Stored(m: seq<byte>, to: nat, k: nat, reply: seq<byte>)
      reads mem
    {
      && mem.Length == |m| == MEMORY_SIZE && k <= |reply| && to + |reply| <= MEMORY_SIZE
      && (forall i :: 0 <= i < k ==> mem[to + i] == reply[i])
      && (forall i :: 0 <= i < MEMORY_SIZE && !InRegion(i, to, |reply|) && i != DATA_PTR + 1 && i != PARAM2 ==>
            mem[i] == m[i])
    }

    // One byte of the reply body to (data_ptr),y.
    method ReceiveBodyByte(a: byte, y: byte, ghost b: Avr, ghost x: Exchange, ghost to: nat, ghost k: nat,
      ghost m: seq<byte>) returns (v: byte)
      requires AwaitingReply(b, x) && k < |x.reply| && ResponseAt(avr.Snapshot(), b, x, 3 + k) && Listening()
      requires Stored(m, to, k, x.reply) && Indirect(DATA_PTR, y) == to + k && CanReceiveAt(to, |x.reply|)
      modifies this`drb, this`strobes, mem, avr, avr.usb
      ensures ResponseAt(avr.Snapshot(), b, x, 4 + k)
      ensures Stored(m, to, k + 1, x.reply)
      ensures mem[DATA_PTR] == old(mem[DATA_PTR]) && mem[DATA_PTR + 1] == old(mem[DATA_PTR + 1])
      ensures mem[PARAM1] == old(mem[PARAM1]) && mem[PARAM2] == old(mem[PARAM2])
      ensures strobes == old(strobes) + 1
    {
      hide ResponseAt, CanReceiveAt, Offset;
      ReceiveClear(to, |x.reply|);
      v := ReceiveByte(a, b, x, 3 + k);
      assert Response(x)[3 + k] == x.reply[k];
      mem[Indirect(DATA_PTR, y)] := v;
    }

    // Turning the page leaves what has been stored.
    method CountPage(ghost m: seq<byte>, ghost to: nat, ghost k: nat, ghost reply: seq<byte>) returns (more: bool)
      requires Stored(m, to, k, reply)
      requires !InRegion(DATA_PTR + 1, to, |reply|) && !InRegion(PARAM2, to, |reply|)
      modifies mem
      ensures mem[DATA_PTR] == old(mem[DATA_PTR])
      ensures mem[DATA_PTR + 1] == Inc(old(mem[DATA_PTR + 1])) && mem[PARAM2] == Dec(old(mem[PARAM2]))
      ensures more == (mem[PARAM2] != 0)
      ensures Stored(m, to, k, reply)
    {
      more := TurnPage(DATA_PTR, PARAM2);
    }

    // The whole pages of the reply, leaving in A the last byte stored.
    method ReceivePages(ghost b: Avr, ghost x: Exchange, ghost to: nat, ghost m: seq<byte>) returns (a: byte, y: byte)
      requires mem.Length == MEMORY_SIZE
      requires AwaitingReply(b, x) && ResponseAt(avr.Snapshot(), b, x, 3) && Listening()
      requires Stored(m, to, 0, x.reply) && mem[PARAM2] == |x.reply| / 256
      requires to == WordAt(DATA_PTR) && CanReceiveAt(to, |x.reply|)
      modifies this`drb, this`strobes, mem, avr, avr.usb
      ensures y == 0
      ensures ResponseAt(avr.Snapshot(), b, x, 3 + 256 * (|x.reply| / 256))
      ensures mem[DATA_PTR] == old(mem[DATA_PTR])
      ensures mem[DATA_PTR + 1] == Page(old(mem[DATA_PTR + 1]), |x.reply| / 256)
      ensures strobes == old(strobes) + 256 * (|x.reply| / 256)
      ensures Stored(m, to, 256 * (|x.reply| / 256), x.reply)
    {
      hide ResponseAt, Page, Offset, CanReceiveAt, Stored;
      ghost var pages, page, got := mem[PARAM2], mem[DATA_PTR + 1], 0;
      NextPage(page, 0);
      ReceiveClear(to, |x.reply|);
      a, y := 0x10, 0;
      if mem[PARAM2] != 0 {
        var more := true;
        while more
          invariant more == (mem[PARAM2] > 0)
          invariant mem[PARAM2] <= pages && (!more ==> y == 0)
          invariant mem[DATA_PTR] == old(mem[DATA_PTR]) && mem[DATA_PTR + 1] == Page(page, pages - mem[PARAM2])
          invariant got == 256 * (pages - mem[PARAM2]) + y
          invariant more ==> got < 256 * pages
          invariant ResponseAt(avr.Snapshot(), b, x, 3 + got)
          invariant strobes == old(strobes) + got
          invariant Stored(m, to, got, x.reply)
          decreases mem[PARAM2], 256 - y
        {
          FlatAddress(mem[DATA_PTR], page, pages - mem[PARAM2], y);
          a := ReceiveBodyByte(a, y, b, x, to, got, m);
          got := got + 1;
          y := Inc(y);
          if y == 0 {
            NextPage(page, pages - mem[PARAM2]);
            more := CountPage(m, to, got, x.reply);
          }
        }
      }
    }

    method ReceiveFinalPage(a0: byte, ghost b: Avr, ghost x: Exchange, ghost to: nat, ghost page: byte,
      ghost m: seq<byte>) returns (a: byte)
      requires mem.Length == MEMORY_SIZE
      requires AwaitingReply(b, x) && ResponseAt(avr.Snapshot(), b, x, 3 + 256 * (|x.reply| / 256)) && Listening()
      requires Stored(m, to, 256 * (|x.reply| / 256), x.reply) && mem[PARAM1] == |x.reply| % 256
      requires to == Word(mem[DATA_PTR], page) && mem[DATA_PTR + 1] == Page(page, |x.reply| / 256)
      requires CanReceiveAt(to, |x.reply|)
      modifies this`drb, this`strobes, mem, avr, avr.usb
      ensures ResponseAt(avr.Snapshot(), b, x, 3 + |x.reply|)
      ensures strobes == old(strobes) + |x.reply| % 256
      ensures Stored(m, to, |x.reply|, x.reply)
    {
      hide ResponseAt, Page, Offset, CanReceiveAt, Stored;
      ghost var pages := |x.reply| / 256;
      ReceiveClear(to, |x.reply|);
      a := a0;
      var y: byte := 0;
      while y != mem[PARAM1]
        invariant y <= mem[PARAM1] == old(mem[PARAM1]) && 256 * pages + mem[PARAM1] == |x.reply|
        invariant mem[DATA_PTR] == old(mem[DATA_PTR]) && mem[DATA_PTR + 1] == old(mem[DATA_PTR + 1])
        invariant ResponseAt(avr.Snapshot(), b, x, 3 + 256 * pages + y)
        invariant strobes == old(strobes) + y
        invariant Stored(m, to, 256 * pages + y, x.reply)
      {
        FlatAddress(mem[DATA_PTR], page, pages, y);
        a := ReceiveBodyByte(a, y, b, x, to, 256 * pages + y, m);
        y := Inc(y);
      }
    }

    method ReceiveReply(ghost b: Avr, ghost x: Exchange)
      requires Valid()
      requires AwaitingReply(b, x) && avr.Snapshot() == b && Listening()
      requires CanReceiveAt(WordAt(DATA_PTR), |x.reply|)
      modifies this`drb, this`strobes, mem, avr, avr.usb
      ensures ResponseAt(avr.Snapshot(), b, x, 4 + |x.reply|)
      ensures mem[CHANNEL] == x.status && WordAt(SEND_LENGTH) == |x.reply|
      ensures strobes == old(strobes) + 3 + |x.reply| + 1
      ensures var to := old(WordAt(DATA_PTR));
        && mem[to..to + |x.reply|] == x.reply
        && forall i :: 0 <= i < MEMORY_SIZE && !InRegion(i, to, |x.reply|) && !IsWorking(i) ==> mem[i] == old(mem[i])
    {
      hide ResponseAt, Page, CanReceiveAt, Bridge.Snapshot, Step;
      ghost var to, page := WordAt(DATA_PTR), mem[DATA_PTR + 1];
      ReceiveClear(to, |x.reply|);
      ReceiveHeader(b, x);
      ghost var m := mem[..];
      var a, _ := ReceivePages(b, x, to, m);
      a := ReceiveFinalPage(a, b, x, to, page, m);
      DropBus(a, b, x);
    }

    // The last strobe tells the bridge to let go of the bus.
    method DropBus(a: byte, ghost b: Avr, ghost x: Exchange)
      requires AwaitingReply(b, x) && ResponseAt(avr.Snapshot(), b, x, 3 + |x.reply|)
      requires Listening()
      modifies this`drb, this`strobes, avr, avr.usb
      ensures ResponseAt(avr.Snapshot(), b, x, 4 + |x.reply|)
      ensures strobes == old(strobes) + 1
    {
      hide ResponseAt, Step;
      ResponseStart(b, x);
      ResponseEnabled(avr.Snapshot(), b, x, 3 + |x.reply|);
      var _ := SendByte(a);
    }

    // The answer the host will give to the message in the parameter block.
    ghost function Reply(): (byte, seq<byte>)
      requires Valid() && WordAt(SEND_ADDR) + WordAt(SEND_LENGTH) <= MEMORY_SIZE
      requires Answerable(Header(HeaderBytes()), BodyBytes())
      reads this, mem, host, host.diskImage
    {
      Answer(Header(HeaderBytes()), BodyBytes(), host.diskImage[..])
    }

    // The exchange x is the message in the parameter block and the host's answer to it.
    ghost predicate IsCall(x: Exchange)
      requires Valid() && WordAt(SEND_ADDR) + WordAt(SEND_LENGTH) <= MEMORY_SIZE
      reads this, mem, host, host.diskImage
    {
      && IsExchange(x) && x.header == HeaderBytes() && x.body == BodyBytes()
      && Answerable(Header(x.header), x.body)
      && Answer(Header(x.header), x.body, host.diskImage[..]) == (x.status, x.reply)
    }

    // With the port's latching off.
    method Converse(ghost x: Exchange)
      requires Ready() && acr == 0
      requires CanSendFrom(WordAt(SEND_ADDR), WordAt(SEND_LENGTH)) && IsCall(x)
      requires CanReceiveAt(WordAt(RECV_ADDR), |x.reply|)
      modifies this`drb, this`ddrb, this`pcr, this`flagLow, this`pulses, this`strobes, mem, avr, avr.usb,
        host.reqBuffer, host.rspBuffer
      ensures ddrb == INPUT && pulses == old(pulses) + 1 && Clean(avr.Snapshot()) && avr.usb.sent == []
      ensures mem[CHANNEL] == x.status && WordAt(SEND_LENGTH) == |x.reply|
      ensures var to := old(WordAt(RECV_ADDR));
        && mem[to..to + |x.reply|] == x.reply
        && forall i :: 0 <= i < MEMORY_SIZE && !InRegion(i, to, |x.reply|) && !IsWorking(i) ==> mem[i] == old(mem[i])
      ensures strobes == old(strobes) + 6 + |x.body| + 1 + 3 + |x.reply| + 1
    {
      hide ResponseAt, Response, Step, RequestAt, Request, Bridge.Snapshot, CanReceiveAt, Answer, Answerable, Header;
      SnapshotPort();
      ghost var r := SendRequest(x);
      HostAnswers(r, x);
      ghost var b := avr.Snapshot();
      SnapshotPort();
      ReceiveReply(b, x);
      SnapshotPort();
      ResponseDone(avr.Snapshot(), b, x);
    }

    lemma SnapshotPort()
      ensures avr.Snapshot().usb == avr.usb.State()
    {
    }

    // send_msg: the reply ends up at recv_addr, its status and length in the
    // parameter block, nothing else moves, and all three parties are idle again.
    method SendMsg()
      requires Ready()
      requires CanSendFrom(WordAt(SEND_ADDR), WordAt(SEND_LENGTH))
      requires Answerable(Header(HeaderBytes()), BodyBytes())
      requires CanReceiveAt(WordAt(RECV_ADDR), |Reply().1|)
      modifies this, mem, avr, avr.usb, host.reqBuffer, host.rspBuffer
      ensures Ready()
      ensures mem[CHANNEL] == old(Reply().0)
      ensures WordAt(SEND_LENGTH) == old(|Reply().1|)
      ensures var (to, n) := old((WordAt(RECV_ADDR), |Reply().1|));
        && mem[to..to + n] == old(Reply().1)
        && forall i :: 0 <= i < MEMORY_SIZE && !InRegion(i, to, n) && !IsWorking(i) ==> mem[i] == old(mem[i])
      ensures strobes == old(strobes) + 6 + old(WordAt(SEND_LENGTH)) + 1 + 3 + old(|Reply().1|) + 1
      ensures pcr == old(pcr) && acr == old(acr) && ddrb == INPUT && pulses == old(pulses) + 1
    {
      hide Clean, Bridge.Snapshot, CanReceiveAt, Answer;
      var savedPcr, savedAcr := pcr, acr;
      acr := 0;
      ghost var (status, reply) := Reply();
      ghost var x := Exchange(HeaderBytes(), BodyBytes(), status, reply);
      Converse(x);
      acr := savedAcr;
      pcr := savedPcr;
    }
  }

  lemma ReceiveClear(a: nat, n: nat)
    requires CanReceiveAt(a, n)
    ensures !InRegion(DATA_PTR, a, n) && !InRegion(DATA_PTR + 1, a, n) && !InRegion(CHANNEL, a, n)
    ensures !InRegion(PARAM1, a, n) && !InRegion(PARAM2, a, n)
    ensures !InRegion(SEND_LENGTH, a, n) && !InRegion(SEND_LENGTH + 1, a, n)
    ensures a + n <= MEMORY_SIZE
  {
    assert IsWorking(DATA_PTR) && IsWorking(DATA_PTR + 1) && IsWorking(CHANNEL);
    assert IsWorking(PARAM1) && IsWorking(PARAM2) && IsWorking(SEND_LENGTH) && IsWorking(SEND_LENGTH + 1);
  }

  lemma ResponseDone(a: Avr, b: Avr, x: Exchange)
    requires AwaitingReply(b, x) && ResponseAt(a, b, x, 4 + |x.reply|)
    requires b.usb.inBank == [] && b.usb.sent == []
    ensures Clean(a) && a.usb.sent == []
  {
  }

  lemma LengthBytes(x: Exchange)
    requires IsExchange(x)
    ensures x.header[5] == |x.body| / 256 && x.header[4] == |x.body| % 256
  {
  }

  lemma PrepStep(r: Avr, x: Exchange)
    requires Idle(r) && IsExchange(x)
    ensures var a := RequestAt(r, x, |Request(x)|);
      && Enabled(a)
      && (forall pins :: Step(a, pins, false) == a.(state := SendRetcode, ddrd := OUTPUT))
  {
  }

  lemma RequestSendable(r: Avr, x: Exchange, i: nat)
    requires Idle(r) && IsExchange(x) && i < |Request(x)|
    ensures Enabled(RequestAt(r, x, i)) && RequestAt(r, x, i).ddrd == INPUT
    ensures Step(RequestAt(r, x, i), Request(x)[i], false) == RequestAt(r, x, i + 1)
  {
    RequestStep(r, x, i);
    RequestFields(r, x, i);
  }

  // Both flushes of the request are on the cable.
  lemma RequestDone(r: Avr, x: Exchange)
    requires Idle(r) && IsExchange(x)
    ensures RequestAt(r, x, |Request(x)|).usb == RequestPort(r.usb, x, |x.body|)
  {
  }

  // The host writes the response header as one packet and the body after it.
  lemma ReplyPackets(x: Exchange)
    requires IsExchange(x)
    ensures var ps := [[x.status, |x.reply| % 256, |x.reply| / 256]] + Chunks(x.reply);
      Flatten(ps) == Response(x) && ps[|ps| - 1] != []
  {
    ChunksFrame(x.reply);
    var h := [x.status, |x.reply| % 256, |x.reply| / 256];
    assert ([h] + Chunks(x.reply))[1..] == Chunks(x.reply);
  }

  lemma ResponseStart(b: Avr, x: Exchange)
    requires AwaitingReply(b, x)
    ensures ResponseAt(b, b, x, 0)
    ensures Response(x)[0] == x.status && Response(x)[1] == |x.reply| % 256 && Response(x)[2] == |x.reply| / 256
    ensures |Response(x)| == 3 + |x.reply|
  {
    ResponseHeader(x);
  }

  // While the response lasts the bridge drives the bus with the byte of the last strobe.
  lemma ResponseBus(a: Avr, b: Avr, x: Exchange, j: nat)
    requires AwaitingReply(b, x) && 0 < j <= |Response(x)| && ResponseAt(a, b, x, j)
    ensures a.ddrd == OUTPUT && a.portd == Response(x)[j - 1]
  {
    hide Response, Coherent, OutStream;
  }

  lemma ResponseEnabled(a: Avr, b: Avr, x: Exchange, j: nat)
    requires AwaitingReply(b, x) && j <= |Response(x)| && ResponseAt(a, b, x, j)
    ensures Enabled(a)
    ensures forall latch :: ResponseAt(Step(a, latch, false), b, x, j + 1)
  {
    hide Step, ResponseAt, Response, Enabled, AwaitingReply;
    ResponseStep(a, b, x, j, 0);
    forall latch: byte
      ensures ResponseAt(Step(a, latch, false), b, x, j + 1)
    {
      ResponseStep(a, b, x, j, latch);
    }
  }
}
