// The AVR bridge: doMessaging takes one strobe from the BBC at a time, forwards
// the request to the host in packets and hands the host's reply back.

module Firmware {
  import opened Bytes
  import opened Usb

  datatype State =
    | GetChannel | GetCommand | GetParam1 | GetParam2 | GetLengthLow | GetLengthHigh
    | GetData | SendPrep
    | SendRetcode | SendLengthLow | SendLengthHigh | SendData | Finish

  // The states in which the AVR owns the data bus.
  predicate Sending(s: State) {
    s in {SendRetcode, SendLengthLow, SendLengthHigh, SendData, Finish}
  }

  const INPUT: byte := 0x00
  const OUTPUT: byte := 0xFF

  datatype Avr = Avr(
    state: State,
    channel: byte, command: byte, param1: byte, param2: byte,
    lenLo: byte, lenHi: byte,     // dataLength.bytes
    ddrd: byte, portd: byte,
    usb: Port)

  function DataLength(a: Avr): nat { Word(a.lenLo, a.lenHi) }

  function SetDataLength(a: Avr, w: nat): Avr
    requires w < 0x10000
  {
    a.(lenLo := w % 256, lenHi := w / 256)
  }

  function CountDown(a: Avr): Avr {
    SetDataLength(a, if DataLength(a) == 0 then 0xFFFF else DataLength(a) - 1)
  }

  // If the BBC still holds its flag low after the acknowledgement, it is resetting us.
  function AckByte(a: Avr, held: bool): Avr {
    if held then a.(state := GetChannel, ddrd := INPUT) else a
  }

  function PutHeader(a: Avr): Port {
    var p := InReady(a.usb.(selected := In));
    Put(Put(Put(Put(Put(Put(p, a.channel), a.command), a.param1), a.param2), a.lenLo), a.lenHi)
  }

  // The reply bytes a state has to read must be on their way, and the endpoint
  // selected by an earlier state must still be selected; otherwise doMessaging
  // waits for ever and the strobe is never acknowledged.
  predicate Enabled(a: Avr) {
    match a.state
    case GetData => a.usb.selected == In
    case SendRetcode => Coherent(a.usb) && |OutStream(a.usb)| >= 3
    case SendData => CanRecv(a.usb)
    case Finish => a.usb.selected == Out
    case _ => true
  }

  // One strobe: pind is what the data bus carries, held says that the flag is
  // being held low (a reset pulse) rather than handshaking a byte.
  function Step(a: Avr, pind: byte, held: bool): Avr
    requires Enabled(a)
  {
    match a.state
    case GetChannel => AckByte(a.(channel := pind, state := GetCommand), held)
    case GetCommand => AckByte(a.(command := pind, state := GetParam1), held)
    case GetParam1 => AckByte(a.(param1 := pind, state := GetParam2), held)
    case GetParam2 => AckByte(a.(param2 := pind, state := GetLengthLow), held)
    case GetLengthLow => AckByte(a.(lenLo := pind, state := GetLengthHigh), held)
    case GetLengthHigh =>
      var a := a.(lenHi := pind);
      var a := AckByte(a.(state := if DataLength(a) != 0 then GetData else SendPrep), held);
      var p := Flush(PutHeader(a));
      a.(usb := if DataLength(a) != 0 then InReady(p) else p)
    case GetData =>
      var a := CountDown(a);
      var p := if ReadWriteAllowed(a.usb) then a.usb else InReady(Flush(a.usb));
      var p := Put(p, pind);
      AckByte(if DataLength(a) == 0 then a.(usb := Flush(p), state := SendPrep) else a.(usb := p), held)
    case SendPrep => AckByte(a.(state := SendRetcode), held).(ddrd := OUTPUT)
    case SendRetcode =>
      var (status, lo, hi, p) := ReadReplyHeader(AwaitReply(a.usb));
      AckByte(a.(portd := status, state := SendLengthLow), held).(lenLo := lo, lenHi := hi, usb := p)
    case SendLengthLow => AckByte(a.(portd := a.lenLo, state := SendLengthHigh), held)
    case SendLengthHigh =>
      AckByte(a.(portd := a.lenHi, state := if DataLength(a) != 0 then SendData else Finish), held)
    case SendData =>
      var (b, p) := Recv(a.usb);
      var a := CountDown(a.(portd := b, usb := p));
      AckByte(if DataLength(a) == 0 then a.(state := Finish) else a, held)
    case Finish => AckByte(a.(usb := AckOut(a.usb), ddrd := INPUT, state := GetChannel), held)
  }

  // Select the OUT endpoint and wait for the host's first packet.
  function AwaitReply(p: Port): (q: Port)
    requires Coherent(p) && OutStream(p) != []
    ensures CanRecv(q) && OutStream(q) == OutStream(p) && OutPackets(q) == OutPackets(p)
    ensures SameInSide(p, q)
  {
    AwaitOut(p.(selected := Out))
  }

  predicate SameInSide(p: Port, q: Port) {
    q.inBank == p.inBank && q.inReady == p.inReady && q.sent == p.sent
  }

  // The status and the two length bytes.
  function ReadReplyHeader(p: Port): (r: (byte, byte, byte, Port))
    requires CanRecv(p) && |OutStream(p)| >= 3
    ensures OutStream(p) == [r.0, r.1, r.2] + OutStream(r.3)
    ensures OutPackets(r.3) == OutPackets(p) && Coherent(r.3) && r.3.selected == Out
    ensures SameInSide(p, r.3)
  {
    RecvTakesNextByte(p);
    var (status, q) := Recv(p);
    assert OutStream(q) == OutStream(p)[1..];
    var (lo, hi, q) := RecvWord(q);
    (status, lo, hi, q)
  }

  // ---- The exchange of one message ----

  datatype Exchange = Exchange(header: seq<byte>, body: seq<byte>, status: byte, reply: seq<byte>)

  predicate IsExchange(x: Exchange) {
    && |x.header| == 6
    && |x.body| == Word(x.header[4], x.header[5])
    && |x.reply| < 0x10000
  }

  // The bytes the BBC puts on the bus, and those the host sends back.
  function Request(x: Exchange): seq<byte> { x.header + x.body }

  function Response(x: Exchange): seq<byte>
    requires IsExchange(x)
  {
    [x.status, |x.reply| % 256, |x.reply| / 256] + x.reply
  }

  predicate Idle(a: Avr) { a.state == GetChannel && a.ddrd == INPUT && a.usb.inBank == [] }

  // The AVR i strobes into the request of an exchange begun in state a.
  function HeaderAt(a: Avr, h: seq<byte>, i: nat): Avr
    requires |h| == 6 && i <= 5
  {
    a.(state := [GetChannel, GetCommand, GetParam1, GetParam2, GetLengthLow, GetLengthHigh][i],
       channel := if i >= 1 then h[0] else a.channel,
       command := if i >= 2 then h[1] else a.command,
       param1 := if i >= 3 then h[2] else a.param1,
       param2 := if i >= 4 then h[3] else a.param2,
       lenLo := if i >= 5 then h[4] else a.lenLo)
  }

  function RequestPort(p: Port, x: Exchange, j: nat): Port
    requires j <= |x.body|
  {
    if j == |x.body| then
      p.(selected := In, inBank := [], inReady := false, sent := p.sent + [x.header] + Chunks(x.body))
    else
      p.(selected := In, inBank := Banked(x.body[..j]), inReady := true,
         sent := p.sent + [x.header] + Flushed(x.body[..j]))
  }

  function RequestAt(a: Avr, x: Exchange, i: nat): Avr
    requires IsExchange(x) && i <= |Request(x)|
  {
    if i <= 5 then HeaderAt(a, x.header, i)
    else
      var left := |Request(x)| - i;
      SetDataLength(HeaderAt(a, x.header, 5), left)
        .(state := if left > 0 then GetData else SendPrep, usb := RequestPort(a.usb, x, i - 6))
  }

  // Strobing byte i of the request takes the AVR from its place i to its place i + 1.
  lemma RequestStep(a: Avr, x: Exchange, i: nat)
    requires Idle(a) && IsExchange(x) && i < |Request(x)|
    ensures Enabled(RequestAt(a, x, i))
    ensures Step(RequestAt(a, x, i), Request(x)[i], false) == RequestAt(a, x, i + 1)
  {
    hide Step, RequestAt;
    if i < 5 {
      HeaderStep(a, x, i);
    } else if i == 5 {
      HeaderComplete(a, x);
    } else {
      BodyStep(a, x, i - 6);
    }
  }

  lemma HeaderStep(a: Avr, x: Exchange, i: nat)
    requires Idle(a) && IsExchange(x) && i < 5
    ensures Enabled(RequestAt(a, x, i))
    ensures Step(RequestAt(a, x, i), Request(x)[i], false) == RequestAt(a, x, i + 1)
  {
    assert Request(x)[i] == x.header[i];
  }

  lemma HeaderComplete(a: Avr, x: Exchange)
    requires Idle(a) && IsExchange(x)
    ensures Enabled(RequestAt(a, x, 5))
    ensures Step(RequestAt(a, x, 5), Request(x)[5], false) == RequestAt(a, x, 6)
  {
    assert Request(x)[5] == x.header[5];
    var b := HeaderAt(a, x.header, 5).(lenHi := x.header[5]);
    HeaderPacket(b, x.header);
    assert x.body[..0] == [];
    assert a.usb.sent + [x.header] + [] == a.usb.sent + [x.header];
    hide PutHeader;
  }

  lemma HeaderPacket(b: Avr, h: seq<byte>)
    requires |h| == 6 && h == [b.channel, b.command, b.param1, b.param2, b.lenLo, b.lenHi]
    requires b.usb.inBank == []
    ensures PutHeader(b) == b.usb.(selected := In, inReady := true, inBank := h)
  {
    assert PutHeader(b).inBank == h;
  }

  lemma BodyStep(a: Avr, x: Exchange, j: nat)
    requires Idle(a) && IsExchange(x) && j < |x.body|
    ensures Enabled(RequestAt(a, x, 6 + j))
    ensures Step(RequestAt(a, x, 6 + j), Request(x)[6 + j], false) == RequestAt(a, x, 7 + j)
  {
    hide Word, RequestPort, Put, Flush, InReady, ReadWriteAllowed;
    PutBody(a.usb, x, j);
    InSelected(a.usb, x, j);
    SplitWord(|x.body| - j);
    SplitWord(|x.body| - j - 1);
    assert Request(x)[6 + j] == x.body[j];
  }

  lemma InSelected(p: Port, x: Exchange, j: nat)
    requires j <= |x.body|
    ensures RequestPort(p, x, j).selected == In
  {
  }

  lemma SplitWord(w: nat)
    ensures w < 0x10000 ==> Word(w % 256, w / 256) == w
  {
  }

  // The IN bank is flushed only when the next byte finds it full, and after the
  // last byte.
  lemma PutBody(p: Port, x: Exchange, j: nat)
    requires j < |x.body|
    ensures var q := RequestPort(p, x, j);
      var q := Put(if ReadWriteAllowed(q) then q else InReady(Flush(q)), x.body[j]);
      RequestPort(p, x, j + 1) == if j + 1 == |x.body| then Flush(q) else q
  {
    hide Flushed, Banked, Chunks;
    var s, b := x.body[..j], x.body[j];
    var base := p.sent + [x.header];
    assert x.body[..j + 1] == s + [b];
    PutMore(base, s, b);
    if j + 1 == |x.body| {
      assert x.body[..j + 1] == x.body;
      FlushLast(x.body);
      assert base + (Flushed(x.body) + [Banked(x.body)]) == base + Flushed(x.body) + [Banked(x.body)];
    }
  }

  // One more byte, after the packets already sent.
  lemma PutMore(base: seq<seq<byte>>, s: seq<byte>, b: byte)
    ensures if |Banked(s)| < ENDPOINT_SIZE
            then base + Flushed(s + [b]) == base + Flushed(s) && Banked(s + [b]) == Banked(s) + [b]
            else base + Flushed(s + [b]) == base + Flushed(s) + [Banked(s)] && Banked(s + [b]) == [] + [b]
  {
    hide Flushed, Banked;
    PutOne(s, b);
    assert base + (Flushed(s) + [Banked(s)]) == base + Flushed(s) + [Banked(s)];
    assert [] + [b] == [b];
  }

  // The AVR j strobes into its reply, b being its state when it took the bus.
  predicate AwaitingReply(b: Avr, x: Exchange) {
    && IsExchange(x)
    && b.state == SendRetcode && b.ddrd == OUTPUT
    && Coherent(b.usb) && OutStream(b.usb) == Response(x)
  }

  function ResponseState(x: Exchange, j: nat): State {
    if j == 0 then SendRetcode
    else if j == 1 then SendLengthLow
    else if j == 2 then SendLengthHigh
    else if j < 3 + |x.reply| then SendData
    else if j == 3 + |x.reply| then Finish
    else GetChannel
  }

  // Bytes of the reply body not yet driven onto the bus.
  function Unread(x: Exchange, j: nat): seq<byte> {
    if j <= 3 then x.reply else if j <= 3 + |x.reply| then x.reply[j - 3..] else []
  }

  predicate ResponseAt(a: Avr, b: Avr, x: Exchange, j: nat)
    requires AwaitingReply(b, x) && j <= |Response(x)| + 1
  {
    && a.state == ResponseState(x, j)
    && a.ddrd == (if j <= |Response(x)| then OUTPUT else INPUT)
    && (0 < j <= |Response(x)| ==> a.portd == Response(x)[j - 1])
    && (j > 0 ==> DataLength(a) == |Unread(x, j)| && a.usb.selected == Out)
    && OutStream(a.usb) == (if j == 0 then Response(x) else Unread(x, j))
    && OutPackets(a.usb) == OutPackets(b.usb)
    && Coherent(a.usb)
    && (j == |Response(x)| + 1 ==> !a.usb.outReady && a.usb.arriving == [])
    && a.usb.inBank == b.usb.inBank && a.usb.inReady == b.usb.inReady && a.usb.sent == b.usb.sent
    && a.channel == b.channel && a.command == b.command && a.param1 == b.param1 && a.param2 == b.param2
  }

  // Each further strobe, whatever it leaves in the BBC's output latch, puts the
  // next byte of the response on the bus; the last one releases the bus with every
  // packet acknowledged.
  lemma ResponseStep(a: Avr, b: Avr, x: Exchange, j: nat, latch: byte)
    requires AwaitingReply(b, x) && j <= |Response(x)| && ResponseAt(a, b, x, j)
    ensures Enabled(a)
    ensures ResponseAt(Step(a, latch, false), b, x, j + 1)
  {
    hide Step, ResponseAt, Response, Enabled;
    ResponseHeader(x);
    if j == 0 {
      RetcodeStep(a, b, x, latch);
    } else if j <= 2 {
      LengthStep(a, b, x, j, latch);
    } else if j < 3 + |x.reply| {
      DataStep(a, b, x, j, latch);
    } else {
      FinishStep(a, b, x, latch);
    }
  }

  lemma RetcodeStep(a: Avr, b: Avr, x: Exchange, latch: byte)
    requires AwaitingReply(b, x) && ResponseAt(a, b, x, 0)
    ensures Enabled(a)
    ensures ResponseAt(Step(a, latch, false), b, x, 1)
  {
    var (status, lo, hi, p) := ReadReplyHeader(AwaitReply(a.usb));
    StreamHeader(status, lo, hi, OutStream(p), x);
  }

  lemma ResponseHeader(x: Exchange)
    requires IsExchange(x)
    ensures |Response(x)| == 3 + |x.reply|
    ensures Response(x)[0] == x.status && Response(x)[1] == |x.reply| % 256 && Response(x)[2] == |x.reply| / 256
    ensures forall j :: 0 <= j <= 3 ==> Unread(x, j) == x.reply
  {
  }

  lemma LengthStep(a: Avr, b: Avr, x: Exchange, j: nat, latch: byte)
    requires AwaitingReply(b, x) && 1 <= j <= 2 && ResponseAt(a, b, x, j)
    ensures Enabled(a)
    ensures ResponseAt(Step(a, latch, false), b, x, j + 1)
  {
    hide Response, Unread, OutStream, OutPackets, Coherent, Word;
    ResponseHeader(x);
    WordBytes(a.lenLo, a.lenHi);
  }

  lemma FinishStep(a: Avr, b: Avr, x: Exchange, latch: byte)
    requires AwaitingReply(b, x) && ResponseAt(a, b, x, 3 + |x.reply|)
    ensures Enabled(a)
    ensures ResponseAt(Step(a, latch, false), b, x, 4 + |x.reply|)
  {
    FinishAcknowledgesAll(a.usb);
  }

  lemma StreamHeader(status: byte, lo: byte, hi: byte, rest: seq<byte>, x: Exchange)
    requires IsExchange(x) && [status, lo, hi] + rest == Response(x)
    ensures status == x.status && rest == x.reply
    ensures lo == |x.reply| % 256 && hi == |x.reply| / 256 && Word(lo, hi) == |x.reply|
  {
    var s := [status, lo, hi] + rest;
    assert s[0] == status && s[1] == lo && s[2] == hi && s[3..] == rest;
    assert Response(x)[3..] == x.reply;
  }

  lemma UnreadStep(x: Exchange, j: nat)
    requires IsExchange(x) && 3 <= j < 3 + |x.reply|
    ensures Unread(x, j) == [Response(x)[j]] + Unread(x, j + 1)
    ensures |Unread(x, j)| == 3 + |x.reply| - j && |Response(x)| == 3 + |x.reply|
  {
    assert Unread(x, j + 1) == x.reply[j - 2..];
  }

  lemma DataStep(a: Avr, b: Avr, x: Exchange, j: nat, latch: byte)
    requires AwaitingReply(b, x) && 3 <= j < 3 + |x.reply| && ResponseAt(a, b, x, j)
    ensures Enabled(a)
    ensures ResponseAt(Step(a, latch, false), b, x, j + 1)
  {
    hide Unread, Response, OutStream, OutPackets, Recv;
    UnreadStep(x, j);
    RecvTakesNextByte(a.usb);
    var (c, p) := Recv(a.usb);
    SameHead(c, OutStream(p), Response(x)[j], Unread(x, j + 1));
  }

  lemma SameHead(b: byte, s: seq<byte>, c: byte, t: seq<byte>)
    requires [b] + s == [c] + t
    ensures b == c && s == t
  {
    assert s == ([b] + s)[1..] == ([c] + t)[1..] == t;
    assert b == ([b] + s)[0] == ([c] + t)[0] == c;
  }

  // ---- The program itself ----

  class Bridge {
    var state: State
    var channel: byte
    var command: byte
    var param1: byte
    var param2: byte
    var lenLo: byte
    var lenHi: byte
    var ddrd: byte
    var portd: byte
    const usb: Registers

    function Snapshot(): Avr
      reads this, usb
    {
      Avr(state, channel, command, param1, param2, lenLo, lenHi, ddrd, portd, usb.State())
    }

    constructor ()
      ensures Idle(Snapshot()) && fresh(usb)
      ensures usb.State() == Port(In, [], true, [], [], false, [], 0)
    {
      usb := new Registers();
      state, ddrd, portd := GetChannel, INPUT, 0;
      channel, command, param1, param2, lenLo, lenHi := 0, 0, 0, 0, 0, 0;
    }

    method Acknowledge(held: bool)
      modifies this
      ensures Snapshot() == AckByte(old(Snapshot()), held)
    {
      if held {
        state := GetChannel;
        ddrd := INPUT;
      }
    }

    method DecrementLength()
      modifies this
      ensures Snapshot() == CountDown(old(Snapshot()))
    {
      var w := Word(lenLo, lenHi);
      w := if w == 0 then 0xFFFF else w - 1;
      lenLo, lenHi := w % 256, w / 256;
    }

    // Forward the six header bytes as a packet of their own.
    method ForwardHeader()
      modifies usb
      ensures Snapshot() == old(Snapshot()).(usb := Flush(PutHeader(old(Snapshot()))))
    {
      usb.SelectEndpoint(In);
      usb.AwaitInPacket();
      usb.PutByte(channel);
      usb.PutByte(command);
      usb.PutByte(param1);
      usb.PutByte(param2);
      usb.PutByte(lenLo);
      usb.PutByte(lenHi);
      usb.FlushPacket();
    }

    method DoMessaging(pind: byte, held: bool)
      requires Enabled(Snapshot())
      modifies this, usb
      ensures Snapshot() == Step(old(Snapshot()), pind, held)
    {
      match state {
        case GetChannel =>
          channel, state := pind, GetCommand;
          Acknowledge(held);
        case GetCommand =>
          command, state := pind, GetParam1;
          Acknowledge(held);
        case GetParam1 =>
          param1, state := pind, GetParam2;
          Acknowledge(held);
        case GetParam2 =>
          param2, state := pind, GetLengthLow;
          Acknowledge(held);
        case GetLengthLow =>
          lenLo, state := pind, GetLengthHigh;
          Acknowledge(held);
        case GetLengthHigh =>
          TakeLengthHigh(pind, held);
        case GetData =>
          TakeData(pind, held);
        case SendPrep =>
          state := SendRetcode;
          Acknowledge(held);
          ddrd := OUTPUT;
        case SendRetcode =>
          SendStatus(held);
        case SendLengthLow =>
          portd, state := lenLo, SendLengthHigh;
          Acknowledge(held);
        case SendLengthHigh =>
          portd := lenHi;
          state := if Word(lenLo, lenHi) != 0 then SendData else Finish;
          Acknowledge(held);
        case SendData =>
          DriveData(held);
        case Finish =>
          usb.AckPacket();
          ddrd := INPUT;
          state := GetChannel;
          Acknowledge(held);
      }
    }

    // The header is complete: forward it.
    method TakeLengthHigh(pind: byte, held: bool)
      requires state == GetLengthHigh
      modifies this, usb
      ensures Snapshot() == Step(old(Snapshot()), pind, held)
    {
      hide PutHeader, Flush;
      lenHi := pind;
      state := if Word(lenLo, lenHi) != 0 then GetData else SendPrep;
      Acknowledge(held);
      ForwardHeader();
      if Word(lenLo, lenHi) != 0 {
        usb.AwaitInPacket();
      }
    }

    // A byte of the body, into the packet being filled.
    method TakeData(pind: byte, held: bool)
      requires state == GetData && Enabled(Snapshot())
      modifies this, usb
      ensures Snapshot() == Step(old(Snapshot()), pind, held)
    {
      DecrementLength();
      if !ReadWriteAllowed(usb.State()) {
        usb.FlushPacket();
        usb.AwaitInPacket();
      }
      usb.PutByte(pind);
      if Word(lenLo, lenHi) == 0 {
        usb.FlushPacket();
        state := SendPrep;
      }
      Acknowledge(held);
    }

    // A byte of the reply, onto the bus.
    method DriveData(held: bool)
      requires state == SendData && Enabled(Snapshot())
      modifies this, usb
      ensures Snapshot() == Step(old(Snapshot()), 0, held)
    {
      hide Recv;
      portd := usb.RecvByte();
      DecrementLength();
      if Word(lenLo, lenHi) == 0 {
        state := Finish;
      }
      Acknowledge(held);
    }

    method AwaitStatus()
      requires Coherent(usb.State()) && |OutStream(usb.State())| >= 3
      modifies usb
      ensures usb.State() == AwaitReply(old(usb.State()))
    {
      usb.SelectEndpoint(Out);
      usb.AwaitOutPacket();
    }

    // The status byte onto the bus, and the length after it.
    method SendStatus(held: bool)
      requires state == SendRetcode && Enabled(Snapshot())
      modifies this, usb
      ensures Snapshot() == Step(old(Snapshot()), 0, held)
    {
      hide Recv, RecvWord, ReadReplyHeader, AwaitReply, OutStream, OutPackets, Coherent, CanRecv;
      AwaitStatus();
      ReplyHeaderParts(usb.State());
      portd := usb.RecvByte();
      state := SendLengthLow;
      Acknowledge(held);
      lenLo, lenHi := usb.RecvTwo();
    }
  }

  lemma ReplyHeaderParts(p: Port)
    requires CanRecv(p) && |OutStream(p)| >= 3
    ensures var (status, q) := Recv(p);
      && CanRecv(q) && |OutStream(q)| >= 2
      && ReadReplyHeader(p) == (status, RecvWord(q).0, RecvWord(q).1, RecvWord(q).2)
  {
    RecvTakesNextByte(p);
    var (status, q) := Recv(p);
    assert OutStream(q) == OutStream(p)[1..];
  }
}
