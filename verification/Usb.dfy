// The two bulk endpoints of the AT90USB162 as usbio.h drives them.
//
// IN carries packets from the BBC to the host, OUT from the host to the BBC.
// Each endpoint has one 64-byte bank.

module Usb {
  import opened Bytes

  const ENDPOINT_SIZE := 64

  datatype Endpoint = In | Out

  // The endpoint registers and the packets on their way in each direction.
  datatype Port = Port(
    selected: Endpoint,         // UENUM
    inBank: seq<byte>,          // bytes put but not flushed
    inReady: bool,              // TXINI
    sent: seq<seq<byte>>,       // packets flushed and not yet taken by the host
    outBank: seq<byte>,         // bytes not yet read of the packet in the bank
    outReady: bool,             // RXOUTI
    arriving: seq<seq<byte>>,   // packets the host has written, not yet in the bank
    acked: nat)                 // how many OUT packets have been acknowledged

  function Flatten(ps: seq<seq<byte>>): seq<byte> {
    if ps == [] then [] else ps[0] + Flatten(ps[1..])
  }

  // Everything the firmware can still read from the OUT endpoint, in order.
  function OutStream(p: Port): seq<byte> { p.outBank + Flatten(p.arriving) }

  // Every OUT packet is acknowledged, in the bank, or on its way.
  function OutPackets(p: Port): nat { p.acked + (if p.outReady then 1 else 0) + |p.arriving| }

  // An empty bank is the only thing a bank that is not ready can hold, and the
  // host never ends a reply with an empty packet.
  predicate Coherent(p: Port) {
    && (!p.outReady ==> p.outBank == [])
    && (p.arriving != [] ==> p.arriving[|p.arriving| - 1] != [])
  }

  predicate ReadWriteAllowed(p: Port) {
    match p.selected
    case In => p.inReady && |p.inBank| < ENDPOINT_SIZE
    case Out => p.outReady && p.outBank != []
  }

  // A byte written to a full bank is lost.
  function Put(p: Port, b: byte): Port
    requires p.selected == In
  {
    if ReadWriteAllowed(p) then p.(inBank := p.inBank + [b]) else p
  }

  function Flush(p: Port): Port
    requires p.selected == In
  {
    p.(sent := p.sent + [p.inBank], inBank := [], inReady := false)
  }

  // The host has taken the packet.
  function InReady(p: Port): Port { p.(inReady := true) }

  function AckOut(p: Port): Port
    requires p.selected == Out
  {
    if p.outReady then p.(outReady := false, outBank := [], acked := p.acked + 1) else p
  }

  predicate CanAwaitOut(p: Port) { p.outReady || p.arriving != [] }

  function AwaitOut(p: Port): Port
    requires CanAwaitOut(p)
  {
    if p.outReady then p
    else p.(outReady := true, outBank := p.arriving[0], arriving := p.arriving[1..])
  }

  predicate CanRecv(p: Port) { p.selected == Out && Coherent(p) && OutStream(p) != [] }

  // The byte and the port left by usbRecvByte.
  function Recv(p: Port): (byte, Port)
    requires CanRecv(p)
    decreases |p.arriving|
  {
    if ReadWriteAllowed(p) then (p.outBank[0], p.(outBank := p.outBank[1..]))
    else
      assert p.outBank == [];
      Recv(AwaitOut(AckOut(p)))
  }

  // For any split of the reply into packets, a received byte is the next byte of
  // the stream, no packet is lost, and the IN side is untouched.
  lemma {:induction false} RecvTakesNextByte(p: Port)
    requires CanRecv(p)
    ensures var (b, q) := Recv(p);
      && OutStream(p) == [b] + OutStream(q)
      && OutPackets(q) == OutPackets(p)
      && Coherent(q) && q.outReady
      && q == p.(outBank := q.outBank, outReady := true, arriving := q.arriving, acked := q.acked)
    decreases |p.arriving|
  {
    if !ReadWriteAllowed(p) {
      RecvTakesNextByte(AwaitOut(AckOut(p)));
    } else {
      assert p.outBank == [p.outBank[0]] + p.outBank[1..];
    }
  }

  // Two bytes in succession, low byte first.
  function RecvWord(p: Port): (r: (byte, byte, Port))
    requires CanRecv(p) && |OutStream(p)| >= 2
    ensures OutStream(p) == [r.0, r.1] + OutStream(r.2)
    ensures OutPackets(r.2) == OutPackets(p) && Coherent(r.2) && r.2.selected == Out
    ensures r.2 == p.(outBank := r.2.outBank, outReady := true, arriving := r.2.arriving, acked := r.2.acked)
  {
    RecvTakesNextByte(p);
    var (lo, q) := Recv(p);
    assert OutStream(q) == OutStream(p)[1..];
    RecvTakesNextByte(q);
    var (hi, q) := Recv(q);
    (lo, hi, q)
  }

  // Once the whole reply has been read, acknowledging the packet in the bank
  // leaves no packet unacknowledged.
  lemma {:induction false} FinishAcknowledgesAll(p: Port)
    requires p.selected == Out && Coherent(p) && OutStream(p) == []
    ensures var q := AckOut(p);
      !q.outReady && q.outBank == [] && q.arriving == [] && q.acked == OutPackets(p)
  {
    if p.arriving != [] {
      FlattenLast(p.arriving);
    }
  }

  lemma {:induction false} FlattenLast(ps: seq<seq<byte>>)
    requires ps != []
    ensures |Flatten(ps)| >= |ps[|ps| - 1]|
  {
    if |ps| > 1 {
      FlattenLast(ps[1..]);
    }
  }

  // A transfer cut into bank-sized packets, the last one possibly shorter.
  function Chunks(s: seq<byte>): seq<seq<byte>> {
    if s == [] then []
    else if |s| <= ENDPOINT_SIZE then [s]
    else [s[..ENDPOINT_SIZE]] + Chunks(s[ENDPOINT_SIZE..])
  }

  lemma {:induction false} ChunksFrame(s: seq<byte>)
    ensures Flatten(Chunks(s)) == s
    ensures s != [] <==> Chunks(s) != []
    ensures forall i :: 0 <= i < |Chunks(s)| ==> 0 < |Chunks(s)[i]| <= ENDPOINT_SIZE
    ensures forall i :: 0 <= i < |Chunks(s)| - 1 ==> |Chunks(s)[i]| == ENDPOINT_SIZE
  {
    if |s| > ENDPOINT_SIZE {
      ChunksFrame(s[ENDPOINT_SIZE..]);
      assert s == s[..ENDPOINT_SIZE] + s[ENDPOINT_SIZE..];
    } else if s != [] {
      assert Flatten([s]) == s + Flatten([]);
    }
  }

  lemma ChunksHead(s: seq<byte>)
    requires s != []
    ensures var n := if |s| <= ENDPOINT_SIZE then |s| else ENDPOINT_SIZE;
      Chunks(s) == [s[..n]] + Chunks(s[n..])
  {
    if |s| <= ENDPOINT_SIZE {
      assert s[..|s|] == s && s[|s|..] == [];
    }
  }

  // The packets flushed, and the bytes left in the bank, after putting s one byte
  // at a time and flushing only when the next byte finds the bank full.
  function Flushed(s: seq<byte>): seq<seq<byte>> {
    if |s| <= ENDPOINT_SIZE then [] else [s[..ENDPOINT_SIZE]] + Flushed(s[ENDPOINT_SIZE..])
  }

  function Banked(s: seq<byte>): (bank: seq<byte>)
    ensures |bank| <= ENDPOINT_SIZE
    ensures s != [] ==> bank != []
  {
    if |s| <= ENDPOINT_SIZE then s else Banked(s[ENDPOINT_SIZE..])
  }

  lemma {:induction false} PutOne(s: seq<byte>, b: byte)
    ensures if |Banked(s)| < ENDPOINT_SIZE
            then Flushed(s + [b]) == Flushed(s) && Banked(s + [b]) == Banked(s) + [b]
            else Flushed(s + [b]) == Flushed(s) + [Banked(s)] && Banked(s + [b]) == [b]
  {
    var t := s + [b];
    if |s| == ENDPOINT_SIZE {
      assert t[..ENDPOINT_SIZE] == s && t[ENDPOINT_SIZE..] == [b];
    } else if |s| > ENDPOINT_SIZE {
      PutOne(s[ENDPOINT_SIZE..], b);
      assert t[..ENDPOINT_SIZE] == s[..ENDPOINT_SIZE] && t[ENDPOINT_SIZE..] == s[ENDPOINT_SIZE..] + [b];
    }
  }

  // Flushing what is left in the bank completes the packets of the transfer.
  lemma {:induction false} FlushLast(s: seq<byte>)
    requires s != []
    ensures Flushed(s) + [Banked(s)] == Chunks(s)
  {
    if |s| > ENDPOINT_SIZE {
      FlushLast(s[ENDPOINT_SIZE..]);
    }
  }

  // The registers as the firmware's inline functions update them.
  class Registers {
    var selected: Endpoint
    var inBank: seq<byte>
    var inReady: bool
    var sent: seq<seq<byte>>
    var outBank: seq<byte>
    var outReady: bool
    var arriving: seq<seq<byte>>
    var acked: nat

    function State(): Port
      reads this
    {
      Port(selected, inBank, inReady, sent, outBank, outReady, arriving, acked)
    }

    constructor ()
      ensures State() == Port(In, [], true, [], [], false, [], 0)
    {
      selected, inBank, inReady, sent := In, [], true, [];
      outBank, outReady, arriving, acked := [], false, [], 0;
    }

    method SelectEndpoint(e: Endpoint)
      modifies this
      ensures State() == old(State()).(selected := e)
    {
      selected := e;
    }

    method PutByte(b: byte)
      requires selected == In
      modifies this
      ensures State() == Put(old(State()), b)
    {
      if inReady && |inBank| < ENDPOINT_SIZE {
        inBank := inBank + [b];
      }
    }

    method FlushPacket()
      requires selected == In
      modifies this
      ensures State() == Flush(old(State()))
    {
      sent := sent + [inBank];
      inBank, inReady := [], false;
    }

    // while (!usbInPacketReady());
    method AwaitInPacket()
      modifies this
      ensures State() == InReady(old(State()))
    {
      inReady := true;
    }

    method AckPacket()
      requires selected == Out
      modifies this
      ensures State() == AckOut(old(State()))
    {
      if outReady {
        outReady, outBank, acked := false, [], acked + 1;
      }
    }

    // while (!usbOutPacketReady());
    method AwaitOutPacket()
      requires CanAwaitOut(State())
      modifies this
      ensures State() == AwaitOut(old(State()))
    {
      if !outReady {
        outReady, outBank, arriving := true, arriving[0], arriving[1..];
      }
    }

    method RecvByte() returns (b: byte)
      requires CanRecv(State())
      modifies this
      ensures (b, State()) == Recv(old(State()))
    {
      while !(outReady && outBank != [])
        invariant CanRecv(State())
        invariant Recv(State()) == Recv(old(State()))
        decreases |arriving|, if outReady then 1 else 0
      {
        assert !ReadWriteAllowed(State());
        AckPacket();
        AwaitOutPacket();
      }
      b := outBank[0];
      outBank := outBank[1..];
    }

    method RecvTwo() returns (lo: byte, hi: byte)
      requires CanRecv(State()) && |OutStream(State())| >= 2
      modifies this
      ensures (lo, hi, State()) == RecvWord(old(State()))
    {
      RecvTakesNextByte(State());
      lo := RecvByte();
      assert OutStream(State()) == OutStream(old(State()))[1..];
      hi := RecvByte();
    }
  }
}
