// The host program: reads a request from the cable, executes it against the disk
// image, and writes the response.

module Server {
  import opened Bytes
  import opened Usb

  const DEFAULT: byte := 0
  const CALC: byte := 0
  const READ_BLOCK: byte := 1
  const RW_FILE: byte := 2

  const RC_SUCCESS: byte := 0
  const RC_UNRECOGNISED_COMMAND: byte := 1
  const RC_UNRECOGNISED_CHANNEL: byte := 2

  const IMAGE_SIZE := 200 * 1024
  const BUFFER_SIZE := 65536

  datatype ReqHeader = ReqHeader(channel: byte, command: byte, param1: byte, param2: byte, length: nat)
  datatype RspHeader = RspHeader(returnCode: byte, length: nat)

  function Header(h: seq<byte>): ReqHeader
    requires |h| == 6
  {
    ReqHeader(h[0], h[1], h[2], h[3], Word(h[4], h[5]))
  }

  // The sector number and byte count of a READ_BLOCK request.
  function Block(body: seq<byte>): nat
    requires |body| >= 4
  {
    Word(body[0], body[1] % 4)
  }

  function NumBytes(body: seq<byte>): nat
    requires |body| >= 4
  {
    Word(body[2], body[3])
  }

  // What the C code demands of a request: the reply copy stays inside the image,
  // the divisor of CALC is not zero. RW_FILE needs the host's file system.
  predicate Answerable(h: ReqHeader, body: seq<byte>) {
    h.channel == DEFAULT ==>
      && h.command != RW_FILE
      && (h.command == CALC ==> h.param2 != 0)
      && (h.command == READ_BLOCK ==> |body| >= 4 && 256 * Block(body) + NumBytes(body) <= IMAGE_SIZE)
  }

  // Sum, difference, product and quotient, truncated to bytes.
  function Calc(p: byte, q: byte): (r: seq<byte>)
    requires q != 0
    ensures |r| == 4
  {
    var a: int, b: int := p, q;
    DivisionFits(p, q);
    [(a + b) % 256, (a - b) % 256, a * b % 256, a / b]
  }

  // The response a request calls for.
  function Answer(h: ReqHeader, body: seq<byte>, image: seq<byte>): (r: (byte, seq<byte>))
    requires Answerable(h, body) && |image| == IMAGE_SIZE
    ensures |r.1| < BUFFER_SIZE
  {
    if h.channel != DEFAULT then (RC_UNRECOGNISED_CHANNEL, [])
    else if h.command == CALC then
      (RC_SUCCESS, Calc(h.param1, h.param2))
    else if h.command == READ_BLOCK then
      (RC_SUCCESS, image[256 * Block(body)..256 * Block(body) + NumBytes(body)])
    else (RC_UNRECOGNISED_COMMAND, [])
  }

  class Host {
    const diskImage: array<byte>
    const reqBuffer: array<byte>
    const rspBuffer: array<byte>

    predicate Valid()
      reads this
    {
      && diskImage.Length == IMAGE_SIZE
      && reqBuffer.Length == rspBuffer.Length == BUFFER_SIZE
      && diskImage != reqBuffer && diskImage != rspBuffer && reqBuffer != rspBuffer
    }

    constructor (image: seq<byte>)
      requires |image| == IMAGE_SIZE
      ensures Valid() && diskImage[..] == image
      ensures fresh(diskImage) && fresh(reqBuffer) && fresh(rspBuffer)
    {
      diskImage := new byte[IMAGE_SIZE](i requires 0 <= i < IMAGE_SIZE => image[i]);
      reqBuffer := new byte[BUFFER_SIZE];
      rspBuffer := new byte[BUFFER_SIZE];
    }

    method ReadBlock() returns (numBytes: nat)
      requires Valid() && Block(reqBuffer[..]) * 256 + NumBytes(reqBuffer[..]) <= IMAGE_SIZE
      modifies rspBuffer
      ensures numBytes == NumBytes(reqBuffer[..]) < BUFFER_SIZE
      ensures var src := 256 * Block(reqBuffer[..]);
        rspBuffer[..numBytes] == diskImage[src..src + numBytes]
    {
      var block := Word(reqBuffer[0], reqBuffer[1] % 4);
      numBytes := Word(reqBuffer[2], reqBuffer[3]);
      var src: nat, dst: nat := 256 * block, 0;
      for i := 0 to numBytes
        invariant src == 256 * block + i && dst == i
        invariant rspBuffer[..i] == diskImage[256 * block..256 * block + i]
      {
        rspBuffer[dst] := diskImage[src];
        dst, src := dst + 1, src + 1;
      }
    }

    method ExecuteRequest(h: ReqHeader) returns (r: RspHeader)
      requires Valid() && Answerable(h, reqBuffer[..])
      modifies rspBuffer
      ensures r.length < BUFFER_SIZE
      ensures (r.returnCode, rspBuffer[..r.length]) == Answer(h, reqBuffer[..], diskImage[..])
    {
      if h.channel == DEFAULT {
        if h.command == CALC {
          var a: int, b: int := h.param1, h.param2;
          DivisionFits(h.param1, h.param2);
          rspBuffer[0] := (a + b) % 256;
          rspBuffer[1] := (a - b) % 256;
          rspBuffer[2] := a * b % 256;
          rspBuffer[3] := a / b;
          assert rspBuffer[..4] == Calc(h.param1, h.param2);
          r := RspHeader(RC_SUCCESS, 4);
        } else if h.command == READ_BLOCK {
          var numBytes := ReadBlock();
          assert diskImage[..][256 * Block(reqBuffer[..])..256 * Block(reqBuffer[..]) + numBytes]
              == diskImage[256 * Block(reqBuffer[..])..256 * Block(reqBuffer[..]) + numBytes];
          r := RspHeader(RC_SUCCESS, numBytes);
        } else {
          r := RspHeader(RC_UNRECOGNISED_COMMAND, 0);
        }
      } else {
        r := RspHeader(RC_UNRECOGNISED_CHANNEL, 0);
      }
    }

    method CopyPacket(packet: seq<byte>, at: nat)
      requires Valid() && at + |packet| <= BUFFER_SIZE
      modifies reqBuffer
      ensures reqBuffer[..at + |packet|] == old(reqBuffer[..at]) + packet
      ensures reqBuffer[at + |packet|..] == old(reqBuffer[at + |packet|..])
    {
      for k := 0 to |packet|
        invariant reqBuffer[..at] == old(reqBuffer[..at])
        invariant forall i :: 0 <= i < k ==> reqBuffer[at + i] == packet[i]
        invariant reqBuffer[at + |packet|..] == old(reqBuffer[at + |packet|..])
      {
        reqBuffer[at + k] := packet[k];
      }
    }

    // A bulk read of n bytes takes packets off the cable until it has them all or
    // meets a packet that does not fill the endpoint.
    method BulkRead(usb: Registers, n: nat, ghost s: seq<byte>, ghost rest: seq<seq<byte>>)
      requires Valid() && |s| == n <= BUFFER_SIZE && n > 0
      requires usb.sent == Chunks(s) + rest
      modifies usb, reqBuffer
      ensures usb.State() == old(usb.State()).(sent := rest)
      ensures reqBuffer[..n] == s
    {
      var got := 0;
      while got < n
        invariant 0 <= got <= n
        invariant usb.sent == Chunks(s[got..]) + rest
        invariant usb.State() == old(usb.State()).(sent := usb.sent)
        invariant reqBuffer[..got] == s[..got]
      {
        ChunksHead(s[got..]);
        var packet := usb.sent[0];
        assert usb.sent[1..] == Chunks(s[got..][|packet|..]) + rest;
        usb.sent := usb.sent[1..];
        CopyPacket(packet, got);
        assert s[..got] + packet == s[..got + |packet|];
        assert s[got..][|packet|..] == s[got + |packet|..];
        got := got + |packet|;
        if |packet| < ENDPOINT_SIZE {
          break;
        }
      }
      assert s[..n] == s;
      assert Chunks(s[n..]) + rest == rest;
    }

    method BulkWrite(usb: Registers, s: seq<byte>)
      modifies usb
      ensures usb.State() == old(usb.State()).(arriving := old(usb.arriving) + Chunks(s))
    {
      var at := 0;
      while at < |s|
        invariant 0 <= at <= |s|
        invariant usb.State() == old(usb.State()).(arriving := usb.arriving)
        invariant usb.arriving + Chunks(s[at..]) == old(usb.arriving) + Chunks(s)
      {
        ChunksHead(s[at..]);
        var packet := if |s| - at <= ENDPOINT_SIZE then s[at..] else s[at..at + ENDPOINT_SIZE];
        assert s[at..][|packet|..] == s[at + |packet|..] && s[at..][..|packet|] == packet;
        assert usb.arriving + ([packet] + Chunks(s[at + |packet|..]))
          == usb.arriving + [packet] + Chunks(s[at + |packet|..]);
        usb.arriving := usb.arriving + [packet];
        at := at + |packet|;
      }
      assert usb.arriving + Chunks(s[at..]) == usb.arriving;
    }

    // One turn of the main loop, the cable holding one whole request.
    method Serve(usb: Registers, ghost header: seq<byte>, ghost body: seq<byte>)
      requires Valid() && |header| == 6 && |body| == Word(header[4], header[5])
      requires Answerable(Header(header), body)
      requires usb.sent == [header] + Chunks(body)
      modifies usb, reqBuffer, rspBuffer
      ensures var (status, reply) := Answer(Header(header), body, diskImage[..]);
        usb.State() == old(usb.State()).(sent := [],
          arriving := old(usb.arriving) + [[status, |reply| % 256, |reply| / 256]] + Chunks(reply))
    {
      assert Chunks(header) == [header];
      BulkRead(usb, 6, header, Chunks(body));
      assert forall k :: 0 <= k < 6 ==> reqBuffer[k] == reqBuffer[..6][k];
      var h := ReqHeader(reqBuffer[0], reqBuffer[1], reqBuffer[2], reqBuffer[3], Word(reqBuffer[4], reqBuffer[5]));
      assert h == Header(header);
      if h.length != 0 {
        assert Chunks(body) + [] == Chunks(body);
        BulkRead(usb, h.length, body, []);
      }
      AnswerPrefix(h, body, reqBuffer[..], diskImage[..]);
      var r := ExecuteRequest(h);
      assert Chunks([r.returnCode, r.length % 256, r.length / 256]) == [[r.returnCode, r.length % 256, r.length / 256]];
      BulkWrite(usb, [r.returnCode, r.length % 256, r.length / 256]);
      if r.length != 0 {
        BulkWrite(usb, rspBuffer[..r.length]);
      }
    }
  }

  lemma DivisionFits(a: byte, b: byte)
    requires b > 0
    ensures 0 <= a / b < 256
  {
  }

  // Only the bytes the request carries matter, not what an earlier one left behind.
  lemma AnswerPrefix(h: ReqHeader, body: seq<byte>, buffer: seq<byte>, image: seq<byte>)
    requires Answerable(h, body) && |image| == IMAGE_SIZE && |body| <= |buffer| && buffer[..|body|] == body
    ensures Answerable(h, buffer) && Answer(h, buffer, image) == Answer(h, body, image)
  {
    if |body| >= 4 {
      assert forall k :: 0 <= k < 4 ==> buffer[k] == buffer[..|body|][k];
    }
  }

  // What the four results are, without their computation: sum, difference and product modulo
  // 256, and the whole quotient.
  lemma CalcMeans(p: byte, q: byte)
    requires q != 0
    ensures var r := Calc(p, q);
      && IsRemainder(r[0], p + q) && IsRemainder(r[1], p - q) && IsRemainder(r[2], p * q)
      && IsQuotient(r[3], p, q)
  {
    hide IsRemainder;
    var v, w: int := p, q;
    Remainder(v + w, (v + w) % 256);
    Remainder(v - w, (v - w) % 256);
    Remainder(v * w, v * w % 256);
    Quotient(p, q);
  }

  ghost predicate IsRemainder(r: byte, v: int) { exists k: int :: v == r + 256 * k }

  lemma Remainder(v: int, r: byte)
    requires r == v % 256
    ensures IsRemainder(r, v)
  {
    assert v == r + 256 * (v / 256);
  }

  predicate IsQuotient(r: byte, p: int, q: int) { r * q <= p < r * q + q }

  lemma Quotient(p: byte, q: byte)
    requires q != 0
    ensures 0 <= p / q < 256 && IsQuotient(p / q, p, q)
  {
  }

  lemma CalcExamples()
    ensures Calc(7, 3) == [10, 4, 21, 2] && Calc(3, 7) == [10, 252, 21, 0] && Calc(200, 100) == [44, 100, 32, 2]
  {
  }

  // A request for n bytes from a sector, as its four bytes; the upper six bits of the second
  // are ignored.
  lemma BlockAnswer(sector: nat, n: nat, unused: nat, image: seq<byte>)
    requires sector < 1024 && n < 65536 && unused < 64 && |image| == IMAGE_SIZE && 256 * sector + n <= IMAGE_SIZE
    ensures var body: seq<byte> := [sector % 256, sector / 256 + 4 * unused, n % 256, n / 256];
      var h := ReqHeader(0, 1, 0, 0, 4);
      Answerable(h, body) && Answer(h, body, image) == (0, image[256 * sector..256 * sector + n])
  {
    BlockRead(sector, n, unused);
    hide Block, NumBytes;
  }

  lemma BlockRead(sector: nat, n: nat, unused: nat)
    requires sector < 1024 && n < 65536 && unused < 64
    ensures var body: seq<byte> := [sector % 256, sector / 256 + 4 * unused, n % 256, n / 256];
      Block(body) == sector && NumBytes(body) == n
  {
    assert (sector / 256 + 4 * unused) % 4 == sector / 256;
    assert sector % 256 + 256 * (sector / 256) == sector && n % 256 + 256 * (n / 256) == n;
  }

  // The two errors, by their numbers, whatever the rest of the request says.
  lemma ErrorAnswers(h: ReqHeader, body: seq<byte>, image: seq<byte>)
    requires |image| == IMAGE_SIZE
    ensures h.channel != 0 ==> Answerable(h, body) && Answer(h, body, image) == (2, [])
    ensures h.channel == 0 && h.command > 2 ==> Answerable(h, body) && Answer(h, body, image) == (1, [])
  {
  }

  // Six bytes of header, the length low byte first.
  lemma HeaderRead()
    ensures Header([1, 2, 3, 4, 0x34, 0x12]) == ReqHeader(1, 2, 3, 4, 0x1234)
  {
  }
}
