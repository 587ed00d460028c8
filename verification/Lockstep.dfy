// Runs of the bridge over whole messages: the ROM's script of strobes against the
// firmware's state machine.

module Lockstep {
  import opened Bytes
  import opened Usb
  import opened Firmware

  // What can happen to the bridge, one atomic handshake at a time.
  datatype Event =
    | ResetPulse(floating: byte)               // the BBC holds its flag low and releases it
    | Strobe(bus: byte)                        // one byte handshaken
    | HostReply(packets: seq<seq<byte>>)       // the host takes the request and answers

  // A strobe the firmware cannot serve is never acknowledged.
  function Apply(a: Avr, e: Event): Avr {
    match e
    case ResetPulse(f) => if Enabled(a) then Step(a, f, true) else a
    case Strobe(b) => if Enabled(a) then Step(a, b, false) else a
    case HostReply(ps) => a.(usb := a.usb.(sent := [], arriving := a.usb.arriving + ps))
  }

  function Run(a: Avr, es: seq<Event>): Avr {
    if es == [] then a else Apply(Run(a, es[..|es| - 1]), es[|es| - 1])
  }

  // One call of send_msg: the exchange, the byte floating on the bus during the
  // reset pulse, what the BBC's output latch holds while it is reading, and the
  // packets in which the host's answer arrives.
  datatype Turn = Turn(x: Exchange, floating: byte, latches: seq<byte>, packets: seq<seq<byte>>)

  predicate IsTurn(t: Turn) {
    && IsExchange(t.x)
    && |t.latches| == 1 + |Response(t.x)| + 1
    && Flatten(t.packets) == Response(t.x)
    && t.packets != [] && t.packets[|t.packets| - 1] != []
  }

  function Length(t: Turn): nat
    requires IsTurn(t)
  {
    1 + |Request(t.x)| + 1 + 1 + |Response(t.x)| + 1
  }

  // Event i of send_msg.
  function EventAt(t: Turn, i: nat): Event
    requires IsTurn(t) && i < Length(t)
  {
    var n := |Request(t.x)|;
    if i == 0 then ResetPulse(t.floating)
    else if i <= n then Strobe(Request(t.x)[i - 1])
    else if i == n + 1 then Strobe(t.latches[0])
    else if i == n + 2 then HostReply(t.packets)
    else Strobe(t.latches[i - n - 2])
  }

  function Script(t: Turn): seq<Event>
    requires IsTurn(t)
  {
    seq(Length(t), i requires 0 <= i < Length(t) => EventAt(t, i))
  }

  predicate IsStrobe(e: Event) { e.Strobe? }

  function CountStrobes(es: seq<Event>): nat {
    if es == [] then 0 else CountStrobes(es[..|es| - 1]) + (if IsStrobe(es[|es| - 1]) then 1 else 0)
  }

  // The ROM drives the bus from the end of the reset pulse to the last request byte.
  predicate RomDrives(t: Turn, i: nat)
    requires IsTurn(t) && i < Length(t)
  {
    1 <= i <= |Request(t.x)|
  }

  // Where the firmware's state machine and counter must be after i events.
  function StateAt(t: Turn, i: nat): State
    requires IsTurn(t) && i <= Length(t)
  {
    var n := |Request(t.x)|;
    if i <= 6 then [GetChannel, GetChannel, GetCommand, GetParam1, GetParam2, GetLengthLow, GetLengthHigh][i]
    else if i <= n then GetData
    else if i == n + 1 then SendPrep
    else if i == n + 2 then SendRetcode
    else ResponseState(t.x, i - n - 3)
  }

  // Bytes still to move in the current direction; None while the length is being received.
  function LeftAt(t: Turn, i: nat): int
    requires IsTurn(t) && i <= Length(t)
  {
    var n := |Request(t.x)|;
    if i <= 6 then -1
    else if i <= n + 1 then n + 1 - i
    else if i <= n + 3 then 0
    else |Unread(t.x, i - n - 3)|
  }

  // Between messages: idle, nothing in either bank, every OUT packet acknowledged.
  predicate Clean(a: Avr) {
    Idle(a) && !a.usb.outReady && a.usb.outBank == [] && a.usb.arriving == []
  }

  // The firmware when the bus changes hands, before and after the host has answered.
  function Turned(a: Avr, t: Turn): Avr
    requires IsTurn(t)
  {
    RequestAt(a.(channel := t.floating), t.x, |Request(t.x)|).(state := SendRetcode, ddrd := OUTPUT)
  }

  function Answered(a: Avr, t: Turn): Avr
    requires IsTurn(t)
  {
    Apply(Turned(a, t), HostReply(t.packets))
  }

  // The firmware's exact place i events into turn t begun in state a.
  ghost predicate Placed(a: Avr, t: Turn, i: nat, s: Avr)
    requires IsTurn(t) && i <= Length(t)
  {
    var n := |Request(t.x)|;
    if i == 0 then s == a
    else if i <= n + 1 then s == RequestAt(a.(channel := t.floating), t.x, i - 1)
    else if i == n + 2 then s == Turned(a, t)
    else AwaitingReply(Answered(a, t), t.x) && ResponseAt(s, Answered(a, t), t.x, i - n - 3)
  }

  lemma PlacedInRequest(a: Avr, t: Turn, i: nat)
    requires Clean(a) && IsTurn(t) && i < |Request(t.x)|
    ensures var r := a.(channel := t.floating);
      Apply(RequestAt(r, t.x, i), Strobe(Request(t.x)[i])) == RequestAt(r, t.x, i + 1)
  {
    RequestStep(a.(channel := t.floating), t.x, i);
  }

  lemma PlacedAfterReset(a: Avr, t: Turn)
    requires Clean(a) && IsTurn(t)
    ensures Apply(a, ResetPulse(t.floating)) == RequestAt(a.(channel := t.floating), t.x, 0)
  {
  }

  lemma PlacedAtTurn(a: Avr, t: Turn)
    requires Clean(a) && IsTurn(t)
    ensures Apply(RequestAt(a.(channel := t.floating), t.x, |Request(t.x)|), Strobe(t.latches[0])) == Turned(a, t)
  {
  }

  lemma ReplyArrives(a: Avr, t: Turn)
    requires Clean(a) && IsTurn(t)
    ensures AwaitingReply(Answered(a, t), t.x) && ResponseAt(Answered(a, t), Answered(a, t), t.x, 0)
  {
    assert [] + t.packets == t.packets;
    assert [] + Flatten(t.packets) == Flatten(t.packets);
  }

  lemma PlacedInResponse(c: Avr, t: Turn, j: nat, s: Avr)
    requires IsTurn(t) && j <= |Response(t.x)|
    requires AwaitingReply(c, t.x) && ResponseAt(s, c, t.x, j)
    ensures ResponseAt(Apply(s, Strobe(t.latches[j + 1])), c, t.x, j + 1)
  {
    ResponseStep(s, c, t.x, j, t.latches[j + 1]);
  }

  lemma PlacedStep(a: Avr, t: Turn, i: nat, s: Avr)
    requires Clean(a) && IsTurn(t) && i < Length(t) && Placed(a, t, i, s)
    ensures Placed(a, t, i + 1, Apply(s, EventAt(t, i)))
  {
    hide Apply, RequestAt;
    var n := |Request(t.x)|;
    if i == 0 {
      PlacedAfterReset(a, t);
    } else if i <= n {
      PlacedInRequest(a, t, i - 1);
    } else if i == n + 1 {
      PlacedAtTurn(a, t);
    } else if i == n + 2 {
      ReplyArrives(a, t);
    } else {
      PlacedInResponse(Answered(a, t), t, i - n - 3, s);
    }
  }

  lemma PlacedAtStart(a: Avr, t: Turn)
    requires IsTurn(t)
    ensures Placed(a, t, 0, a)
  {
  }

  lemma {:induction false} PlacedAt(a: Avr, t: Turn, i: nat)
    requires Clean(a) && IsTurn(t) && i <= Length(t)
    ensures Placed(a, t, i, Run(a, Script(t)[..i]))
  {
    hide Apply, Placed;
    if i == 0 {
      PlacedAtStart(a, t);
    } else {
      PlacedAt(a, t, i - 1);
      var es := Script(t)[..i];
      assert es[..i - 1] == Script(t)[..i - 1];
      PlacedStep(a, t, i - 1, Run(a, es[..i - 1]));
    }
  }

  // What the ROM may rely on i events into a message.
  predicate InLockstep(t: Turn, i: nat, s: Avr)
    requires IsTurn(t) && i <= Length(t)
  {
    && s.state == StateAt(t, i)
    && (LeftAt(t, i) >= 0 && s.state in {GetData, SendPrep, SendLengthLow, SendLengthHigh, SendData, Finish}
        ==> DataLength(s) == LeftAt(t, i))
    // The AVR owns the bus exactly in its sending states, and never against the ROM.
    && s.ddrd == (if Sending(s.state) then OUTPUT else INPUT)
    && (i < Length(t) && RomDrives(t, i) ==> s.ddrd == INPUT)
    // A byte read after a response strobe is the byte driven for that strobe.
    && (|Request(t.x)| + 3 < i < Length(t) ==> s.portd == Response(t.x)[i - |Request(t.x)| - 4])
  }

  lemma Lockstep(a: Avr, t: Turn, i: nat)
    requires Clean(a) && IsTurn(t) && i <= Length(t)
    ensures InLockstep(t, i, Run(a, Script(t)[..i]))
  {
    hide Apply, Placed, InLockstep, Run;
    PlacedAt(a, t, i);
    PlacedInLockstep(a, t, i, Run(a, Script(t)[..i]));
  }

  lemma PlacedInLockstep(a: Avr, t: Turn, i: nat, s: Avr)
    requires Clean(a) && IsTurn(t) && i <= Length(t) && Placed(a, t, i, s)
    ensures InLockstep(t, i, s)
  {
    hide RequestAt, Answered;
    var n := |Request(t.x)|;
    if 0 < i <= n + 1 {
      RequestFields(a.(channel := t.floating), t.x, i - 1);
    }
  }

  lemma RequestFields(r: Avr, x: Exchange, k: nat)
    requires Idle(r) && IsExchange(x) && k <= |Request(x)|
    ensures var s := RequestAt(r, x, k);
      && s.ddrd == INPUT
      && (k <= 5 ==> s.state == [GetChannel, GetCommand, GetParam1, GetParam2, GetLengthLow, GetLengthHigh][k])
      && (k > 5 ==> s.state == (if k < |Request(x)| then GetData else SendPrep) && DataLength(s) == |Request(x)| - k)
  {
  }

  // Just before the host answers, the packets waiting for it are the header alone
  // and then the body cut into full banks with only the last possibly short.
  lemma RequestFraming(a: Avr, t: Turn)
    requires Clean(a) && IsTurn(t)
    ensures var s := Run(a, Script(t)[..|Request(t.x)| + 2]);
      && s.usb.sent == a.usb.sent + [t.x.header] + Chunks(t.x.body)
      && Flatten(Chunks(t.x.body)) == t.x.body
      && (forall k :: 0 <= k < |Chunks(t.x.body)| ==> 0 < |Chunks(t.x.body)[k]| <= ENDPOINT_SIZE)
      && (forall k :: 0 <= k < |Chunks(t.x.body)| - 1 ==> |Chunks(t.x.body)[k]| == ENDPOINT_SIZE)
  {
    PlacedAt(a, t, |Request(t.x)| + 2);
    ChunksFrame(t.x.body);
  }

  // A whole message: both sides are idle again, every reply packet has been
  // acknowledged exactly once, and the number of strobes is fixed by the two lengths.
  lemma MessageCompletes(a: Avr, t: Turn)
    requires Clean(a) && IsTurn(t)
    ensures var s := Run(a, Script(t));
      && Clean(s)
      && s.usb.acked == a.usb.acked + |t.packets|
      && s.usb.sent == []
    ensures CountStrobes(Script(t)) == 6 + |t.x.body| + 1 + 3 + |t.x.reply| + 1
  {
    var n := Length(t);
    assert Script(t)[..n] == Script(t);
    PlacedAt(a, t, n);
    StrobesBefore(t, n);
  }

  lemma {:induction false} StrobesBefore(t: Turn, i: nat)
    requires IsTurn(t) && i <= Length(t)
    ensures CountStrobes(Script(t)[..i]) ==
            i - (if i > 0 then 1 else 0) - (if i > |Request(t.x)| + 2 then 1 else 0)
  {
    if i > 0 {
      StrobesBefore(t, i - 1);
      assert Script(t)[..i][..i - 1] == Script(t)[..i - 1];
    }
  }

  // ---- Any number of messages ----

  predicate IsSession(ts: seq<Turn>) { forall k :: 0 <= k < |ts| ==> IsTurn(ts[k]) }

  function Events(ts: seq<Turn>): seq<Event>
    requires IsSession(ts)
  {
    if ts == [] then [] else Script(ts[0]) + Events(ts[1..])
  }

  // The message and the place in it that event number n of a session falls in.
  function PlaceOf(ts: seq<Turn>, n: nat): (Turn, nat)
    requires IsSession(ts) && n < |Events(ts)|
  {
    if n < Length(ts[0]) then (ts[0], n) else PlaceOf(ts[1..], n - Length(ts[0]))
  }

  lemma {:induction false} RunAppend(a: Avr, es: seq<Event>, fs: seq<Event>)
    ensures Run(a, es + fs) == Run(Run(a, es), fs)
  {
    hide Apply;
    if fs == [] {
      assert es + fs == es;
    } else {
      RunAppend(a, es, fs[..|fs| - 1]);
      assert (es + fs)[..|es + fs| - 1] == es + fs[..|fs| - 1];
    }
  }

  // At every moment of every session of complete messages, ROM and firmware agree.
  lemma {:induction false} SessionLockstep(a: Avr, ts: seq<Turn>, n: nat)
    requires Clean(a) && IsSession(ts) && n < |Events(ts)|
    ensures var (t, i) := PlaceOf(ts, n);
      && IsTurn(t) && i < Length(t)
      && InLockstep(t, i, Run(a, Events(ts)[..n]))
    decreases |ts|
  {
    hide Apply, Clean, InLockstep, Run, EventAt;
    var es, rest := Script(ts[0]), Events(ts[1..]);
    if n < Length(ts[0]) {
      PrefixOfFirst(es, rest, n);
      Lockstep(a, ts[0], n);
    } else {
      MessageCompletes(a, ts[0]);
      SessionLockstep(Run(a, es), ts[1..], n - |es|);
      PrefixPastFirst(es, rest, n);
      RunAppend(a, es, rest[..n - |es|]);
    }
  }

  lemma PrefixOfFirst(es: seq<Event>, fs: seq<Event>, n: nat)
    requires n <= |es|
    ensures (es + fs)[..n] == es[..n]
  {
  }

  lemma PrefixPastFirst(es: seq<Event>, fs: seq<Event>, n: nat)
    requires |es| <= n <= |es| + |fs|
    ensures (es + fs)[..n] == es + fs[..n - |es|]
  {
  }

  lemma {:induction false} SessionCompletes(a: Avr, ts: seq<Turn>)
    requires Clean(a) && IsSession(ts)
    ensures Clean(Run(a, Events(ts)))
    decreases |ts|
  {
    hide Apply, Clean;
    if ts != [] {
      MessageCompletes(a, ts[0]);
      SessionCompletes(Run(a, Script(ts[0])), ts[1..]);
      RunAppend(a, Script(ts[0]), Events(ts[1..]));
    }
  }

  // ---- Reset pulses ----

  // At idle a reset pulse is a stutter: only the channel register, which the next
  // message overwrites, picks up what floats on the bus.
  lemma ResetAtIdle(a: Avr, floating: byte)
    requires Idle(a)
    ensures Apply(a, ResetPulse(floating)) == a.(channel := floating)
  {
  }

  // Anywhere else the pulse always restarts the state machine, but it leaves the
  // AVR driving the bus exactly when it arrives in SEND_PREP, where DDRD is set
  // after the acknowledgement.
  lemma ResetReleasesBus(a: Avr, floating: byte)
    requires Enabled(a)
    requires a.ddrd == (if Sending(a.state) then OUTPUT else INPUT)
    ensures var s := Apply(a, ResetPulse(floating));
      s.state == GetChannel && (s.ddrd == INPUT <==> a.state != SendPrep)
  {
  }
}
