// The disassembler: its output reads back as the bytes it was given.

module Disassembler {
  import opened Bytes
  import opened Opcodes
  import opened Operands
  import opened Assembly

  // ---- Text as it grows ----

  // The items of a list so far, before the closing quote.
  function OpenItems(bs: seq<byte>, quoted: bool): string {
    if bs == [] then [] else NextItem(bs[0], quoted) + OpenItems(bs[1..], IsPrintable(bs[0]))
  }

  function OpenText(bs: seq<byte>): string
    requires bs != []
  {
    FirstItem(bs[0]) + OpenItems(bs[1..], IsPrintable(bs[0]))
  }

  function Quoted(bs: seq<byte>, quoted: bool): bool { if bs == [] then quoted else IsPrintable(bs[|bs| - 1]) }

  function Close(quoted: bool): string { if quoted then ['"'] else [] }

  lemma {:induction false} ClosedItems(bs: seq<byte>, quoted: bool)
    ensures MoreText(bs, quoted) == OpenItems(bs, quoted) + Close(Quoted(bs, quoted))
    decreases |bs|
  {
    hide NextItem, IsPrintable;
    if bs != [] {
      var q := IsPrintable(bs[0]);
      ClosedItems(bs[1..], q);
      assert Quoted(bs, quoted) == Quoted(bs[1..], q);
      Joined(NextItem(bs[0], quoted), OpenItems(bs[1..], q), Close(Quoted(bs, quoted)));
    }
  }

  lemma {:induction false} AnotherItem(bs: seq<byte>, quoted: bool, b: byte)
    ensures OpenItems(bs + [b], quoted) == OpenItems(bs, quoted) + NextItem(b, Quoted(bs, quoted))
    decreases |bs|
  {
    hide NextItem, IsPrintable;
    if bs == [] {
      assert [] + [b] == [b] && [b][1..] == [];
      assert OpenItems([], IsPrintable(b)) == [];
    } else {
      AnotherItem(bs[1..], IsPrintable(bs[0]), b);
      assert (bs + [b])[1..] == bs[1..] + [b];
      assert Quoted(bs, quoted) == Quoted(bs[1..], IsPrintable(bs[0]));
    }
  }

  lemma TextClosed(bs: seq<byte>)
    requires bs != []
    ensures TextItems(bs) == OpenText(bs) + Close(IsPrintable(bs[|bs| - 1]))
  {
    hide FirstItem, MoreText, OpenItems, IsPrintable, Close;
    var q := IsPrintable(bs[0]);
    ClosedItems(bs[1..], q);
    Joined(FirstItem(bs[0]), OpenItems(bs[1..], q), Close(Quoted(bs[1..], q)));
  }

  lemma TextGrows(bs: seq<byte>, b: byte)
    requires bs != []
    ensures OpenText(bs + [b]) == OpenText(bs) + NextItem(b, IsPrintable(bs[|bs| - 1]))
  {
    hide FirstItem, NextItem, OpenItems, IsPrintable;
    AnotherItem(bs[1..], IsPrintable(bs[0]), b);
    assert (bs + [b])[1..] == bs[1..] + [b];
  }

  lemma {:induction false} DataGrows(bs: seq<byte>, b: byte)
    ensures MoreData(bs + [b]) == MoreData(bs) + [',', ' ', '$'] + Hex2(b)
    decreases |bs|
  {
    hide Hex2;
    if bs == [] {
      assert [] + [b] == [b] && [b][1..] == [];
      assert MoreData([]) == [];
    } else {
      DataGrows(bs[1..], b);
      assert (bs + [b])[1..] == bs[1..] + [b];
    }
  }

  // ---- What is disassembled ----

  // The image, its load address, the symbol table, and for each byte 't' for text, 'b'
  // for data, anything else for code; one more region entry ends the last run.
  datatype Context = Context(data: seq<byte>, orgAddr: nat, symbols: Symbols, regions: seq<char>)

  predicate IsContext(c: Context) {
    && |c.regions| == |c.data| + 1 < 0x10000
    && c.regions[|c.data|] != 't' && c.regions[|c.data|] != 'b'
  }

  // The label at an index; empty if there is none.
  function LabelAt(c: Context, i: nat): string {
    var addr := (c.orgAddr + i) % 0x10000;
    if addr in c.symbols then c.symbols[addr] else []
  }

  function Length(b: byte): nat { 1 + OperandBytes(OpcodeAt(b).mode) }

  // A complete instruction.
  predicate WholeCode(c: Context, i: nat)
    requires IsContext(c) && i < |c.data|
  {
    i + Length(c.data[i]) <= |c.data|
  }

  // All the instructions met from i on are.
  predicate WholeFrom(c: Context, i: nat)
    requires IsContext(c)
    decreases |c.data| - i
  {
    if i >= |c.data| then i == |c.data|
    else if c.regions[i] == 't' || c.regions[i] == 'b' then WholeFrom(c, i + 1)
    else WholeCode(c, i) && WholeFrom(c, i + Length(c.data[i]))
  }

  // What the printed text determines, byte by byte: text that is no quotation mark, data
  // with no label on the next byte of the run, and instructions an assembler has whose
  // operand, if it has a symbol, is the only one of its name and cannot be taken for an
  // address in page zero if it is not.
  predicate Determined(c: Context, i: nat)
    requires IsContext(c)
    decreases |c.data| - i
  {
    if i >= |c.data| then true
    else if c.regions[i] == 't' then c.data[i] != QUOTE && Determined(c, i + 1)
    else if c.regions[i] == 'b' then (c.regions[i + 1] == 'b' ==> LabelAt(c, i + 1) == []) && Determined(c, i + 1)
    else
      && ReadableCode([c.data[i], At(c.data, i + 1), At(c.data, i + 2)], c.orgAddr + i, c.symbols)
      && Determined(c, i + Length(c.data[i]))
  }

  // The kind of a line is that of its bytes; an instruction's is that of its opcode.
  predicate IsKind(c: Context, l: Line, i: nat)
    requires i + |l.bytes| <= |c.data| < |c.regions|
  {
    match l
    case Text(_, bs) => forall k :: i <= k < i + |bs| ==> c.regions[k] == 't'
    case Code(_, _) => c.regions[i] != 't' && c.regions[i] != 'b'
    case _ => forall k :: i <= k < i + |l.bytes| ==> c.regions[k] == 'b'
  }

  // A line holds the bytes at index i and the label there, is of their kind, and no label is
  // passed over inside a list of bytes.
  predicate PlacedLine(c: Context, l: Line, i: nat) {
    var n := |l.bytes|;
    && i + n <= |c.data| < |c.regions| && l.bytes == c.data[i..i + n] && IsKind(c, l, i)
    && l.tag == LabelAt(c, i)
    && (!l.Code? ==> forall j :: i < j < i + n ==> LabelAt(c, j) == [])
  }

  // The lines hold the image from index i on.
  predicate Placed(c: Context, ls: seq<Line>, i: nat) {
    ls == [] || (PlacedLine(c, ls[0], i) && Placed(c, ls[1..], i + |ls[0].bytes|))
  }

  lemma {:induction false} PlacedMore(c: Context, ls: seq<Line>, more: seq<Line>, i: nat)
    requires Placed(c, ls, i) && Placed(c, more, i + |BytesOf(ls)|)
    ensures Placed(c, ls + more, i)
    decreases |ls|
  {
    hide PlacedLine;
    if ls == [] {
      assert [] + more == more;
    } else {
      PlacedMore(c, ls[1..], more, i + |ls[0].bytes|);
      assert (ls + more)[1..] == ls[1..] + more;
    }
  }

  lemma {:induction false} PlacedBytes(c: Context, ls: seq<Line>, i: nat)
    requires Placed(c, ls, i) && i <= |c.data|
    ensures i + |BytesOf(ls)| <= |c.data| && BytesOf(ls) == c.data[i..i + |BytesOf(ls)|]
    decreases |ls|
  {
    if ls != [] {
      PlacedBytes(c, ls[1..], i + |ls[0].bytes|);
    }
  }

  // Byte d of line k of a listing, by what the line holds and the image alone: it is the byte
  // after those of the earlier lines and the d before it; a line begins with the symbol of its
  // address, or without one, and no other byte of text or data has a symbol; the line is of the
  // byte's kind.
  lemma {:induction false} LineHolds(c: Context, ls: seq<Line>, i0: nat, k: nat, d: nat)
    requires Placed(c, ls, i0) && k < |ls| && d < |ls[k].bytes|
    ensures var l, i := ls[k], i0 + |BytesOf(ls[..k])| + d;
      var addr := (c.orgAddr + i) % 0x10000;
      && i < |c.data| < |c.regions| && l.bytes[d] == c.data[i]
      && (d == 0 ==> l.tag == if addr in c.symbols then c.symbols[addr] else "")
      && (d > 0 && !l.Code? ==> addr !in c.symbols)
      && (d == 0 || !l.Code? ==> (l.Text? <==> c.regions[i] == 't') && (l.Code? <==> c.regions[i] !in {'t', 'b'}))
    decreases k
  {
    hide IsKind, LabelAt;
    if k == 0 {
      assert ls[..0] == [];
      ByteHeld(c, ls[0], i0, d);
    } else {
      LineHolds(c, ls[1..], i0 + |ls[0].bytes|, k - 1, d);
      assert ls[..k][1..] == ls[1..][..k - 1];
    }
  }

  lemma ByteHeld(c: Context, l: Line, i: nat, d: nat)
    requires PlacedLine(c, l, i) && d < |l.bytes|
    ensures var addr := (c.orgAddr + i + d) % 0x10000;
      && l.bytes[d] == c.data[i + d]
      && (d == 0 ==> l.tag == if addr in c.symbols then c.symbols[addr] else "")
      && (d > 0 && !l.Code? ==> addr !in c.symbols)
      && (d == 0 || !l.Code? ==>
            (l.Text? <==> c.regions[i + d] == 't') && (l.Code? <==> c.regions[i + d] !in {'t', 'b'}))
  {
    if d > 0 && !l.Code? {
      assert LabelAt(c, i + d) == [];
    }
  }

  // The text of an unfinished line that began at index start.
  function OpenLine(c: Context, start: nat, end: nat): string
    requires start < end <= |c.data|
  {
    LabelAt(c, start) + ['\t'] + TEXT + OpenText(c.data[start..end])
  }

  predicate AllText(ls: seq<Line>) { forall i :: 0 <= i < |ls| ==> ls[i].Text? }

  // The bytes from i0 on are all text; the lines before start are finished, and the one
  // from start to end is not.
  ghost predicate Ongoing(c: Context, ls: seq<Line>, i0: nat, start: nat, end: nat) {
    && IsContext(c) && AllText(ls)
    && AllShaped(ls) && Placed(c, ls, i0) && start == i0 + |BytesOf(ls)|
    && i0 <= start < end <= |c.data|
    && (forall k :: i0 <= k < end ==> c.regions[k] == 't')
    && (forall k :: start < k < end ==> LabelAt(c, k) == [])
  }

  lemma LabelOk(c: Context, i: nat)
    requires IsContext(c)
    ensures IsLabel(LabelAt(c, i))
  {
  }

  // Closing the quotes and the line finishes it.
  lemma LineDone(c: Context, ls: seq<Line>, i0: nat, start: nat, end: nat) returns (done: seq<Line>)
    requires Ongoing(c, ls, i0, start, end)
    ensures AllShaped(done) && AllText(done) && Placed(c, done, i0) && end == i0 + |BytesOf(done)|
    ensures Listing(done, c.orgAddr + i0, c.symbols)
         == Listing(ls, c.orgAddr + i0, c.symbols) + OpenLine(c, start,
           end) + Close(IsPrintable(c.data[end - 1])) + ['\n']
  {
    hide IsPrintable, Printed, OpenLine, Close, Listing, LabelAt, IsLabel;
    var l := Text(LabelAt(c, start), c.data[start..end]);
    LabelOk(c, start);
    done := ls + [l];
    OneMoreLine(ls, l, c.orgAddr + i0, c.symbols);
    PlacedMore(c, ls, [l], i0);
    PrintedText(c, start, end);
  }

  lemma PrintedText(c: Context, start: nat, end: nat)
    requires start < end <= |c.data|
    ensures Printed(Text(LabelAt(c, start), c.data[start..end]), c.orgAddr + start, c.symbols)
         == OpenLine(c, start, end) + Close(IsPrintable(c.data[end - 1])) + ['\n']
  {
    hide IsPrintable, OpenText, TextItems, LabelAt, Close;
    var bs := c.data[start..end];
    TextClosed(bs);
    ClosedLine(LabelAt(c, start), OpenText(bs), Close(IsPrintable(c.data[end - 1])));
  }

  lemma ClosedLine(tag: string, text: string, close: string)
    ensures tag + ['\t'] + (TEXT + (text + close)) + ['\n'] == tag + ['\t'] + TEXT + text + close + ['\n']
  {
    hide TEXT;
    Joined(TEXT, text, close);
    Joined(tag + ['\t'], TEXT + text, close);
    Joined(tag + ['\t'], TEXT, text);
  }

  lemma LineStarts(c: Context, start: nat)
    requires start < |c.data|
    ensures OpenLine(c, start, start + 1) == LabelAt(c, start) + ['\t'] + TEXT + FirstItem(c.data[start])
  {
    assert c.data[start..start + 1] == [c.data[start]];
  }

  lemma LineGrows(c: Context, start: nat, end: nat)
    requires start < end < |c.data|
    ensures OpenLine(c, start, end + 1) == OpenLine(c, start, end) + NextItem(c.data[end], IsPrintable(c.data[end - 1]))
  {
    hide OpenText, NextItem, IsPrintable;
    assert c.data[start..end + 1] == c.data[start..end] + [c.data[end]];
    TextGrows(c.data[start..end], c.data[end]);
  }

  lemma RunStarts(c: Context, i0: nat)
    requires IsContext(c) && i0 < |c.data| && c.regions[i0] == 't'
    ensures Ongoing(c, [], i0, i0, i0 + 1) && Listing([], c.orgAddr + i0, c.symbols) == []
  {
  }

  lemma InRun(c: Context, ls: seq<Line>, i0: nat, start: nat, end: nat)
    requires Ongoing(c, ls, i0, start, end)
    ensures AllShaped(ls) && |c.regions| == |c.data| + 1 && i0 <= start < end <= |c.data|
    ensures c.regions[end] == 't' ==> end < |c.data|
    ensures forall k :: i0 <= k < end ==> c.regions[k] == 't'
  {
  }

  // The next byte is text too: with a label it begins a line.
  lemma GoesOn(c: Context, ls: seq<Line>, i0: nat, start: nat, end: nat)
    requires Ongoing(c, ls, i0, start, end) && end < |c.data| && c.regions[end] == 't'
    requires LabelAt(c, end) == []
    ensures Ongoing(c, ls, i0, start, end + 1) && start < end
  {
    hide Placed, LabelAt, BytesOf, Shaped;
  }

  lemma BreaksOff(c: Context, ls: seq<Line>, i0: nat, start: nat, end: nat) returns (done: seq<Line>)
    requires Ongoing(c, ls, i0, start, end) && end < |c.data| && c.regions[end] == 't'
    ensures Ongoing(c, done, i0, end, end + 1) && AllShaped(done)
    ensures Listing(done, c.orgAddr + i0, c.symbols)
         == Listing(ls, c.orgAddr + i0, c.symbols) + OpenLine(c, start,
           end) + Close(IsPrintable(c.data[end - 1])) + ['\n']
  {
    hide OpenLine, Close, IsPrintable, Listing, Placed, LabelAt, BytesOf;
    done := LineDone(c, ls, i0, start, end);
  }

  // The operand bytes of the instruction at i, as printed.
  function OperandAt(c: Context, i: nat): string
    requires i < |c.data|
  {
    Operand(OpcodeAt(c.data[i]).mode, At(c.data, i + 1), At(c.data, i + 2), c.orgAddr + i + 2, c.symbols)
  }

  lemma CodeLine(c: Context, i: nat)
    requires IsContext(c) && i < |c.data| && WholeCode(c, i) && c.regions[i] != 't' && c.regions[i] != 'b'
    ensures var l := Code(LabelAt(c, i), c.data[i..i + Length(c.data[i])]);
      var n := OpcodeAt(c.data[i]).name;
      && Shaped(l) && PlacedLine(c, l, i)
      && (Readable(l, c.orgAddr + i, c.symbols) <==>
           ReadableCode([c.data[i], At(c.data, i + 1), At(c.data, i + 2)], c.orgAddr + i, c.symbols))
      && Printed(l, c.orgAddr + i, c.symbols)
         == LabelAt(c, i) + ['\t', n.a, n.b, n.c] + OperandAt(c, i) + ['\t'] + Comment(c.orgAddr + i) + ['\n']
  {
    hide LabelAt, Comment, OpcodeAt, IsLabel, Operand;
    LabelOk(c, i);
    var m, bs := OpcodeAt(c.data[i]).mode, c.data[i..i + Length(c.data[i])];
    SameOperand(m, At(bs, 1), At(bs, 2), At(c.data, i + 1), At(c.data, i + 2), c.orgAddr + i + 2, c.symbols);
    var n := OpcodeAt(c.data[i]).name;
    CommentedLine(LabelAt(c, i), [n.a, n.b, n.c], OperandAt(c, i), Comment(c.orgAddr + i));
    assert ['\t'] + [n.a, n.b, n.c] == ['\t', n.a, n.b, n.c];
  }

  lemma CommentedLine(tag: string, name: string, operand: string, comment: string)
    ensures tag + ['\t'] + (name + operand + ['\t'] + comment) + ['\n']
      == tag + (['\t'] + name) + operand + ['\t'] + comment + ['\n']
  {
    Joined(tag, ['\t'], name);
    Joined(tag + ['\t'], name, operand);
    Joined(tag + ['\t'], name + operand, ['\t']);
    Joined(tag + ['\t'], name + operand + ['\t'], comment);
  }

  // Only the bytes a mode has are printed.
  lemma SameOperand(m: Mode, lo: byte, hi: byte, lo': byte, hi': byte, next: nat, t: Symbols)
    requires OperandBytes(m) >= 1 ==> lo == lo'
    requires OperandBytes(m) == 2 ==> hi == hi'
    ensures Operand(m, lo, hi, next, t) == Operand(m, lo', hi', next, t)
  {
    hide Hex2, Target;
  }

  // ---- Data as it grows ----

  // The line of a run of data from i0 that begins at start: only the first has a directive.
  function DataLine(c: Context, i0: nat, start: nat, end: nat): Line
    requires start < end <= |c.data|
  {
    if start == i0 then Data(LabelAt(c, start), c.data[start..end]) else Stray(LabelAt(c, start), c.data[start..end])
  }

  function OpenData(c: Context, i0: nat, start: nat, end: nat): string
    requires start < end <= |c.data|
  {
    LabelAt(c, start) + ['\t'] + (if start == i0 then BYTE else []) + DataItems(c.data[start..end])
  }

  // The bytes from i0 on are all data; the lines before start are finished, and the one
  // from start to end is not. Every line but the first has a label.
  ghost predicate DataOngoing(c: Context, ls: seq<Line>, i0: nat, start: nat, end: nat) {
    && IsContext(c) && AllShaped(ls) && Placed(c, ls, i0) && start == i0 + |BytesOf(ls)|
    && i0 <= start < end <= |c.data|
    && (forall k :: i0 <= k < end ==> c.regions[k] == 'b')
    && (forall k :: start < k < end ==> LabelAt(c, k) == [])
    && (if start == i0 then ls == [] else LabelAt(c, start) != [])
  }

  lemma DataStarts(c: Context, i0: nat)
    requires IsContext(c) && i0 < |c.data| && c.regions[i0] == 'b'
    ensures DataOngoing(c, [], i0, i0, i0 + 1) && Listing([], c.orgAddr + i0, c.symbols) == []
    ensures OpenData(c, i0, i0, i0 + 1) == LabelAt(c, i0) + ['\t'] + BYTE + ['$'] + Hex2(c.data[i0])
  {
    hide Hex2, LabelAt;
    OneItem(c, i0);
  }

  lemma OneItem(c: Context, i: nat)
    requires i < |c.data|
    ensures DataItems(c.data[i..i + 1]) == ['$'] + Hex2(c.data[i])
  {
    hide Hex2;
    assert c.data[i..i + 1] == [c.data[i]] && [c.data[i]][1..] == [];
  }

  lemma DataGoesOn(c: Context, ls: seq<Line>, i0: nat, start: nat, end: nat)
    requires DataOngoing(c, ls, i0, start, end) && end < |c.data| && c.regions[end] == 'b'
    requires LabelAt(c, end) == []
    ensures DataOngoing(c, ls, i0, start, end + 1)
    ensures OpenData(c, i0, start, end + 1) == OpenData(c, i0, start, end) + [',', ' ', '$'] + Hex2(c.data[end])
  {
    hide Placed, LabelAt, BytesOf, Shaped, Hex2, MoreData;
    var bs := c.data[start..end];
    assert c.data[start..end + 1] == bs + [c.data[end]];
    DataGrows(bs[1..], c.data[end]);
    assert (bs + [c.data[end]])[1..] == bs[1..] + [c.data[end]];
  }

  lemma DataDone(c: Context, ls: seq<Line>, i0: nat, start: nat, end: nat) returns (done: seq<Line>)
    requires DataOngoing(c, ls, i0, start, end)
    ensures done == ls + [DataLine(c, i0, start, end)]
    ensures AllShaped(done) && Placed(c, done, i0) && end == i0 + |BytesOf(done)|
    ensures Listing(done, c.orgAddr + i0, c.symbols)
      == Listing(ls, c.orgAddr + i0, c.symbols) + OpenData(c, i0, start, end) + ['\n']
  {
    hide Printed, OpenData, Listing, LabelAt, IsLabel;
    var l := DataLine(c, i0, start, end);
    LabelOk(c, start);
    done := ls + [l];
    OneMoreLine(ls, l, c.orgAddr + i0, c.symbols);
    PlacedMore(c, ls, [l], i0);
    PrintedData(c, i0, start, end);
  }

  lemma PrintedData(c: Context, i0: nat, start: nat, end: nat)
    requires start < end <= |c.data|
    ensures Printed(DataLine(c, i0, start, end), c.orgAddr + start, c.symbols) == OpenData(c, i0, start, end) + ['\n']
  {
    hide LabelAt, DataItems;
    Joined(LabelAt(c, start) + ['\t'], if start == i0 then BYTE else [], DataItems(c.data[start..end]));
  }

  lemma DataBreaksOff(c: Context, ls: seq<Line>, i0: nat, start: nat, end: nat) returns (done: seq<Line>)
    requires DataOngoing(c, ls, i0, start, end) && end < |c.data| && c.regions[end] == 'b'
    requires LabelAt(c, end) != []
    ensures DataOngoing(c, done, i0, end, end + 1) && AllShaped(done)
    ensures Listing(done, c.orgAddr + i0, c.symbols)
      == Listing(ls, c.orgAddr + i0, c.symbols) + OpenData(c, i0, start, end) + ['\n']
    ensures OpenData(c, i0, end, end + 1) == LabelAt(c, end) + ['\t'] + ['$'] + Hex2(c.data[end])
  {
    hide Listing, Placed, LabelAt, BytesOf, Hex2, DataItems, Shaped;
    done := DataDone(c, ls, i0, start, end);
    OneItem(c, end);
  }

  lemma InData(c: Context, ls: seq<Line>, i0: nat, start: nat, end: nat)
    requires DataOngoing(c, ls, i0, start, end)
    ensures AllShaped(ls) && |c.regions| == |c.data| + 1 && i0 <= start < end <= |c.data|
    ensures c.regions[end] == 'b' ==> end < |c.data|
    ensures forall k :: i0 <= k < end ==> c.regions[k] == 'b'
  {
  }

  // ---- What reads back ----

  lemma {:induction false} TextDetermined(c: Context, i: nat, end: nat)
    requires IsContext(c) && i <= end <= |c.data|
    requires forall k :: i <= k < end ==> c.regions[k] == 't'
    ensures Determined(c, i) <==> QUOTE !in c.data[i..end] && Determined(c, end)
    decreases end - i
  {
    hide Assembles, IsContext;
    if i < end {
      TextDetermined(c, i + 1, end);
      assert c.data[i..end] == [c.data[i]] + c.data[i + 1..end];
    }
  }

  lemma {:induction false} MarksInLines(ls: seq<Line>, addr: nat, t: Symbols)
    requires AllShaped(ls) && AllText(ls)
    ensures AllReadable(ls, addr, t) <==> QUOTE !in BytesOf(ls)
    decreases |ls|
  {
    hide IsLabel;
    if ls != [] {
      MarksInLines(ls[1..], addr + |ls[0].bytes|, t);
      FirstReadable(ls, addr, t);
    }
  }

  // The lines of a run of text are readable if and only if the text is determined.
  lemma TextVerdict(c: Context, ls: seq<Line>, i0: nat, end: nat)
    requires IsContext(c) && i0 <= end <= |c.data| && AllShaped(ls) && AllText(ls) && Placed(c, ls, i0)
    requires end == i0 + |BytesOf(ls)|
    requires forall k :: i0 <= k < end ==> c.regions[k] == 't'
    ensures Determined(c, i0) <==> AllReadable(ls, c.orgAddr + i0, c.symbols) && Determined(c, end)
  {
    hide Determined, Placed, Readable, IsContext;
    PlacedBytes(c, ls, i0);
    MarksInLines(ls, c.orgAddr + i0, c.symbols);
    TextDetermined(c, i0, end);
  }

  ghost predicate NoLabels(c: Context, i: nat, end: nat) { forall k :: i < k < end ==> LabelAt(c, k) == [] }

  lemma {:induction false} DataDetermined(c: Context, i: nat, end: nat)
    requires IsContext(c) && i < end <= |c.data| && c.regions[end] != 'b'
    requires forall k :: i <= k < end ==> c.regions[k] == 'b'
    ensures Determined(c, i) <==> NoLabels(c, i, end) && Determined(c, end)
    decreases end - i
  {
    hide Assembles, IsContext, LabelAt;
    if i + 1 < end {
      DataDetermined(c, i + 1, end);
      assert NoLabels(c, i, end) <==> LabelAt(c, i + 1) == [] && NoLabels(c, i + 1, end);
    }
  }

  // The lines of a run of data are readable if and only if there is no label inside it.
  lemma DataVerdict(c: Context, ls: seq<Line>, i0: nat, start: nat, end: nat)
    requires DataOngoing(c, ls, i0, start, end) && c.regions[end] != 'b'
    ensures Determined(c, i0) <==>
      AllReadable(ls + [DataLine(c, i0, start, end)], c.orgAddr + i0, c.symbols) && Determined(c, end)
  {
    hide Determined, LabelAt, Placed, BytesOf, IsLabel, AllReadable;
    DataDetermined(c, i0, end);
    var l := DataLine(c, i0, start, end);
    ReadableMore(ls, [l], c.orgAddr + i0, c.symbols);
    OneReadable(l, c.orgAddr + start, c.symbols);
    LabelOk(c, start);
    if start == i0 {
      NoneReadable(c.orgAddr + i0, c.symbols);
      assert ls == [] && Readable(l, c.orgAddr + i0, c.symbols);
    } else {
      assert !NoLabels(c, i0, end) && l.Stray?;
    }
  }

  lemma OneReadable(l: Line, addr: nat, t: Symbols)
    ensures AllReadable([l], addr, t) <==> Readable(l, addr, t)
  {
    hide Readable;
    assert [l][1..] == [];
  }

  lemma NoneReadable(addr: nat, t: Symbols)
    ensures AllReadable([], addr, t)
  {
  }

  lemma OneLine(c: Context, l: Line, i: nat) returns (ls: seq<Line>)
    requires Shaped(l) && PlacedLine(c, l, i)
    ensures ls == [l] && AllShaped(ls) && Placed(c, ls, i) && |BytesOf(ls)| == |l.bytes|
    ensures Listing(ls, c.orgAddr + i, c.symbols) == Printed(l, c.orgAddr + i, c.symbols)
  {
    ls := [l];
    assert BytesOf(ls[1..]) == [] && Listing(ls[1..], c.orgAddr + i + |l.bytes|, c.symbols) == [];
  }

  lemma {:induction false} WholeRun(c: Context, i: nat, end: nat)
    requires IsContext(c) && WholeFrom(c, i) && i <= end <= |c.data|
    requires forall k :: i <= k < end ==> c.regions[k] == 't' || c.regions[k] == 'b'
    ensures WholeFrom(c, end)
    decreases end - i
  {
    if i < end {
      WholeRun(c, i + 1, end);
    }
  }

  lemma WrappedComment(addr: nat)
    ensures Comment(addr % 0x10000) == Comment(addr)
  {
    hide Hex2;
    SixteenBits(addr);
  }

  lemma SixteenBits(x: nat)
    ensures x % 0x10000 / 256 % 256 == x / 256 % 256 && x % 0x10000 % 256 == x % 256
  {
  }

  lemma MoreLines(c: Context, ls: seq<Line>, more: seq<Line>)
    requires AllShaped(ls) && AllShaped(more)
    requires Placed(c, ls, 0) && Placed(c, more, |BytesOf(ls)|)
    ensures AllShaped(ls + more) && (AllReadable(ls + more, c.orgAddr, c.symbols) <==>
      AllReadable(ls, c.orgAddr, c.symbols) && AllReadable(more, c.orgAddr + |BytesOf(ls)|, c.symbols))
    ensures Placed(c, ls + more, 0) && |BytesOf(ls + more)| == |BytesOf(ls)| + |BytesOf(more)|
    ensures Listing(ls + more, c.orgAddr, c.symbols)
      == Listing(ls, c.orgAddr, c.symbols) + Listing(more, c.orgAddr + |BytesOf(ls)|, c.symbols)
  {
    hide Listing, Placed, Readable, Shaped, BytesOf, AllReadable;
    ReadableMore(ls, more, c.orgAddr, c.symbols);
    PlacedMore(c, ls, more, 0);
    BytesMore(ls, more);
    ListingMore(ls, more, c.orgAddr, c.symbols);
  }

  class Disassembler {
    const cxt: Context
    var index: nat
    var output: string

    constructor (c: Context)
      requires IsContext(c)
      ensures cxt == c && index == 0 && output == []
    {
      cxt, index, output := c, 0, [];
    }

    method GetByte() returns (b: byte)
      requires index < |cxt.data|
      modifies this`index
      ensures b == cxt.data[old(index)] && index == old(index) + 1
    {
      b := cxt.data[index];
      index := index + 1;
    }

    // One byte of text: a comma unless the line has just begun, and quotes as needed.
    method PrintTextByte(b: byte, quotes: bool, comma: bool) returns (inQuotes: bool, needComma: bool)
      modifies this`output
      ensures output == old(output) + (if comma then NextItem(b, quotes) else FirstItem(b))
      ensures inQuotes == IsPrintable(b) && needComma
    {
      inQuotes, needComma := quotes, comma;
      if 32 <= b < 127 {
        if inQuotes {
          if needComma {
            output := output + [b as char];
          } else {
            output := output + ['"', b as char];
            needComma := true;
          }
        } else {
          if needComma {
            output := output + [',', ' ', '"', b as char];
          } else {
            output := output + ['"', b as char];
            needComma := true;
          }
          inQuotes := true;
        }
      } else {
        if inQuotes {
          if needComma {
            output := output + ['"', ',', ' ', '$'] + Hex2(b);
          } else {
            output := output + ['$'] + Hex2(b);
            needComma := true;
          }
          inQuotes := false;
        } else {
          if needComma {
            output := output + [',', ' ', '$'] + Hex2(b);
          } else {
            output := output + ['$'] + Hex2(b);
            needComma := true;
          }
        }
      }
    }

    method GetLabel() returns (tag: string)
      ensures tag == LabelAt(cxt, index)
    {
      var addr := (cxt.orgAddr + index) % 0x10000;
      tag := if addr in cxt.symbols then cxt.symbols[addr] else [];
    }

    // Another byte of a run of text; a label before it ends the line.
    method NextTextByte(quotes: bool, ghost out0: string, ghost ls: seq<Line>, ghost i0: nat, ghost start: nat)
      returns (inQuotes: bool, needComma: bool, ghost ls': seq<Line>, ghost start': nat)
      requires Ongoing(cxt, ls, i0, start, index) && index < |cxt.data| && cxt.regions[index] == 't'
      requires quotes == IsPrintable(cxt.data[index - 1])
      requires output == out0 + Listing(ls, cxt.orgAddr + i0, cxt.symbols) + OpenLine(cxt, start, index)
      modifies this`index, this`output
      ensures index == old(index) + 1
      ensures Ongoing(cxt, ls', i0, start', index)
      ensures inQuotes == IsPrintable(cxt.data[index - 1]) && needComma
      ensures output == out0 + Listing(ls', cxt.orgAddr + i0, cxt.symbols) + OpenLine(cxt, start', index)
    {
      hide Ongoing, Listing, OpenLine, NextItem, FirstItem, LabelAt, IsPrintable;
      ghost var end := index;
      ls', start' := ls, start;
      inQuotes, needComma := quotes, true;
      var tag := GetLabel();
      if tag != [] {
        needComma := false;
        if inQuotes {
          output := output + ['"', '\n'] + tag + ['\t'] + TEXT;
        } else {
          output := output + ['\n'] + tag + ['\t'] + TEXT;
        }
        ls' := BreaksOff(cxt, ls, i0, start, end);
        start' := end;
        LineStarts(cxt, end);
        assert output == out0 + Listing(ls', cxt.orgAddr + i0, cxt.symbols) + (tag + ['\t'] + TEXT);
      } else {
        GoesOn(cxt, ls, i0, start, end);
        LineGrows(cxt, start, end);
      }
      var b := GetByte();
      inQuotes, needComma := PrintTextByte(b, inQuotes, needComma);
    }

    method FirstTextByte(ghost out0: string) returns (inQuotes: bool, needComma: bool)
      requires IsContext(cxt)
      requires index < |cxt.data| && cxt.regions[index] == 't'
      requires output == out0 + LabelAt(cxt, index)
      modifies this`index, this`output
      ensures index == old(index) + 1 && Ongoing(cxt, [], old(index), old(index), index)
      ensures inQuotes == IsPrintable(cxt.data[index - 1]) && needComma
      ensures output == out0 + Listing([], cxt.orgAddr + old(index), cxt.symbols) + OpenLine(cxt, old(index), index)
    {
      hide Ongoing, Listing, OpenLine, NextItem, FirstItem, LabelAt, IsPrintable;
      ghost var i0 := index;
      RunStarts(cxt, i0);
      LineStarts(cxt, i0);
      var b := GetByte();
      output := output + ['\t'] + TEXT;
      inQuotes, needComma := PrintTextByte(b, false, false);
    }

    // A run of text, of which the label at the start has been printed.
    method DoText(ghost out0: string) returns (ghost ls: seq<Line>)
      requires IsContext(cxt)
      requires index < |cxt.data| && cxt.regions[index] == 't'
      requires output == out0 + LabelAt(cxt, index)
      modifies this`index, this`output
      ensures old(index) < index <= |cxt.data| && cxt.regions[index] != 't'
      ensures forall k :: old(index) <= k < index ==> cxt.regions[k] == 't'
      ensures AllShaped(ls) && Placed(cxt, ls, old(index)) && index == old(index) + |BytesOf(ls)|
      ensures Determined(cxt, old(index)) <==>
        AllReadable(ls, cxt.orgAddr + old(index), cxt.symbols) && Determined(cxt, index)
      ensures output == out0 + Listing(ls, cxt.orgAddr + old(index), cxt.symbols)
    {
      hide Ongoing, Listing, OpenLine, NextItem, FirstItem, LabelAt, IsPrintable, Determined, Readable;
      ghost var i0: nat, start: nat := index, index;
      ls := [];
      var inQuotes, needComma := FirstTextByte(out0);
      while cxt.regions[index] == 't'
        invariant AllShaped(ls) && start < index <= |cxt.data|
        invariant Ongoing(cxt, ls, i0, start, index)
        invariant inQuotes == IsPrintable(cxt.data[index - 1]) && needComma
        invariant output == out0 + Listing(ls, cxt.orgAddr + i0, cxt.symbols) + OpenLine(cxt, start, index)
        decreases |cxt.data| - index
      {
        InRun(cxt, ls, i0, start, index);
        inQuotes, needComma, ls, start := NextTextByte(inQuotes, out0, ls, i0, start);
        InRun(cxt, ls, i0, start, index);
      }
      InRun(cxt, ls, i0, start, index);
      if inQuotes {
        output := output + ['"', '\n'];
      } else {
        output := output + ['\n'];
      }
      ls := LineDone(cxt, ls, i0, start, index);
      TextVerdict(cxt, ls, i0, index);
    }

    // Another byte of a run of data. A label before it starts a line, without a directive.
    method NextDataByte(ghost out0: string, ghost ls: seq<Line>, ghost i0: nat, ghost start: nat)
      returns (ghost ls': seq<Line>, ghost start': nat)
      requires DataOngoing(cxt, ls, i0, start, index) && index < |cxt.data| && cxt.regions[index] == 'b'
      requires output == out0 + Listing(ls, cxt.orgAddr + i0, cxt.symbols) + OpenData(cxt, i0, start, index)
      modifies this`index, this`output
      ensures index == old(index) + 1
      ensures DataOngoing(cxt, ls', i0, start', index)
      ensures output == out0 + Listing(ls', cxt.orgAddr + i0, cxt.symbols) + OpenData(cxt, i0, start', index)
    {
      hide DataOngoing, Listing, OpenData, LabelAt, Hex2;
      ghost var end := index;
      ls', start' := ls, start;
      var tag := GetLabel();
      var b := GetByte();
      if tag != [] {
        output := output + ['\n'] + tag + ['\t', '$'] + Hex2(b);
        ls' := DataBreaksOff(cxt, ls, i0, start, end);
        start' := end;
      } else {
        output := output + [',', ' ', '$'] + Hex2(b);
        DataGoesOn(cxt, ls, i0, start, end);
      }
    }

    // A run of data, of which the label at the start has been printed.
    method DoData(ghost out0: string) returns (ghost ls: seq<Line>)
      requires IsContext(cxt)
      requires index < |cxt.data| && cxt.regions[index] == 'b'
      requires output == out0 + LabelAt(cxt, index)
      modifies this`index, this`output
      ensures old(index) < index <= |cxt.data| && cxt.regions[index] != 'b'
      ensures forall k :: old(index) <= k < index ==> cxt.regions[k] == 'b'
      ensures AllShaped(ls) && Placed(cxt, ls, old(index)) && index == old(index) + |BytesOf(ls)|
      ensures Determined(cxt, old(index)) <==>
        AllReadable(ls, cxt.orgAddr + old(index), cxt.symbols) && Determined(cxt, index)
      ensures output == out0 + Listing(ls, cxt.orgAddr + old(index), cxt.symbols)
    {
      hide DataOngoing, Listing, OpenData, LabelAt, Hex2, Determined, Readable;
      ghost var i0: nat, start: nat := index, index;
      ls := [];
      var b := GetByte();
      output := output + ['\t'] + BYTE + ['$'] + Hex2(b);
      DataStarts(cxt, i0);
      while cxt.regions[index] == 'b'
        invariant AllShaped(ls) && start < index <= |cxt.data|
        invariant DataOngoing(cxt, ls, i0, start, index)
        invariant output == out0 + Listing(ls, cxt.orgAddr + i0, cxt.symbols) + OpenData(cxt, i0, start, index)
        decreases |cxt.data| - index
      {
        InData(cxt, ls, i0, start, index);
        ls, start := NextDataByte(out0, ls, i0, start);
        InData(cxt, ls, i0, start, index);
      }
      InData(cxt, ls, i0, start, index);
      output := output + ['\n'];
      DataVerdict(cxt, ls, i0, start, index);
      ls := DataDone(cxt, ls, i0, start, index);
    }

    method DoByte(before: string, after: string)
      requires index < |cxt.data|
      modifies this`index, this`output
      ensures index == old(index) + 1
      ensures var v := cxt.data[old(index)];
        output == old(output) + before + Shown(cxt.symbols, v, Hex2(v)) + after
    {
      var operand := GetByte();
      if operand in cxt.symbols {
        output := output + before + cxt.symbols[operand] + after;
      } else {
        output := output + before + ['$'] + Hex2(operand) + after;
      }
    }

    method DoWord(before: string, after: string)
      requires index + 1 < |cxt.data|
      modifies this`index, this`output
      ensures index == old(index) + 2
      ensures var v := Word(cxt.data[old(index)], cxt.data[old(index) + 1]);
        output == old(output) + before + Shown(cxt.symbols, v, Hex4(v)) + after
    {
      var lo := GetByte();
      var hi := GetByte();
      var operand := Word(lo, hi);
      if operand in cxt.symbols {
        output := output + before + cxt.symbols[operand] + after;
      } else {
        output := output + before + ['$'] + Hex4(operand) + after;
      }
    }

    method DoBranch()
      requires index < |cxt.data|
      modifies this`index, this`output
      ensures index == old(index) + 1
      ensures var v := Target(cxt.orgAddr + index, cxt.data[old(index)]);
        output == old(output) + [' '] + Shown(cxt.symbols, v, Hex4(v))
    {
      var operand := GetByte();
      var signed: int := if operand < 128 then operand else operand as int - 256;
      var addr := (cxt.orgAddr + index + signed) % 0x10000;
      if addr in cxt.symbols {
        output := output + [' '] + cxt.symbols[addr];
      } else {
        output := output + [' ', '$'] + Hex4(addr);
      }
    }

    // The operand of an instruction, by addressing mode.
    method DoOperand(m: Mode)
      requires index + OperandBytes(m) <= |cxt.data|
      modifies this`index, this`output
      ensures index == old(index) + OperandBytes(m)
      ensures var lo, hi := At(cxt.data, old(index)), At(cxt.data, old(index) + 1);
        output == old(output) + Operand(m, lo, hi, cxt.orgAddr + old(index) + 1, cxt.symbols)
    {
      hide Hex2, Hex4, Shown, Target;
      if m == REL {
        DoBranch();
      } else if OperandBytes(m) == 2 {
        DoWord(Opening(m), Closing(m));
      } else if OperandBytes(m) == 1 {
        DoByte(Opening(m), Closing(m));
      }
    }

    // An instruction, of which the label has been printed.
    method DoCode(ghost out0: string) returns (ghost ls: seq<Line>)
      requires IsContext(cxt) && index < |cxt.data| && WholeCode(cxt, index)
      requires cxt.regions[index] != 't' && cxt.regions[index] != 'b'
      requires output == out0 + LabelAt(cxt, index)
      modifies this`index, this`output
      ensures index == old(index) + Length(cxt.data[old(index)])
      ensures AllShaped(ls) && Placed(cxt, ls, old(index)) && index == old(index) + |BytesOf(ls)|
      ensures Determined(cxt, old(index)) <==>
        AllReadable(ls, cxt.orgAddr + old(index), cxt.symbols) && Determined(cxt, index)
      ensures output == out0 + Listing(ls, cxt.orgAddr + old(index), cxt.symbols)
    {
      hide LabelAt, Comment, OpcodeAt, Operand, OperandBytes, Readable, Shaped, PlacedLine, Printed, Listing,
        ReadableCode, IsContext;
      ghost var i: nat := index;
      var addr := (cxt.orgAddr + index) % 0x10000;
      var b := GetByte();
      var oc := OpcodeAt(b);
      output := output + ['\t', oc.name.a, oc.name.b, oc.name.c];
      DoOperand(oc.mode);
      output := output + ['\t'] + Comment(addr) + ['\n'];
      WrappedComment(cxt.orgAddr + i);
      CodeLine(cxt, i);
      ls := OneLine(cxt, Code(LabelAt(cxt, i), cxt.data[i..index]), i);
    }

    // One line of code, or one run of text or data.
    method D6502() returns (ghost ls: seq<Line>)
      requires IsContext(cxt) && index < |cxt.data| && WholeFrom(cxt, index)
      modifies this`index, this`output
      ensures old(index) < index <= |cxt.data| && WholeFrom(cxt, index)
      ensures AllShaped(ls) && Placed(cxt, ls, old(index)) && index == old(index) + |BytesOf(ls)|
      ensures Determined(cxt, old(index)) <==>
        AllReadable(ls, cxt.orgAddr + old(index), cxt.symbols) && Determined(cxt, index)
      ensures output == old(output) + Listing(ls, cxt.orgAddr + old(index), cxt.symbols)
    {
      hide LabelAt, Listing, Placed, WholeCode;
      ghost var i, out0 := index, output;
      var tag := GetLabel();
      if tag != [] {
        output := output + tag;
      }
      if cxt.regions[index] == 'b' {
        ls := DoData(out0);
        WholeRun(cxt, i, index);
      } else if cxt.regions[index] == 't' {
        ls := DoText(out0);
        WholeRun(cxt, i, index);
      } else {
        ls := DoCode(out0);
      }
    }

    // The whole image: what is printed reads back as every byte of it, in order, with
    // the labels where they were.
    method Disassemble() returns (ghost ls: seq<Line>)
      requires IsContext(cxt) && index == 0 && WholeFrom(cxt, 0)
      modifies this`index, this`output
      ensures index == |cxt.data|
      ensures AllShaped(ls) && Placed(cxt, ls, 0) && BytesOf(ls) == cxt.data
      ensures output == old(output) + Listing(ls, cxt.orgAddr, cxt.symbols)
      ensures var text := Listing(ls, cxt.orgAddr, cxt.symbols);
        ReadListing(text, cxt.orgAddr, DefinitionsOf(cxt.symbols)) == Some(ls) <==> Determined(cxt, 0)
    {
      hide WholeFrom, Placed, Listing, AllReadable, AllShaped, IsContext, Determined, BytesOf, ReadListing;
      ls := [];
      NoLines(cxt);
      while index < |cxt.data|
        invariant index <= |cxt.data| && WholeFrom(cxt, index)
        invariant AllShaped(ls) && Placed(cxt, ls, 0)
        invariant Determined(cxt, 0) <==> AllReadable(ls, cxt.orgAddr, cxt.symbols) && Determined(cxt, index)
        invariant index == |BytesOf(ls)|
        invariant output == old(output) + Listing(ls, cxt.orgAddr, cxt.symbols)
      {
        ghost var more := D6502();
        MoreLines(cxt, ls, more);
        ls := ls + more;
      }
      WholeImage(cxt, ls);
    }
  }

  // Lines that hold the whole image.
  lemma WholeImage(c: Context, ls: seq<Line>)
    requires IsContext(c) && AllShaped(ls) && Placed(c, ls, 0) && |BytesOf(ls)| == |c.data|
    ensures BytesOf(ls) == c.data && Determined(c, |c.data|)
    ensures ReadListing(Listing(ls, c.orgAddr, c.symbols), c.orgAddr, DefinitionsOf(c.symbols)) == Some(ls) <==>
      AllReadable(ls, c.orgAddr, c.symbols)
  {
    hide Placed, Listing, AllShaped, AllReadable, ReadListing;
    PlacedBytes(c, ls, 0);
    ListingReads(ls, c.orgAddr, c.symbols);
  }

  lemma NoLines(c: Context)
    ensures AllShaped([]) && AllReadable([], c.orgAddr, c.symbols) && Placed(c, [], 0) && BytesOf([]) == [] &&
      Listing([], c.orgAddr, c.symbols) == []
  {
  }
}
