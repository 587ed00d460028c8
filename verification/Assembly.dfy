// Lines of assembly source as the disassembler writes them, and a reader for them.

module Assembly {
  import opened Bytes
  import opened Opcodes
  import opened Operands

  // ---- Cutting text ----

  // The text up to a character, and the text after it.
  function Until(s: string, c: char): string { if s == [] || s[0] == c then [] else [s[0]] + Until(s[1..], c) }

  function Past(s: string, c: char): string { if s == [] then [] else if s[0] == c then s[1..] else Past(s[1..], c) }

  lemma {:induction false} CutAt(a: string, c: char, rest: string)
    requires c !in a
    ensures Until(a + [c] + rest, c) == a && Past(a + [c] + rest, c) == rest
  {
    var s := a + [c] + rest;
    if a == [] {
      assert s[1..] == rest;
    } else {
      CutAt(a[1..], c, rest);
      assert s[1..] == a[1..] + [c] + rest;
    }
  }

  // ---- Byte lists ----

  const QUOTE: byte := 34

  predicate IsPrintable(b: byte) { 32 <= b < 127 }

  // The first item of a list, and each later one after an item that left a quote open
  // or not.
  function FirstItem(b: byte): string {
    if IsPrintable(b) then ['"', b as char] else ['$'] + Hex2(b)
  }

  function NextItem(b: byte, quoted: bool): string {
    if quoted && IsPrintable(b) then [b as char]
    else if quoted then ['"', ',', ' '] + FirstItem(b)
    else [',', ' '] + FirstItem(b)
  }

  function MoreText(bs: seq<byte>, quoted: bool): string {
    if bs == [] then (if quoted then ['"'] else [])
    else NextItem(bs[0], quoted) + MoreText(bs[1..], IsPrintable(bs[0]))
  }

  function TextItems(bs: seq<byte>): string
    requires bs != []
  {
    FirstItem(bs[0]) + MoreText(bs[1..], IsPrintable(bs[0]))
  }

  // Bytes up to the end of the line, and what follows it.
  datatype Items = Items(bytes: seq<byte>, rest: string)

  function Before(b: byte, t: Option<Items>): Option<Items> {
    if t.Some? then Some(Items([b] + t.value.bytes, t.value.rest)) else None
  }

  // An item: a quoted string, which may be empty, or a hexadecimal byte.
  function ReadItem(s: string): Option<Items>
    decreases |s|
  {
    if s != [] && s[0] == '"' then ReadMore(s[1..], true)
    else if |s| >= 3 && s[0] == '$' && ReadHex2(s[1], s[2]).Some? then
      Before(ReadHex2(s[1], s[2]).value, ReadMore(s[3..], false))
    else None
  }

  // The rest of a list, inside quotes or after an item.
  function ReadMore(s: string, quoted: bool): Option<Items>
    decreases |s|
  {
    if s == [] then None
    else if quoted then
      if s[0] == '"' then ReadMore(s[1..], false)
      else if 32 <= s[0] as int < 127 then Before(s[0] as int, ReadMore(s[1..], true))
      else None
    else if s[0] == '\n' then Some(Items([], s[1..]))
    else if |s| >= 2 && s[0] == ',' && s[1] == ' ' then ReadItem(s[2..])
    else None
  }

  lemma {:induction false} MoreTextReads(bs: seq<byte>, quoted: bool, rest: string)
    requires QUOTE !in bs
    ensures ReadMore(MoreText(bs, quoted) + ['\n'] + rest, quoted) == Some(Items(bs, rest))
    decreases |bs|
  {
    hide ReadMore, NextItem, FirstItem, IsPrintable;
    if bs == [] {
      EndReads(quoted, rest);
    } else {
      var b, q := bs[0], IsPrintable(bs[0]);
      MoreTextReads(bs[1..], q, rest);
      var tail := MoreText(bs[1..], q) + ['\n'] + rest;
      assert MoreText(bs, quoted) + ['\n'] + rest == NextItem(b, quoted) + tail;
      NextItemReads(b, quoted, tail);
      assert [b] + bs[1..] == bs;
    }
  }

  lemma EndReads(quoted: bool, rest: string)
    ensures ReadMore(MoreText([], quoted) + ['\n'] + rest, quoted) == Some(Items([], rest))
  {
    assert (['\n'] + rest)[1..] == rest;
    assert [] + ['\n'] + rest == ['\n'] + rest;
    if quoted {
      assert (['"'] + ['\n'] + rest)[1..] == ['\n'] + rest;
    }
  }

  lemma FirstItemReads(b: byte, tail: string)
    requires b != QUOTE
    ensures ReadItem(FirstItem(b) + tail) == Before(b, ReadMore(tail, IsPrintable(b)))
  {
    var s := FirstItem(b) + tail;
    HexByte(b);
    if IsPrintable(b) {
      assert s[1..] == [b as char] + tail;
      InQuotes(b, tail);
    } else {
      assert s[3..] == tail;
    }
  }

  // A comma before an item, and a closing quote.
  lemma Separated(item: string)
    ensures ReadMore([',', ' '] + item, false) == ReadItem(item)
  {
    assert ([',', ' '] + item)[2..] == item;
  }

  lemma Closed(tail: string)
    ensures ReadMore(['"'] + tail, true) == ReadMore(tail, false)
  {
    assert (['"'] + tail)[1..] == tail;
  }

  lemma InQuotes(b: byte, tail: string)
    requires b != QUOTE && IsPrintable(b)
    ensures ReadMore([b as char] + tail, true) == Before(b, ReadMore(tail, true))
  {
    assert ([b as char] + tail)[1..] == tail;
  }

  lemma NextItemReads(b: byte, quoted: bool, tail: string)
    requires b != QUOTE
    ensures ReadMore(NextItem(b, quoted) + tail, quoted) == Before(b, ReadMore(tail, IsPrintable(b)))
  {
    hide ReadMore, ReadItem, FirstItem, Before;
    if quoted && IsPrintable(b) {
      InQuotes(b, tail);
    } else {
      var item := FirstItem(b) + tail;
      FirstItemReads(b, tail);
      Separated(item);
      Closed([',', ' '] + item);
      if quoted {
        assert NextItem(b, quoted) + tail == ['"'] + ([',', ' '] + item);
      } else {
        assert NextItem(b, quoted) + tail == [',', ' '] + item;
      }
    }
  }

  lemma PlainTextReads(bs: seq<byte>, rest: string)
    requires bs != [] && QUOTE !in bs
    ensures ReadItem(TextItems(bs) + ['\n'] + rest) == Some(Items(bs, rest))
  {
    hide ReadMore, ReadItem, MoreText, FirstItem, IsPrintable;
    var q := IsPrintable(bs[0]);
    var tail := MoreText(bs[1..], q) + ['\n'] + rest;
    assert TextItems(bs) + ['\n'] + rest == FirstItem(bs[0]) + tail;
    FirstItemReads(bs[0], tail);
    MoreTextReads(bs[1..], q, rest);
    assert [bs[0]] + bs[1..] == bs;
  }

  // A list is read to the end of its line.
  lemma {:induction false} ItemOnLine(s: string)
    ensures ReadItem(s).Some? ==> ReadItem(s).value.rest == Past(s, '\n')
    decreases |s|
  {
    hide ReadMore, ReadHex2, Hex2;
    if s != [] && s[0] == '"' {
      ItemsOnLine(s[1..], true);
    } else if ReadItem(s).Some? {
      ItemsOnLine(s[3..], false);
      NotDigits(s[1], s[2]);
      Tails(s);
      assert Past(s[1..], '\n') == Past(s[2..], '\n') == Past(s[3..], '\n');
    }
  }

  lemma {:induction false} ItemsOnLine(s: string, quoted: bool)
    ensures ReadMore(s, quoted).Some? ==> ReadMore(s, quoted).value.rest == Past(s, '\n')
    decreases |s|
  {
    hide ReadItem;
    if ReadMore(s, quoted).Some? {
      if quoted {
        ItemsOnLine(s[1..], s[0] != '"');
      } else if s[0] != '\n' {
        ItemOnLine(s[2..]);
        Tails(s);
      }
    }
  }

  lemma Tails(s: string)
    ensures |s| >= 2 ==> s[1..][1..] == s[2..]
    ensures |s| >= 3 ==> s[2..][1..] == s[3..]
  {
  }

  lemma NotDigits(h: char, l: char)
    ensures ReadHex2(h, l).Some? ==> h != '\n' && l != '\n' && h != '$' && l != '$'
  {
  }

  lemma {:induction false} TextOnLine(bs: seq<byte>, quoted: bool)
    ensures '\n' !in MoreText(bs, quoted)
    decreases |bs|
  {
    if bs != [] {
      hide DigitValue;
      TextOnLine(bs[1..], IsPrintable(bs[0]));
    }
  }

  // ---- What a quotation mark does ----

  const DOLLAR: byte := 36

  function Dollars(s: string): nat { if s == [] then 0 else (if s[0] == '$' then 1 else 0) + Dollars(s[1..]) }

  lemma {:induction false} DollarsIn(a: string, b: string)
    ensures Dollars(a + b) == Dollars(a) + Dollars(b)
    decreases |a|
  {
    if a == [] {
      assert a + b == b;
    } else {
      DollarsIn(a[1..], b);
      assert (a + b)[1..] == a[1..] + b;
    }
  }

  // A byte that takes a dollar sign to write, and does so also when a quotation mark has to
  // be written in hexadecimal.
  function Dollared(b: byte, marks: bool): nat {
    if b == DOLLAR || !IsPrintable(b) || (marks && b == QUOTE) then 1 else 0
  }

  function AllDollared(bs: seq<byte>, marks: bool): nat {
    if bs == [] then 0 else Dollared(bs[0], marks) + AllDollared(bs[1..], marks)
  }

  lemma {:induction false} MarksCount(bs: seq<byte>)
    ensures AllDollared(bs, false) <= AllDollared(bs, true)
    ensures QUOTE in bs ==> AllDollared(bs, false) < AllDollared(bs, true)
  {
    if bs != [] {
      MarksCount(bs[1..]);
    }
  }

  lemma ItemDollars(b: byte, quoted: bool)
    ensures Dollars(FirstItem(b)) == Dollared(b, false) && Dollars(NextItem(b, quoted)) == Dollared(b, false)
  {
    hide DigitValue;
    var c := [b as char];
    assert Dollars(c) == (if b == DOLLAR then 1 else 0) by { assert c[1..] == []; }
    assert Dollars(Hex2(b)) == 0 by { assert Hex2(b)[1..] == [Digit(b % 16)] && Hex2(b)[1..][1..] == []; }
    DollarsIn(['"'], c);
    DollarsIn(['$'], Hex2(b));
    DollarsIn([',', ' '], FirstItem(b));
    DollarsIn(['"', ',', ' '], FirstItem(b));
    assert Dollars(['"', ',', ' ']) == 0 by { assert ['"', ',', ' '][1..] == [',', ' ']; }
  }

  // What is printed holds as many dollar signs as it has bytes that take one.
  lemma {:induction false} PrintedDollars(bs: seq<byte>, quoted: bool)
    ensures Dollars(MoreText(bs, quoted)) == AllDollared(bs, false)
    decreases |bs|
  {
    hide IsPrintable, NextItem, Dollared;
    if bs != [] {
      var q := IsPrintable(bs[0]);
      PrintedDollars(bs[1..], q);
      ItemDollars(bs[0], quoted);
      DollarsIn(NextItem(bs[0], quoted), MoreText(bs[1..], q));
    }
  }

  // Reading uses up a dollar sign for every byte that takes one, and for every quotation
  // mark: inside quotes a mark cannot be had.
  lemma {:induction false} ReadItemDollars(s: string)
    ensures var r := ReadItem(s);
      r.Some? ==> AllDollared(r.value.bytes, true) + Dollars(r.value.rest) <= Dollars(s)
    decreases |s|
  {
    hide ReadMore, ReadHex2, Dollared;
    if s != [] && s[0] == '"' {
      ReadDollars(s[1..], true);
    } else if ReadItem(s).Some? {
      ReadDollars(s[3..], false);
      NotDigits(s[1], s[2]);
      Tails(s);
      assert Dollars(s) == 1 + Dollars(s[1..]) && Dollars(s[1..]) == Dollars(s[2..]) == Dollars(s[3..]);
      OneMoreDollared(ReadHex2(s[1], s[2]).value, ReadMore(s[3..], false).value.bytes);
    }
  }

  lemma {:induction false} ReadDollars(s: string, quoted: bool)
    ensures var r := ReadMore(s, quoted);
      r.Some? ==> AllDollared(r.value.bytes, true) + Dollars(r.value.rest) <= Dollars(s)
    decreases |s|
  {
    hide ReadItem, Dollared;
    if ReadMore(s, quoted).Some? {
      if quoted {
        ReadDollars(s[1..], s[0] != '"');
        if s[0] != '"' {
          OneMoreDollared(s[0] as int, ReadMore(s[1..], true).value.bytes);
        }
      } else if s[0] != '\n' {
        ReadItemDollars(s[2..]);
        Tails(s);
      }
    }
  }

  lemma OneMoreDollared(b: byte, bs: seq<byte>)
    ensures AllDollared([b] + bs, true) == Dollared(b, true) + AllDollared(bs, true)
    ensures Dollared(b, true) <= 1
    ensures IsPrintable(b) && b != QUOTE && b != DOLLAR ==> Dollared(b, true) == 0
  {
    assert ([b] + bs)[1..] == bs;
  }

  // A text with a quotation mark does not read back as its bytes: there are not enough
  // dollar signs in it.
  lemma MarkLost(bs: seq<byte>, rest: string)
    requires bs != [] && QUOTE in bs
    ensures ReadItem(TextItems(bs) + ['\n'] + rest) != Some(Items(bs, rest))
  {
    hide ReadItem, ReadMore, MoreText, FirstItem, IsPrintable, Dollars, Dollared;
    var q := IsPrintable(bs[0]);
    var more := MoreText(bs[1..], q);
    ReadItemDollars(TextItems(bs) + ['\n'] + rest);
    MarksCount(bs);
    ItemDollars(bs[0], false);
    PrintedDollars(bs[1..], q);
    DollarsIn(FirstItem(bs[0]), more);
    DollarsIn(TextItems(bs), ['\n']);
    DollarsIn(TextItems(bs) + ['\n'], rest);
    NewlineDollars();
  }

  lemma NewlineDollars()
    ensures Dollars(['\n']) == 0
  {
  }

  // A printed run of text reads back if and only if no byte of it is a quotation mark;
  // otherwise it is refused or read as other bytes, on the same line.
  lemma TextReads(bs: seq<byte>, rest: string)
    requires bs != []
    ensures ReadItem(TextItems(bs) + ['\n'] + rest) == Some(Items(bs, rest)) <==> QUOTE !in bs
    ensures var r := ReadItem(TextItems(bs) + ['\n'] + rest);
      r.Some? ==> r.value.rest == rest && (QUOTE in bs ==> r.value.bytes != bs)
  {
    hide ReadItem, MoreText, FirstItem, IsPrintable, Past;
    if QUOTE in bs {
      MarkLost(bs, rest);
    } else {
      PlainTextReads(bs, rest);
    }
    FirstOnLine(bs[0]);
    TextOnLine(bs[1..], IsPrintable(bs[0]));
    CutAt(TextItems(bs), '\n', rest);
    ItemOnLine(TextItems(bs) + ['\n'] + rest);
  }

  // Two runs with quotation marks: this one reads back as two bytes, and a mark alone is
  // refused.
  lemma QuotationMarkLost()
    ensures ReadItem(TextItems([65, QUOTE, 44, 32, QUOTE, 66]) + ['\n']) == Some(Items([65, 66], []))
  {
    hide ReadItem, ReadMore;
    var tail := [',', ' '] + (FirstItem(66) + ['"', '\n']);
    LostText(tail);
    FirstItemReads(65, ['"'] + tail);
    Closed(tail);
    Separated(FirstItem(66) + ['"', '\n']);
    FirstItemReads(66, ['"', '\n']);
    EndReads(true, []);
    assert MoreText([], true) + ['\n'] + [] == ['"', '\n'];
    var bytes: seq<byte> := [65] + ([66] + []);
    assert bytes == [65, 66];
  }

  lemma QuotationMarkRefused()
    ensures ReadItem(TextItems([QUOTE]) + ['\n']) == None
  {
    assert [QUOTE][1..] == [];
    var s := ['"', '"', '"', '\n'];
    assert TextItems([QUOTE]) + ['\n'] == s;
    assert s[1..] == ['"', '"', '\n'] && s[1..][1..] == ['"', '\n'];
  }

  lemma LostText(tail: string)
    requires tail == [',', ' '] + (FirstItem(66) + ['"', '\n'])
    ensures TextItems([65, QUOTE, 44, 32, QUOTE, 66]) + ['\n'] == FirstItem(65) + (['"'] + tail)
  {
    assert MoreText([], true) == ['"'];
    hide MoreText;
    MoreStep(66, [], ['"']);
    MoreStep(QUOTE, [66], ['B', '"']);
    MoreStep(32, [QUOTE, 66], ['"', 'B', '"']);
    MoreStep(44, [32, QUOTE, 66], [' ', '"', 'B', '"']);
    MoreStep(QUOTE, [44, 32, QUOTE, 66], [',', ' ', '"', 'B', '"']);
    assert [65, QUOTE, 44, 32, QUOTE, 66][1..] == [QUOTE, 44, 32, QUOTE, 66];
  }

  // A printable byte inside quotes.
  lemma MoreStep(b: byte, bs: seq<byte>, text: string)
    requires IsPrintable(b) && MoreText(bs, true) == text
    ensures MoreText([b] + bs, true) == [b as char] + text
  {
    assert ([b] + bs)[1..] == bs;
  }

  lemma FirstOnLine(b: byte)
    ensures '\n' !in FirstItem(b)
  {
    hide DigitValue;
  }

  // ---- Data ----

  function MoreData(bs: seq<byte>): string {
    if bs == [] then [] else [',', ' ', '$'] + Hex2(bs[0]) + MoreData(bs[1..])
  }

  function DataItems(bs: seq<byte>): string
    requires bs != []
  {
    ['$'] + Hex2(bs[0]) + MoreData(bs[1..])
  }

  lemma HexItemReads(b: byte, tail: string)
    ensures ReadItem(['$'] + Hex2(b) + tail) == Before(b, ReadMore(tail, false))
  {
    HexByte(b);
    assert (['$'] + Hex2(b) + tail)[3..] == tail;
  }

  lemma {:induction false} MoreDataReads(bs: seq<byte>, rest: string)
    ensures ReadMore(MoreData(bs) + ['\n'] + rest, false) == Some(Items(bs, rest))
    decreases |bs|
  {
    hide ReadItem, ReadMore, Hex2;
    if bs == [] {
      EndReads(false, rest);
    } else {
      var tail := MoreData(bs[1..]) + ['\n'] + rest;
      MoreDataReads(bs[1..], rest);
      HexItemReads(bs[0], tail);
      Separated(['$'] + Hex2(bs[0]) + tail);
      assert MoreData(bs) + ['\n'] + rest == [',', ' '] + (['$'] + Hex2(bs[0]) + tail);
      assert [bs[0]] + bs[1..] == bs;
    }
  }

  lemma DataReads(bs: seq<byte>, rest: string)
    requires bs != []
    ensures ReadItem(DataItems(bs) + ['\n'] + rest) == Some(Items(bs, rest))
  {
    hide ReadMore, ReadItem, MoreData, Hex2;
    var tail := MoreData(bs[1..]) + ['\n'] + rest;
    MoreDataReads(bs[1..], rest);
    HexItemReads(bs[0], tail);
    assert DataItems(bs) + ['\n'] + rest == ['$'] + Hex2(bs[0]) + tail;
    assert [bs[0]] + bs[1..] == bs;
  }

  // ---- Lines ----

  // A line of source and the bytes it was printed for; the label is empty if there is none.
  // A label inside a run of data is printed without its directive.
  datatype Line =
    | Code(tag: string, bytes: seq<byte>)
    | Text(tag: string, bytes: seq<byte>)
    | Data(tag: string, bytes: seq<byte>)
    | Stray(tag: string, bytes: seq<byte>)

  const TEXT: string := ['!', 't', 'e', 'x', 't', ' ']
  const BYTE: string := ['!', 'b', 'y', 't', 'e', ' ']

  // The byte at a position, or zero past the end.
  function At(bs: seq<byte>, i: nat): byte { if i < |bs| then bs[i] else 0 }

  function CodeText(bs: seq<byte>, addr: nat, t: Symbols): string
    requires bs != []
  {
    var op := OpcodeAt(bs[0]);
    [op.name.a, op.name.b, op.name.c] + Operand(op.mode, At(bs, 1), At(bs, 2), addr + 2, t)
  }

  function Body(l: Line, addr: nat, t: Symbols): string
    requires l.bytes != []
  {
    match l
    case Code(_, bs) => CodeText(bs, addr, t) + ['\t'] + Comment(addr)
    case Text(_, bs) => TEXT + TextItems(bs)
    case Data(_, bs) => BYTE + DataItems(bs)
    case Stray(_, bs) => DataItems(bs)
  }

  function Printed(l: Line, addr: nat, t: Symbols): string
    requires l.bytes != []
  {
    l.tag + ['\t'] + Body(l, addr, t) + ['\n']
  }

  datatype LineRead = LineRead(line: Line, rest: string)

  // A mnemonic, its operand and a comment.
  function ReadCode(tag: string, s: string, addr: nat, d: Definitions): Option<LineRead> {
    if |s| < 3 then None
    else
      var n, comment := N(s[0], s[1], s[2]), Past(s[3..], '\t');
      var operand := ReadOperand(n, Until(s[3..], '\t'), addr + 2, d);
      if operand.None? || comment == [] || comment[0] != ';' then None
      else
        var code := CodeOf(Op(n, operand.value.mode));
        if code >= NONE then None
        else Some(LineRead(Code(tag, [code] + operand.value.bytes), Past(comment, '\n')))
  }

  function ReadBody(tag: string, s: string, addr: nat, d: Definitions): Option<LineRead> {
    if TEXT <= s then
      var items := ReadItem(s[6..]);
      if items.Some? then Some(LineRead(Text(tag, items.value.bytes), items.value.rest)) else None
    else if BYTE <= s then
      var items := ReadItem(s[6..]);
      if items.Some? then Some(LineRead(Data(tag, items.value.bytes), items.value.rest)) else None
    else ReadCode(tag, s, addr, d)
  }

  function ReadLine(s: string, addr: nat, d: Definitions): Option<LineRead> {
    ReadBody(Until(s, '\t'), Past(s, '\t'), addr, d)
  }

  predicate IsLabel(s: string) { '\t' !in s && '\n' !in s }

  // What is printed for any byte: instructions are complete.
  predicate Shaped(l: Line) {
    && l.bytes != [] && IsLabel(l.tag)
    && (l.Code? ==> |l.bytes| == 1 + OperandBytes(OpcodeAt(l.bytes[0]).mode))
  }

  // Lines that can be assembled again.
  predicate Readable(l: Line, addr: nat, t: Symbols) {
    && Shaped(l)
    && (l.Text? ==> QUOTE !in l.bytes)
    && (l.Code? ==> ReadableCode(l.bytes, addr, t))
    && !l.Stray?
  }

  // An instruction an assembler has, whose operand if a symbol is the only one of its name
  // and does not shorten it.
  predicate ReadableCode(bs: seq<byte>, addr: nat, t: Symbols)
    requires bs != []
  {
    var op, lo, hi := OpcodeAt(bs[0]), At(bs, 1), At(bs, 2);
    Assembles(op) && !Shared(op, lo, hi, addr + 2, t) && !Shortened(op, lo, hi, t)
  }

  // ---- Reading back a line ----

  // What an instruction reads back as: itself; one with a shorter operand; or nothing if an
  // assembler does not have it or the symbol in it is not the only one of its name.
  function CodeRead(tag: string, bs: seq<byte>, addr: nat, rest: string, t: Symbols): Option<LineRead>
    requires bs != []
  {
    var op, lo, hi := OpcodeAt(bs[0]), At(bs, 1), At(bs, 2);
    if !Assembles(op) || Shared(op, lo, hi, addr + 2, t) then None
    else if Shortened(op, lo, hi, t) then
      Some(LineRead(Code(tag, [OperandCode(op.name, ZeroPage(op.mode)), lo]), rest))
    else Some(LineRead(Code(tag, bs), rest))
  }

  // The opcode and its operand.
  lemma CodeReads(tag: string, bs: seq<byte>, addr: nat, comment: string, rest: string, t: Symbols)
    requires Shaped(Code(tag, bs)) && '\n' !in comment && comment != [] && comment[0] == ';'
    ensures ReadCode(tag, CodeText(bs, addr, t) + (['\t'] + (comment + ['\n'] + rest)), addr, DefinitionsOf(t))
         == CodeRead(tag, bs, addr, rest, t)
  {
    hide Until, Past, ReadOperand, CodeOf, Operand, IsLabel, OperandSeq, Assembles, OpcodeAt, Shortened, Shared, Reread,
      OperandCode, DefinitionsOf, AreSymbols;
    var op, lo, hi := OpcodeAt(bs[0]), At(bs, 1), At(bs, 2);
    var operand := Operand(op.mode, lo, hi, addr + 2, t);
    OperandHasNoTab(op.mode, lo, hi, addr + 2, t);
    CutAt(operand, '\t', comment + ['\n'] + rest);
    CutAt(comment, '\n', rest);
    CodeParts(op.name, operand, ['\t'] + (comment + ['\n'] + rest));
    assert operand + (['\t'] + (comment + ['\n'] + rest)) == operand + ['\t'] + (comment + ['\n'] + rest);
    assert (comment + ['\n'] + rest)[0] == ';';
    if op.mode == ILL {
      IllegalReads(bs[0], addr, t);
    } else {
      CodeFound(bs[0]);
      OperandReads(op, lo, hi, addr + 2, t);
      OperandBack(op, bs, t);
    }
  }

  // For example, lda $0070 with a symbol for $70 reads back as two bytes.
  lemma SymbolShortens(addr: nat, rest: string)
    ensures var t: Symbols := map[0x70 := ['z', 'p']];
      CodeRead([], [0xAD, 0x70, 0x00], addr, rest, t) == Some(LineRead(Code([], [0xA5, 0x70]), rest))
  {
    var t: Symbols := map[0x70 := ['z', 'p']];
    assert OpcodeAt(0xAD) == Op(N('l', 'd', 'a'), ABS) && OpcodeAt(0xA5) == Op(N('l', 'd', 'a'), ZP);
    TableCode(0xA5);
    assert 0x70 in t && Sole(t, 0x70);
  }

  // An opcode of the table that assembles encodes itself; the others have no encoding.
  lemma CodeFound(b: byte)
    requires OpcodeAt(b).mode != ILL
    ensures CodeOf(OpcodeAt(b)) == b || OpcodeAt(b).mode == IND || OpcodeAt(b).mode == ABSX
    ensures if Assembles(OpcodeAt(b)) then CodeOf(OpcodeAt(b)) == b else CodeOf(OpcodeAt(b)) >= NONE
  {
    hide CodeOf, OpcodeAt;
    TableCode(b);
    if CodeOf(OpcodeAt(b)) < NONE {
      CodeInTable(OpcodeAt(b));
    }
  }

  // An illegal opcode is printed as a word that is no mnemonic.
  lemma IllegalReads(b: byte, addr: nat, t: Symbols)
    requires OpcodeAt(b).mode == ILL
    ensures Operand(ILL, 0, 0, addr + 2, t) == [] && !Assembles(OpcodeAt(b))
    ensures var r := ReadOperand(OpcodeAt(b).name, [], addr + 2, DefinitionsOf(t));
      r.Some? && CodeOf(Op(OpcodeAt(b).name, r.value.mode)) >= NONE
  {
    assert OpcodeAt(b) == ILLEGAL by {
      hide CodeOf, ReadOperand;
    }
  }

  lemma CodeParts(n: Name, operand: string, tail: string)
    ensures var s := [n.a, n.b, n.c] + operand + tail;
      N(s[0], s[1], s[2]) == n && s[3..] == operand + tail
  {
  }

  // The bytes of what was read.
  lemma OperandBack(op: Opcode, bs: seq<byte>, t: Symbols)
    requires bs != [] && |bs| == 1 + OperandBytes(op.mode)
    ensures var lo, hi := At(bs, 1), At(bs, 2);
      var r := Reread(op, lo, hi, t);
      if Shortened(op, lo, hi, t) then
        var code := OperandCode(op.name, ZeroPage(op.mode));
        CodeOf(Op(op.name, r.mode)) == code < NONE && [code] + r.bytes == [code, lo] && Assembles(op)
      else r.mode == op.mode && [bs[0]] + r.bytes == bs
  {
    hide RowOf;
  }

  // No mnemonic looks like a directive.
  lemma NotDirective(b: byte)
    ensures OpcodeAt(b).name.a != '!'
  {
  }

  function Comment(addr: nat): (s: string)
    ensures '\n' !in s
  {
    [';', ' ', '0', 'x'] + Hex4(addr)
  }

  // The comment gives the address, in sixteen bits, as four digits that read back.
  lemma CommentMeans(addr: nat)
    ensures var s := Comment(addr);
      && |s| == 8 && s[..4] == "; 0x"
      && ReadHex2(s[4], s[5]).Some? && ReadHex2(s[6], s[7]).Some?
      && Word(ReadHex2(s[6], s[7]).value, ReadHex2(s[4], s[5]).value) == addr % 0x10000
  {
    hide Hex2, ReadHex2;
    HexByte(addr / 256 % 256);
    HexByte(addr % 256);
    assert Word(addr % 256, addr / 256 % 256) == addr % 0x10000 by {
      hide Comment;
    }
  }

  // Items and lines as they look.
  lemma TextShown()
    ensures TextItems([72, 105, 13]) == "\"Hi\", $0d" && TextItems([13, 72]) == "$0d, \"H\""
  {
    DigitsShown(0, 13);
    hide Hex2, Hex4;
    assert Hex2(13) == "0d";
    assert MoreText([13], true) == "\", $0d" && MoreText([72], false) == ", \"H\"";
    assert [72, 105, 13][1..] == [105, 13] && [105, 13][1..] == [13] && [13, 72][1..] == [72];
  }

  lemma DataShown()
    ensures DataItems([1, 0xFE, 65]) == "$01, $fe, $41"
  {
  }

  lemma CodeShown()
    ensures CodeText([0xB1, 0x70], 0x1900, map[]) == "lda ($70),y"
  {
    DigitsShown(7, 0);
    IndirectNotation(0x70, 0, 0x1902, map[]);
    assert OpcodeAt(0xB1) == Op(N('l', 'd', 'a'), INDY);
    hide Operand, Hex2, Hex4, OpcodeAt;
  }

  lemma LinesShown(bs: seq<byte>, addr: nat, t: Symbols)
    requires bs != []
    ensures Body(Text([], bs), addr, t) == "!text " + TextItems(bs)
    ensures Body(Data([], bs), addr, t) == "!byte " + DataItems(bs)
    ensures Body(Stray([], bs), addr, t) == DataItems(bs)
    ensures Body(Code([], bs), addr, t) == CodeText(bs, addr, t) + "\t" + Comment(addr)
  {
    hide TextItems, DataItems, CodeText, Comment;
    assert TEXT == "!text " && BYTE == "!byte ";
  }

  lemma Directives(items: string)
    ensures TEXT <= TEXT + items && (TEXT + items)[6..] == items
    ensures !(TEXT <= BYTE + items) && BYTE <= BYTE + items && (BYTE + items)[6..] == items
  {
    assert (BYTE + items)[1] == 'b';
  }

  // What reading a printed line gives: the line itself if it is readable, and otherwise
  // nothing or, for text and instructions, other bytes on the same line.
  ghost predicate Outcome(l: Line, addr: nat, rest: string, r: Option<LineRead>, t: Symbols) {
    if Readable(l, addr, t) then r == Some(LineRead(l, rest))
    else r.Some? ==> (l.Text? || l.Code?) && r.value.rest == rest && r.value.line.bytes != l.bytes
  }

  lemma TextBodyReads(tag: string, bs: seq<byte>, rest: string, addr: nat, t: Symbols)
    requires Shaped(Text(tag, bs))
    ensures Outcome(Text(tag, bs), addr, rest, ReadBody(tag, TEXT + TextItems(bs) + ['\n'] + rest, addr,
      DefinitionsOf(t)), t)
  {
    hide ReadItem, TextItems, ReadCode, IsLabel, DefinitionsOf, AreSymbols;
    var items := TextItems(bs) + ['\n'] + rest;
    TextReads(bs, rest);
    Directives(items);
    assert TEXT + TextItems(bs) + ['\n'] + rest == TEXT + items;
  }

  lemma DataBodyReads(tag: string, bs: seq<byte>, rest: string, addr: nat, d: Definitions)
    requires bs != []
    ensures ReadBody(tag, BYTE + DataItems(bs) + ['\n'] + rest, addr, d) == Some(LineRead(Data(tag, bs), rest))
  {
    hide ReadItem, DataItems, ReadCode;
    var items := DataItems(bs) + ['\n'] + rest;
    DataReads(bs, rest);
    Directives(items);
    assert BYTE + DataItems(bs) + ['\n'] + rest == BYTE + items;
  }

  // Without a directive the first byte is no mnemonic.
  lemma StrayRefused(tag: string, bs: seq<byte>, rest: string, addr: nat, d: Definitions)
    requires bs != []
    ensures ReadBody(tag, DataItems(bs) + ['\n'] + rest, addr, d) == None
  {
    hide ReadOperand, Until, Past, CodeOf, ReadItem, MoreData, Hex2;
    var s := DataItems(bs) + ['\n'] + rest;
    assert s[0] == '$' && TEXT[0] == BYTE[0] == '!';
    forall m: Mode
      ensures CodeOf(Op(N(s[0], s[1], s[2]), m)) >= NONE
    {
      NotMnemonic(N(s[0], s[1], s[2]), m);
    }
  }

  lemma NotMnemonic(n: Name, m: Mode)
    requires n.a == '$'
    ensures CodeOf(Op(n, m)) >= NONE
  {
  }

  lemma CodeBodyReads(tag: string, bs: seq<byte>, addr: nat, rest: string, t: Symbols)
    requires Shaped(Code(tag, bs))
    ensures ReadBody(tag, CodeText(bs, addr, t) + ['\t'] + Comment(addr) + ['\n'] + rest, addr, DefinitionsOf(t))
         == CodeRead(tag, bs, addr, rest, t)
  {
    hide ReadItem, ReadCode, CodeText, Comment, IsLabel, OpcodeAt, Assembles, CodeRead, DefinitionsOf, AreSymbols;
    var tail := CodeText(bs, addr, t) + ['\t'] + Comment(addr) + ['\n'] + rest;
    CommentStart(addr);
    CodeReads(tag, bs, addr, Comment(addr), rest, t);
    assert tail == CodeText(bs, addr, t) + (['\t'] + (Comment(addr) + ['\n'] + rest));
    CodeStart(bs, addr, t);
    assert tail[0] == CodeText(bs, addr, t)[0] && TEXT[0] == BYTE[0] == '!';
  }

  lemma CodeOutcome(tag: string, bs: seq<byte>, addr: nat, rest: string, t: Symbols)
    requires Shaped(Code(tag, bs))
    ensures Outcome(Code(tag, bs), addr, rest, CodeRead(tag, bs, addr, rest, t), t)
  {
    hide OpcodeAt, Assembles, OperandCode, IsLabel, Shared;
  }

  lemma CommentStart(addr: nat)
    ensures Comment(addr) != [] && Comment(addr)[0] == ';'
  {
  }

  lemma CodeStart(bs: seq<byte>, addr: nat, t: Symbols)
    requires bs != []
    ensures |CodeText(bs, addr, t)| >= 3 && CodeText(bs, addr, t)[0] != '!'
  {
    hide OpcodeAt, Operand;
    NotDirective(bs[0]);
  }

  lemma BodyReads(l: Line, addr: nat, rest: string, t: Symbols)
    requires Shaped(l)
    ensures Outcome(l, addr, rest, ReadBody(l.tag, Body(l, addr, t) + ['\n'] + rest, addr, DefinitionsOf(t)), t)
  {
    hide ReadBody, TextItems, DataItems, CodeText, Comment, Assembles, OpcodeAt, IsLabel, CodeRead, DefinitionsOf,
      ReadableCode, AreSymbols;
    match l {
      case Text(tag, bs) => TextBodyReads(tag, bs, rest, addr, t);
      case Data(tag, bs) => DataBodyReads(tag, bs, rest, addr, DefinitionsOf(t));
      case Stray(tag, bs) => StrayRefused(tag, bs, rest, addr, DefinitionsOf(t));
      case Code(tag, bs) =>
        CodeBodyReads(tag, bs, addr, rest, t);
        CodeOutcome(tag, bs, addr, rest, t);
    }
  }

  // Whatever follows it, a printed line reads back if and only if it is readable.
  lemma LineReads(l: Line, addr: nat, rest: string, t: Symbols)
    requires Shaped(l)
    ensures var r := ReadLine(Printed(l, addr, t) + rest, addr, DefinitionsOf(t));
      Outcome(l, addr, rest, r, t) && (r == Some(LineRead(l, rest)) <==> Readable(l, addr, t))
  {
    hide Until, Past, Body, ReadBody, DefinitionsOf, Shaped, ReadableCode, AreSymbols;
    NoTab(l);
    var tail := Body(l, addr, t) + ['\n'] + rest;
    assert Printed(l, addr, t) + rest == l.tag + ['\t'] + tail;
    CutAt(l.tag, '\t', tail);
    BodyReads(l, addr, rest, t);
  }

  lemma NoTab(l: Line)
    requires Shaped(l)
    ensures '\t' !in l.tag && l.bytes != []
  {
  }

  // ---- Whole listings ----

  function BytesOf(ls: seq<Line>): seq<byte> { if ls == [] then [] else ls[0].bytes + BytesOf(ls[1..]) }

  predicate AllShaped(ls: seq<Line>) { forall i :: 0 <= i < |ls| ==> Shaped(ls[i]) }

  predicate AllReadable(ls: seq<Line>, addr: nat, t: Symbols) {
    ls == [] || (Readable(ls[0], addr, t) && AllReadable(ls[1..], addr + |ls[0].bytes|, t))
  }

  function Listing(ls: seq<Line>, addr: nat, t: Symbols): string
    requires AllShaped(ls)
  {
    if ls == [] then [] else Printed(ls[0], addr, t) + Listing(ls[1..], addr + |ls[0].bytes|, t)
  }

  function ReadListing(s: string, addr: nat, d: Definitions): Option<seq<Line>>
    decreases |s|
  {
    if s == [] then Some([])
    else
      var l := ReadLine(s, addr, d);
      if l.None? || |l.value.rest| >= |s| then None
      else
        var ls := ReadListing(l.value.rest, addr + |l.value.line.bytes|, d);
        if ls.None? then None else Some([l.value.line] + ls.value)
  }

  // The round trip: a listing reads back as its lines, and so as every byte, if and only if
  // each line is readable.
  lemma {:induction false} ListingReads(ls: seq<Line>, addr: nat, t: Symbols)
    requires AllShaped(ls)
    ensures ReadListing(Listing(ls, addr, t), addr, DefinitionsOf(t)) == Some(ls) <==> AllReadable(ls, addr, t)
    decreases |ls|
  {
    hide ReadListing, AllReadable, Readable, Printed, ReadLine, Shaped, Outcome, DefinitionsOf, AreSymbols;
    if ls == [] {
      NothingRead(addr, t);
    } else {
      var next := addr + |ls[0].bytes|;
      var rest := Listing(ls[1..], next, t);
      LineReads(ls[0], addr, rest, t);
      ListingReads(ls[1..], next, t);
      SomethingPrinted(ls[0], addr, t);
      FirstReadable(ls, addr, t);
      FirstRead(ls, Printed(ls[0], addr, t) + rest, rest, addr, t);
    }
  }

  lemma NothingRead(addr: nat, t: Symbols)
    ensures ReadListing([], addr, DefinitionsOf(t)) == Some([]) && AllReadable([], addr, t)
  {
  }

  lemma FirstReadable(ls: seq<Line>, addr: nat, t: Symbols)
    requires ls != []
    ensures AllReadable(ls, addr, t) <==> Readable(ls[0], addr, t) && AllReadable(ls[1..], addr + |ls[0].bytes|, t)
  {
  }

  // The first line decides what becomes of it and leaves the others to be read.
  lemma FirstRead(ls: seq<Line>, s: string, rest: string, addr: nat, t: Symbols)
    requires ls != [] && |s| > |rest|
    requires Outcome(ls[0], addr, rest, ReadLine(s, addr, DefinitionsOf(t)), t)
    ensures ReadListing(s, addr, DefinitionsOf(t)) == Some(ls) <==>
      Readable(ls[0], addr, t) && ReadListing(rest, addr + |ls[0].bytes|, DefinitionsOf(t)) == Some(ls[1..])
  {
    hide Readable, ReadLine, DefinitionsOf, AreSymbols;
    var r := ReadLine(s, addr, DefinitionsOf(t));
    assert [ls[0]] + ls[1..] == ls;
    if Readable(ls[0], addr, t) {
      OnlyTail(ls, ReadListing(rest, addr + |ls[0].bytes|, DefinitionsOf(t)));
    } else if r.Some? {
      OtherFirst(ls, addr, r, rest, t);
    }
  }

  lemma OnlyTail(ls: seq<Line>, tail: Option<seq<Line>>)
    requires ls != []
    ensures tail.Some? ==> ([ls[0]] + tail.value == ls <==> tail.value == ls[1..])
  {
    if tail.Some? {
      assert ([ls[0]] + tail.value)[1..] == tail.value;
    }
  }

  // A first line read otherwise makes the whole differ.
  lemma OtherFirst(ls: seq<Line>, addr: nat, r: Option<LineRead>, rest: string, t: Symbols)
    requires ls != [] && Outcome(ls[0], addr, rest, r, t) && !Readable(ls[0], addr, t) && r.Some?
    ensures forall more: seq<Line> :: [r.value.line] + more != ls
  {
    hide Readable;
    forall more: seq<Line>
      ensures [r.value.line] + more != ls
    {
      assert ([r.value.line] + more)[0] == r.value.line;
    }
  }

  lemma SomethingPrinted(l: Line, addr: nat, t: Symbols)
    requires Shaped(l)
    ensures l.bytes != [] && |Printed(l, addr, t)| > 0
  {
  }

  lemma Joined(a: string, b: string, c: string)
    ensures a + (b + c) == a + b + c
  {
  }

  lemma {:induction false} BytesMore(ls: seq<Line>, more: seq<Line>)
    ensures BytesOf(ls + more) == BytesOf(ls) + BytesOf(more)
    decreases |ls|
  {
    if ls == [] {
      assert ls + more == more;
    } else {
      BytesMore(ls[1..], more);
      assert (ls + more)[1..] == ls[1..] + more;
    }
  }

  lemma ListedFirst(ls: seq<Line>, addr: nat, t: Symbols)
    requires AllShaped(ls)
    ensures if ls == [] then Listing(ls, addr, t) == [] && BytesOf(ls) == []
      else
        && ls[0].bytes != [] && |BytesOf(ls)| == |ls[0].bytes| + |BytesOf(ls[1..])|
        && Listing(ls, addr, t) == Printed(ls[0], addr, t) + Listing(ls[1..], addr + |ls[0].bytes|, t)
  {
    hide Printed, AreSymbols, IsLabel;
  }

  lemma {:induction false} ListingMore(ls: seq<Line>, more: seq<Line>, addr: nat, t: Symbols)
    requires AllShaped(ls) && AllShaped(more)
    ensures AllShaped(ls + more)
    ensures Listing(ls + more, addr, t) == Listing(ls, addr, t) + Listing(more, addr + |BytesOf(ls)|, t)
    decreases |ls|
  {
    hide Printed, Shaped, AreSymbols, Listing, BytesOf;
    assert AllShaped(ls + more);
    ListedFirst(ls, addr, t);
    if ls == [] {
      assert ls + more == more;
    } else {
      var next := addr + |ls[0].bytes|;
      ListedFirst(ls + more, addr, t);
      ListingMore(ls[1..], more, next, t);
      assert (ls + more)[1..] == ls[1..] + more;
      Joined(Printed(ls[0], addr, t), Listing(ls[1..], next, t), Listing(more, next + |BytesOf(ls[1..])|, t));
    }
  }

  lemma OneMoreLine(ls: seq<Line>, l: Line, addr: nat, t: Symbols)
    requires AllShaped(ls) && Shaped(l)
    ensures BytesOf(ls + [l]) == BytesOf(ls) + l.bytes
    ensures AllShaped(ls + [l])
    ensures Listing(ls + [l], addr, t) == Listing(ls, addr, t) + Printed(l, addr + |BytesOf(ls)|, t)
  {
    hide Printed, Shaped, AreSymbols;
    BytesMore(ls, [l]);
    ListingMore(ls, [l], addr, t);
    assert [l][1..] == [] && BytesOf([]) == [] && Listing([], addr + |BytesOf(ls)| + |l.bytes|, t) == [];
    assert BytesOf([l]) == l.bytes;
  }

  lemma {:induction false} ReadableMore(ls: seq<Line>, more: seq<Line>, addr: nat, t: Symbols)
    ensures AllReadable(ls + more, addr, t) <==>
      AllReadable(ls, addr, t) && AllReadable(more, addr + |BytesOf(ls)|, t)
    decreases |ls|
  {
    hide Readable, AreSymbols;
    if ls == [] {
      assert ls + more == more;
    } else {
      ReadableMore(ls[1..], more, addr + |ls[0].bytes|, t);
      assert (ls + more)[1..] == ls[1..] + more;
    }
  }
}
