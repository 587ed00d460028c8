// Operands as the disassembler writes them, with symbols in place of values, and a reader
// that knows the symbols.

module Operands {
  import opened Bytes
  import opened Opcodes

  datatype Option<T> = None | Some(value: T)

  // ---- Hexadecimal ----

  function Digit(n: nat): (c: char)
    requires n < 16
    ensures DigitValue(c) == n && c != '\t' && c != '\n'
  {
    if n < 10 then ('0' as int + n) as char else ('a' as int + n - 10) as char
  }

  // The value of a digit; 16 for anything else.
  function DigitValue(c: char): (n: nat)
    ensures n <= 16
  {
    if '0' <= c <= '9' then c as int - '0' as int
    else if 'a' <= c <= 'f' then c as int - 'a' as int + 10
    else 16
  }

  function Hex2(b: byte): (s: string)
    ensures |s| == 2
  {
    [Digit(b / 16), Digit(b % 16)]
  }

  function ReadHex2(h: char, l: char): Option<byte> {
    if DigitValue(h) < 16 && DigitValue(l) < 16 then Some(16 * DigitValue(h) + DigitValue(l)) else None
  }

  lemma HexByte(b: byte)
    ensures ReadHex2(Hex2(b)[0], Hex2(b)[1]) == Some(b)
  {
  }

  function Hex4(w: nat): string { Hex2(w / 256 % 256) + Hex2(w % 256) }

  // ---- Symbols ----

  // At most one name for each value, and none that looks like something else. Several values
  // may have one name, such as the + and - of nearby labels.
  type Symbols = t: map<nat, string> | AreSymbols(t)

  predicate AreSymbols(t: map<nat, string>) {
    forall a :: a in t ==> a < 0x10000 && IsName(t[a])
  }

  predicate IsName(s: string) {
    && s != [] && s[0] != '$' && s[0] != '#' && s[0] != '('
    && '\t' !in s && '\n' !in s && ',' !in s && ')' !in s
  }

  type Definitions = map<string, nat>

  // No other value has the same name.
  predicate Sole(t: Symbols, a: nat) { a in t && forall b :: b in t && t[b] == t[a] ==> b == a }

  // What each name stands for, if that is one value.
  function DefinitionsOf(t: Symbols): (d: Definitions)
    ensures forall a :: a in t ==> (t[a] in d <==> Sole(t, a))
    ensures forall a :: Sole(t, a) ==> d[t[a]] == a
    ensures forall s :: s in d ==> IsName(s) && d[s] < 0x10000
  {
    map a | a in t && Sole(t, a) :: t[a] := a
  }

  // ---- Operands as printed ----

  // How many bytes follow the opcode.
  function OperandBytes(m: Mode): nat {
    match m
    case ILL => 0 case IMP => 0 case ACC => 0
    case ABS => 2 case IND => 2 case ABSX => 2 case ABSY => 2
    case _ => 1
  }

  // Where a branch goes: a signed offset from the next instruction, in sixteen bits.
  function Target(next: nat, offset: byte): (t: nat)
    ensures t < 0x10000
  {
    (if offset < 128 then next + offset else next + offset - 256) % 0x10000
  }

  // What an operand stands for: a value, an address or a branch target.
  function ValueOf(m: Mode, lo: byte, hi: byte, next: nat): (v: nat)
    ensures v < 0x10000
    ensures m != REL && OperandBytes(m) < 2 ==> v < 256
  {
    if m == REL then Target(next, lo) else if OperandBytes(m) == 2 then Word(lo, hi) else lo
  }

  // A symbol in place of a value that has one.
  function Shown(t: Symbols, v: nat, digits: string): string { if v in t then t[v] else ['$'] + digits }

  function Digits(m: Mode, v: nat): string { if m == REL || OperandBytes(m) == 2 then Hex4(v) else Hex2(v % 256) }

  // What is printed before and after it.
  function Opening(m: Mode): string {
    match m
    case IMM => [' ', '#'] case IND => [' ', '('] case INDX => [' ', '('] case INDY => [' ', '(']
    case _ => [' ']
  }

  function Closing(m: Mode): string {
    match m
    case IND => [')'] case INDX => [',', 'x', ')'] case INDY => [')', ',', 'y']
    case ABSX => [',', 'x'] case ZPX => [',', 'x'] case ABSY => [',', 'y'] case ZPY => [',', 'y']
    case _ => []
  }

  function Operand(m: Mode, lo: byte, hi: byte, next: nat, t: Symbols): string {
    if OperandBytes(m) == 0 then []
    else
      var v := ValueOf(m, lo, hi, next);
      Opening(m) + Shown(t, v, Digits(m, v)) + Closing(m)
  }

  // The notation of each mode that has an operand: a symbol or digits, in its brackets and
  // with its index register.
  lemma WordNotation(lo: byte, hi: byte, next: nat, t: Symbols)
    ensures var v := lo + 256 * hi;
      var shown := if v in t then t[v] else "$" + Hex4(v);
      && Operand(ABS, lo, hi, next, t) == " " + shown
      && Operand(IND, lo, hi, next, t) == " (" + shown + ")"
      && Operand(ABSX, lo, hi, next, t) == " " + shown + ",x"
      && Operand(ABSY, lo, hi, next, t) == " " + shown + ",y"
  {
    hide Hex4, AreSymbols;
  }

  lemma ByteNotation(lo: byte, hi: byte, next: nat, t: Symbols)
    ensures var shown := if lo in t then t[lo] else "$" + Hex2(lo);
      && Operand(IMM, lo, hi, next, t) == " #" + shown
      && Operand(ZP, lo, hi, next, t) == " " + shown
      && Operand(ZPX, lo, hi, next, t) == " " + shown + ",x"
      && Operand(ZPY, lo, hi, next, t) == " " + shown + ",y"
  {
    hide Hex2, AreSymbols;
  }

  lemma IndirectNotation(lo: byte, hi: byte, next: nat, t: Symbols)
    ensures var shown := if lo in t then t[lo] else "$" + Hex2(lo);
      && Operand(INDX, lo, hi, next, t) == " (" + shown + ",x)"
      && Operand(INDY, lo, hi, next, t) == " (" + shown + "),y"
  {
    hide Hex2, AreSymbols;
  }

  lemma BranchNotation(lo: byte, hi: byte, next: nat, t: Symbols)
    requires 128 <= next < 0xFF80
    ensures var v := if lo < 128 then next + lo else next + lo - 256;
      Operand(REL, lo, hi, next, t) == " " + if v in t then t[v] else "$" + Hex4(v)
  {
    hide Hex4, AreSymbols;
  }

  // Digits are in lower case, the upper one first.
  lemma DigitShown(n: nat)
    requires n < 16
    ensures Digit(n) == "0123456789abcdef"[n]
  {
  }

  lemma DigitsShown(hi: nat, lo: nat)
    requires hi < 16 && lo < 16
    ensures Hex2(16 * hi + lo) == ["0123456789abcdef"[hi], "0123456789abcdef"[lo]]
    ensures Hex4(0x1900 + 16 * hi + lo) == "19" + Hex2(16 * hi + lo)
  {
    DigitShown(hi);
    DigitShown(lo);
    DigitShown(1);
    DigitShown(9);
    hide Digit;
    assert (16 * hi + lo) / 16 == hi && (16 * hi + lo) % 16 == lo;
    assert (0x1900 + 16 * hi + lo) / 256 == 0x19;
  }

  // The bytes of an operand.
  function OperandSeq(m: Mode, lo: byte, hi: byte): (s: seq<byte>)
    ensures |s| == OperandBytes(m)
  {
    if OperandBytes(m) == 0 then [] else if OperandBytes(m) == 1 then [lo] else [lo, hi]
  }

  // ---- Reading them ----

  // A value, and whether it takes two bytes to write.
  datatype Amount = Amount(value: nat, wide: bool)

  function ReadAmount(s: string, d: Definitions): (r: Option<Amount>)
    ensures r.Some? ==> r.value.value < 0x10000 && (!r.value.wide ==> r.value.value < 256)
  {
    if |s| == 3 && s[0] == '$' then
      var b := ReadHex2(s[1], s[2]);
      if b.Some? then Some(Amount(b.value, false)) else None
    else if |s| == 5 && s[0] == '$' then
      var h, l := ReadHex2(s[1], s[2]), ReadHex2(s[3], s[4]);
      if h.Some? && l.Some? then Some(Amount(Word(l.value, h.value), true)) else None
    else if s in d && d[s] < 0x10000 then Some(Amount(d[s], d[s] >= 256))
    else None
  }

  // An assembled operand: its mode and the bytes it stands for.
  datatype Assembled = Assembled(mode: Mode, bytes: seq<byte>)

  function Low(m: Mode, v: nat): Assembled { Assembled(m, [v % 256]) }

  function Both(m: Mode, v: nat): Assembled { Assembled(m, [v % 256, v / 256 % 256]) }

  // A value of one byte is an address in page zero, if the mnemonic has that mode.
  function Direct(n: Name, a: Amount, zero: Mode, abs: Mode): Assembled {
    if !a.wide && OperandCode(n, zero) < NONE then Low(zero, a.value) else Both(abs, a.value)
  }

  // The offset that reaches a target, if it fits in a signed byte.
  function Branch(target: nat, next: nat): Option<Assembled> {
    var d := (target - next) % 0x10000;
    if d < 128 || d >= 0xFF80 then Some(Assembled(REL, [d % 256])) else None
  }

  function ReadPlain(n: Name, a: Amount, tail: string, next: nat): Option<Assembled> {
    if tail == [] then (if BranchCode(n) < NONE then Branch(a.value, next) else Some(Direct(n, a, ZP, ABS)))
    else if tail == [',', 'x'] then Some(Direct(n, a, ZPX, ABSX))
    else if tail == [',', 'y'] then Some(Direct(n, a, ZPY, ABSY))
    else None
  }

  function ReadBracket(a: Amount, tail: string): Option<Assembled> {
    if tail == [')'] then Some(Both(IND, a.value))
    else if tail == [',', 'x', ')'] && !a.wide then Some(Low(INDX, a.value))
    else if tail == [')', ',', 'y'] && !a.wide then Some(Low(INDY, a.value))
    else None
  }

  // The text up to a comma or a closing bracket, and the rest.
  function Core(s: string): string { if s == [] || s[0] == ',' || s[0] == ')' then [] else [s[0]] + Core(s[1..]) }

  function Tail(s: string): string { if s == [] || s[0] == ',' || s[0] == ')' then s else Tail(s[1..]) }

  function ReadOperand(n: Name, s: string, next: nat, d: Definitions): Option<Assembled> {
    if s == [] then Some(Assembled(if ImpliedCode(n) != NONE then IMP else ACC, []))
    else if |s| == 1 || s[0] != ' ' then None
    else if s[1] == '#' then
      var a := ReadAmount(s[2..], d);
      if a.Some? && !a.value.wide then Some(Low(IMM, a.value.value)) else None
    else if s[1] == '(' then
      var a := ReadAmount(Core(s[2..]), d);
      if a.Some? then ReadBracket(a.value, Tail(s[2..])) else None
    else
      var a := ReadAmount(Core(s[1..]), d);
      if a.Some? then ReadPlain(n, a.value, Tail(s[1..]), next) else None
  }

  // ---- What is printed reads back ----

  lemma BranchBack(next: nat, offset: byte)
    ensures Branch(Target(next, offset), next) == Some(Assembled(REL, [offset]))
  {
  }

  lemma {:induction false} CoreAndTail(a: string, b: string)
    requires ',' !in a && ')' !in a && (b == [] || b[0] == ',' || b[0] == ')')
    ensures Core(a + b) == a && Tail(a + b) == b
  {
    if a == [] {
      assert a + b == b;
    } else {
      CoreAndTail(a[1..], b);
      assert (a + b)[1..] == a[1..] + b;
    }
  }

  // What is shown begins and goes on like nothing else in an operand.
  lemma ShownClean(t: Symbols, m: Mode, v: nat)
    ensures var s := Shown(t, v, Digits(m, v));
      && s != [] && s[0] != '#' && s[0] != '('
      && ',' !in s && ')' !in s && '\t' !in s
  {
    if v !in t {
      HexClean(v / 256 % 256);
      HexClean(v % 256);
      hide Hex2;
    }
  }

  lemma HexClean(b: byte)
    ensures ',' !in Hex2(b) && ')' !in Hex2(b) && '\t' !in Hex2(b)
  {
  }

  function AmountOf(t: Symbols, m: Mode, v: nat): Amount {
    Amount(v, if v in t then v >= 256 else m == REL || OperandBytes(m) == 2)
  }

  lemma ByteReads(b: byte, d: Definitions)
    ensures ReadAmount(['$'] + Hex2(b), d) == Some(Amount(b, false))
  {
    HexByte(b);
    hide Hex2, ReadHex2;
  }

  lemma WordReads(w: nat, d: Definitions)
    requires w < 0x10000
    ensures ReadAmount(['$'] + Hex4(w), d) == Some(Amount(w, true))
  {
    hide ReadAmount, Hex2;
    BytesRead(w % 256, w / 256, d);
  }

  lemma BytesRead(l: byte, h: byte, d: Definitions)
    ensures ReadAmount(['$'] + (Hex2(h) + Hex2(l)), d) == Some(Amount(Word(l, h), true))
  {
    HexByte(h);
    HexByte(l);
    hide Hex2, ReadHex2, Word;
    var s := ['$'] + (Hex2(h) + Hex2(l));
    assert s[1] == Hex2(h)[0] && s[2] == Hex2(h)[1] && s[3] == Hex2(l)[0] && s[4] == Hex2(l)[1];
  }

  // A symbol below 256 looks no different where a whole address is meant, and a name of
  // several values stands for none.
  lemma ShownReads(t: Symbols, m: Mode, v: nat)
    requires v < 0x10000 && (m != REL && OperandBytes(m) < 2 ==> v < 256)
    ensures ReadAmount(Shown(t, v, Digits(m, v)), DefinitionsOf(t))
      == if v in t && !Sole(t, v) then None else Some(AmountOf(t, m, v))
  {
    hide DefinitionsOf, ReadHex2, Hex2, Hex4;
    if v !in t {
      hide ReadAmount;
      ByteReads(v % 256, DefinitionsOf(t));
      WordReads(v, DefinitionsOf(t));
    } else {
      hide Digits;
      assert IsName(t[v]);
    }
  }

  // The mode in page zero that is written like an absolute one.
  function ZeroPage(m: Mode): Mode { match m case ABS => ZP case ABSX => ZPX case ABSY => ZPY case _ => ILL }

  // An address below 256 printed as a symbol, with a mnemonic that has a mode for page zero.
  predicate Shortened(op: Opcode, lo: byte, hi: byte, t: Symbols) {
    op.mode in {ABS, ABSX, ABSY} && hi == 0 && lo in t && OperandCode(op.name, ZeroPage(op.mode)) < NONE
  }

  // The value of the operand has a name that others have too.
  predicate Shared(op: Opcode, lo: byte, hi: byte, next: nat, t: Symbols) {
    var v := ValueOf(op.mode, lo, hi, next);
    OperandBytes(op.mode) > 0 && v in t && !Sole(t, v)
  }

  function Reread(op: Opcode, lo: byte, hi: byte, t: Symbols): Assembled {
    if Shortened(op, lo, hi, t) then Low(ZeroPage(op.mode), lo) else Assembled(op.mode, OperandSeq(op.mode, lo, hi))
  }

  lemma OperandHasNoTab(m: Mode, lo: byte, hi: byte, next: nat, t: Symbols)
    ensures '\t' !in Operand(m, lo, hi, next, t)
  {
    hide Shown, Digits, ValueOf;
    if OperandBytes(m) > 0 {
      ShownClean(t, m, ValueOf(m, lo, hi, next));
    }
  }

  // Mnemonic and operand syntax determine the mode and the operand bytes, except that a
  // symbol below 256 is taken to be in page zero where it can be, and a name of several values
  // is refused. This is so also in the two modes that are printed for opcodes an assembler
  // does not have.
  lemma OperandReads(op: Opcode, lo: byte, hi: byte, next: nat, t: Symbols)
    requires op.mode != ILL
    requires CodeOf(op) < NONE || op.mode == IND || op.mode == ABSX
    ensures ReadOperand(op.name, Operand(op.mode, lo, hi, next, t), next, DefinitionsOf(t))
      == if Shared(op, lo, hi, next, t) then None else Some(Reread(op, lo, hi, t))
  {
    hide ReadAmount, Shown, Digits, CodeOf, OperandCode, BranchCode, ImpliedCode, AccumulatorCode, Reread;
    var m := op.mode;
    if OperandBytes(m) == 0 {
      NoOperandReads(op, lo, hi, next, t);
    } else {
      var v := ValueOf(m, lo, hi, next);
      var shown := Shown(t, v, Digits(m, v));
      ShownClean(t, m, v);
      ShownReads(t, m, v);
      Parts(m, shown);
      var a := AmountOf(t, m, v);
      if m in {IMM, IND, INDX, INDY} {
        BracketReads(op, a, lo, hi, t);
      } else {
        PlainReads(op, a, lo, hi, next, t);
      }
    }
  }

  // Cutting an operand where the reader does.
  lemma Parts(m: Mode, shown: string)
    requires OperandBytes(m) > 0 && shown != [] && shown[0] != '#' && shown[0] != '('
    requires ',' !in shown && ')' !in shown
    ensures var s := Opening(m) + shown + Closing(m);
      && |s| > 1 && s[0] == ' '
      && (m == IMM ==> s[1] == '#' && s[2..] == shown)
      && (m in {IND, INDX, INDY} ==> s[1] == '(' && Core(s[2..]) == shown && Tail(s[2..]) == Closing(m))
      && (m !in {IMM, IND, INDX, INDY} ==>
           s[1] != '#' && s[1] != '(' && Core(s[1..]) == shown && Tail(s[1..]) == Closing(m))
  {
    var s := Opening(m) + shown + Closing(m);
    CoreAndTail(shown, Closing(m));
    if m in {IND, INDX, INDY} {
      assert s[2..] == shown + Closing(m);
    } else if m == IMM {
      assert s[2..] == shown;
    } else {
      assert s[1..] == shown + Closing(m);
    }
  }

  lemma BracketReads(op: Opcode, a: Amount, lo: byte, hi: byte, t: Symbols)
    requires op.mode in {IMM, IND, INDX, INDY}
    requires a.value == if op.mode == IND then Word(lo, hi) else lo
    requires a.wide ==> op.mode == IND
    ensures op.mode == IMM ==> Low(IMM, a.value) == Reread(op, lo, hi, t)
    ensures op.mode != IMM ==> ReadBracket(a, Closing(op.mode)) == Some(Reread(op, lo, hi, t))
  {
    WordBytes(lo, hi);
    hide Word, OperandCode;
  }

  lemma PlainReads(op: Opcode, a: Amount, lo: byte, hi: byte, next: nat, t: Symbols)
    requires op.mode in {ZP, ZPX, ZPY, ABS, ABSX, ABSY, REL} && (CodeOf(op) < NONE || op.mode == ABSX)
    requires a.value == ValueOf(op.mode, lo, hi, next)
    requires a.wide == if a.value in t then a.value >= 256 else op.mode == REL || OperandBytes(op.mode) == 2
    ensures ReadPlain(op.name, a, Closing(op.mode), next) == Some(Reread(op, lo, hi, t))
  {
    WrittenOneWay(op.name);
    WordBytes(lo, hi);
    hide OperandCode, BranchCode, Target, ImpliedCode, AccumulatorCode;
    if op.mode == REL {
      hide Branch;
      BranchBack(next, lo);
    } else if OperandBytes(op.mode) == 2 {
      AddressReads(op, a, lo, hi, t);
    }
  }

  // A whole address, as its bytes or shortened.
  lemma AddressReads(op: Opcode, a: Amount, lo: byte, hi: byte, t: Symbols)
    requires op.mode in {ABS, ABSX, ABSY} && a.value == Word(lo, hi)
    requires a.wide == (a.value in t ==> a.value >= 256)
    ensures Direct(op.name, a, ZeroPage(op.mode), op.mode) == Reread(op, lo, hi, t)
  {
    hide OperandCode;
    WordBytes(lo, hi);
    assert hi == 0 <==> a.value < 256;
    assert Both(op.mode, a.value).bytes == [lo, hi];
  }

  lemma NoOperandReads(op: Opcode, lo: byte, hi: byte, next: nat, t: Symbols)
    requires op.mode == IMP || op.mode == ACC
    requires CodeOf(op) < NONE
    ensures ReadOperand(op.name, Operand(op.mode, lo, hi, next, t), next, DefinitionsOf(t))
      == Some(Reread(op, lo, hi, t))
  {
    WrittenOneWay(op.name);
    hide ImpliedCode, AccumulatorCode, OperandCode;
  }
}
