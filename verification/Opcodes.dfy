// The opcode table of the disassembler, checked against the 6502's encoding scheme.

module Opcodes {
  import opened Bytes

  datatype Mode =
    | ILL | IMP | ACC | IMM | ABS | ZP | IND | ABSX | ABSY | INDX | INDY | ZPX | ZPY | REL

  datatype Name = N(a: char, b: char, c: char)

  datatype Opcode = Op(name: Name, mode: Mode)

  // ---- The table, sixteen opcodes a row ----

  const ILLEGAL := Op(N('i', 'l', 'l'), ILL)

  function OpcodeAt(b: byte): Opcode { Table(b / 16, b % 16) }

  function Table(row: nat, x: nat): Opcode {
    match row
    case 0 => Row0(x)
    case 1 => Row1(x)
    case 2 => Row2(x)
    case 3 => Row3(x)
    case 4 => Row4(x)
    case 5 => Row5(x)
    case 6 => Row6(x)
    case 7 => Row7(x)
    case 8 => Row8(x)
    case 9 => Row9(x)
    case 10 => RowA(x)
    case 11 => RowB(x)
    case 12 => RowC(x)
    case 13 => RowD(x)
    case 14 => RowE(x)
    case _ => RowF(x)
  }

  function Row0(x: nat): Opcode {
    match x
    case 0 => Op(N('b', 'r', 'k'), IMP)
    case 1 => Op(N('o', 'r', 'a'), INDX)
    case 5 => Op(N('o', 'r', 'a'), ZP)
    case 6 => Op(N('a', 's', 'l'), ZP)
    case 8 => Op(N('p', 'h', 'p'), IMP)
    case 9 => Op(N('o', 'r', 'a'), IMM)
    case 10 => Op(N('a', 's', 'l'), ACC)
    case 13 => Op(N('o', 'r', 'a'), ABS)
    case 14 => Op(N('a', 's', 'l'), ABS)
    case _ => ILLEGAL
  }

  function Row1(x: nat): Opcode {
    match x
    case 0 => Op(N('b', 'p', 'l'), REL)
    case 1 => Op(N('o', 'r', 'a'), INDY)
    case 2 => Op(N('o', 'r', 'a'), IND)
    case 5 => Op(N('o', 'r', 'a'), ZPX)
    case 6 => Op(N('a', 's', 'l'), ZPX)
    case 8 => Op(N('c', 'l', 'c'), IMP)
    case 9 => Op(N('o', 'r', 'a'), ABSY)
    case 10 => Op(N('i', 'n', 'c'), ACC)
    case 13 => Op(N('o', 'r', 'a'), ABSX)
    case 14 => Op(N('a', 's', 'l'), ABSX)
    case _ => ILLEGAL
  }

  function Row2(x: nat): Opcode {
    match x
    case 0 => Op(N('j', 's', 'r'), ABS)
    case 1 => Op(N('a', 'n', 'd'), INDX)
    case 4 => Op(N('b', 'i', 't'), ZP)
    case 5 => Op(N('a', 'n', 'd'), ZP)
    case 6 => Op(N('r', 'o', 'l'), ZP)
    case 8 => Op(N('p', 'l', 'p'), IMP)
    case 9 => Op(N('a', 'n', 'd'), IMM)
    case 10 => Op(N('r', 'o', 'l'), ACC)
    case 12 => Op(N('b', 'i', 't'), ABS)
    case 13 => Op(N('a', 'n', 'd'), ABS)
    case 14 => Op(N('r', 'o', 'l'), ABS)
    case _ => ILLEGAL
  }

  function Row3(x: nat): Opcode {
    match x
    case 0 => Op(N('b', 'm', 'i'), REL)
    case 1 => Op(N('a', 'n', 'd'), INDY)
    case 2 => Op(N('a', 'n', 'd'), IND)
    case 4 => Op(N('b', 'i', 't'), ZPX)
    case 5 => Op(N('a', 'n', 'd'), ZPX)
    case 6 => Op(N('r', 'o', 'l'), ZPX)
    case 8 => Op(N('s', 'e', 'c'), IMP)
    case 9 => Op(N('a', 'n', 'd'), ABSY)
    case 10 => Op(N('d', 'e', 'c'), ACC)
    case 12 => Op(N('b', 'i', 't'), ABSX)
    case 13 => Op(N('a', 'n', 'd'), ABSX)
    case 14 => Op(N('r', 'o', 'l'), ABSX)
    case _ => ILLEGAL
  }

  function Row4(x: nat): Opcode {
    match x
    case 0 => Op(N('r', 't', 'i'), IMP)
    case 1 => Op(N('e', 'o', 'r'), INDX)
    case 5 => Op(N('e', 'o', 'r'), ZP)
    case 6 => Op(N('l', 's', 'r'), ZP)
    case 8 => Op(N('p', 'h', 'a'), IMP)
    case 9 => Op(N('e', 'o', 'r'), IMM)
    case 10 => Op(N('l', 's', 'r'), ACC)
    case 12 => Op(N('j', 'm', 'p'), ABS)
    case 13 => Op(N('e', 'o', 'r'), ABS)
    case 14 => Op(N('l', 's', 'r'), ABS)
    case _ => ILLEGAL
  }

  function Row5(x: nat): Opcode {
    match x
    case 0 => Op(N('b', 'v', 'c'), REL)
    case 1 => Op(N('e', 'o', 'r'), INDY)
    case 2 => Op(N('e', 'o', 'r'), IND)
    case 5 => Op(N('e', 'o', 'r'), ZPX)
    case 6 => Op(N('l', 's', 'r'), ZPX)
    case 8 => Op(N('c', 'l', 'i'), IMP)
    case 9 => Op(N('e', 'o', 'r'), ABSY)
    case 13 => Op(N('e', 'o', 'r'), ABSX)
    case 14 => Op(N('l', 's', 'r'), ABSX)
    case _ => ILLEGAL
  }

  function Row6(x: nat): Opcode {
    match x
    case 0 => Op(N('r', 't', 's'), IMP)
    case 1 => Op(N('a', 'd', 'c'), INDX)
    case 5 => Op(N('a', 'd', 'c'), ZP)
    case 6 => Op(N('r', 'o', 'r'), ZP)
    case 8 => Op(N('p', 'l', 'a'), IMP)
    case 9 => Op(N('a', 'd', 'c'), IMM)
    case 10 => Op(N('r', 'o', 'r'), ACC)
    case 12 => Op(N('j', 'm', 'p'), IND)
    case 13 => Op(N('a', 'd', 'c'), ABS)
    case 14 => Op(N('r', 'o', 'r'), ABS)
    case _ => ILLEGAL
  }

  function Row7(x: nat): Opcode {
    match x
    case 0 => Op(N('b', 'v', 's'), REL)
    case 1 => Op(N('a', 'd', 'c'), INDY)
    case 2 => Op(N('a', 'd', 'c'), IND)
    case 5 => Op(N('a', 'd', 'c'), ZPX)
    case 6 => Op(N('r', 'o', 'r'), ZPX)
    case 8 => Op(N('s', 'e', 'i'), IMP)
    case 9 => Op(N('a', 'd', 'c'), ABSY)
    case 12 => Op(N('j', 'm', 'p'), ABSX)
    case 13 => Op(N('a', 'd', 'c'), ABSX)
    case 14 => Op(N('r', 'o', 'r'), ABSX)
    case _ => ILLEGAL
  }

  function Row8(x: nat): Opcode {
    match x
    case 1 => Op(N('s', 't', 'a'), INDX)
    case 4 => Op(N('s', 't', 'y'), ZP)
    case 5 => Op(N('s', 't', 'a'), ZP)
    case 6 => Op(N('s', 't', 'x'), ZP)
    case 8 => Op(N('d', 'e', 'y'), IMP)
    case 9 => Op(N('b', 'i', 't'), IMM)
    case 10 => Op(N('t', 'x', 'a'), IMP)
    case 12 => Op(N('s', 't', 'y'), ABS)
    case 13 => Op(N('s', 't', 'a'), ABS)
    case 14 => Op(N('s', 't', 'x'), ABS)
    case _ => ILLEGAL
  }

  function Row9(x: nat): Opcode {
    match x
    case 0 => Op(N('b', 'c', 'c'), REL)
    case 1 => Op(N('s', 't', 'a'), INDY)
    case 2 => Op(N('s', 't', 'a'), IND)
    case 4 => Op(N('s', 't', 'y'), ZPX)
    case 5 => Op(N('s', 't', 'a'), ZPX)
    case 6 => Op(N('s', 't', 'x'), ZPY)
    case 8 => Op(N('t', 'y', 'a'), IMP)
    case 9 => Op(N('s', 't', 'a'), ABSY)
    case 10 => Op(N('t', 'x', 's'), IMP)
    case 13 => Op(N('s', 't', 'a'), ABSX)
    case _ => ILLEGAL
  }

  function RowA(x: nat): Opcode {
    match x
    case 0 => Op(N('l', 'd', 'y'), IMM)
    case 1 => Op(N('l', 'd', 'a'), INDX)
    case 2 => Op(N('l', 'd', 'x'), IMM)
    case 4 => Op(N('l', 'd', 'y'), ZP)
    case 5 => Op(N('l', 'd', 'a'), ZP)
    case 6 => Op(N('l', 'd', 'x'), ZP)
    case 8 => Op(N('t', 'a', 'y'), IMP)
    case 9 => Op(N('l', 'd', 'a'), IMM)
    case 10 => Op(N('t', 'a', 'x'), IMP)
    case 12 => Op(N('l', 'd', 'y'), ABS)
    case 13 => Op(N('l', 'd', 'a'), ABS)
    case 14 => Op(N('l', 'd', 'x'), ABS)
    case _ => ILLEGAL
  }

  function RowB(x: nat): Opcode {
    match x
    case 0 => Op(N('b', 'c', 's'), REL)
    case 1 => Op(N('l', 'd', 'a'), INDY)
    case 2 => Op(N('l', 'd', 'a'), IND)
    case 4 => Op(N('l', 'd', 'y'), ZPX)
    case 5 => Op(N('l', 'd', 'a'), ZPX)
    case 6 => Op(N('l', 'd', 'x'), ZPY)
    case 8 => Op(N('c', 'l', 'v'), IMP)
    case 9 => Op(N('l', 'd', 'a'), ABSY)
    case 10 => Op(N('t', 's', 'x'), IMP)
    case 12 => Op(N('l', 'd', 'y'), ABSX)
    case 13 => Op(N('l', 'd', 'a'), ABSX)
    case 14 => Op(N('l', 'd', 'x'), ABSY)
    case _ => ILLEGAL
  }

  function RowC(x: nat): Opcode {
    match x
    case 0 => Op(N('c', 'p', 'y'), IMM)
    case 1 => Op(N('c', 'm', 'p'), INDX)
    case 4 => Op(N('c', 'p', 'y'), ZP)
    case 5 => Op(N('c', 'm', 'p'), ZP)
    case 6 => Op(N('d', 'e', 'c'), ZP)
    case 8 => Op(N('i', 'n', 'y'), IMP)
    case 9 => Op(N('c', 'm', 'p'), IMM)
    case 10 => Op(N('d', 'e', 'x'), IMP)
    case 12 => Op(N('c', 'p', 'y'), ABS)
    case 13 => Op(N('c', 'm', 'p'), ABS)
    case 14 => Op(N('d', 'e', 'c'), ABS)
    case _ => ILLEGAL
  }

  function RowD(x: nat): Opcode {
    match x
    case 0 => Op(N('b', 'n', 'e'), REL)
    case 1 => Op(N('c', 'm', 'p'), INDY)
    case 2 => Op(N('c', 'm', 'p'), IND)
    case 5 => Op(N('c', 'm', 'p'), ZPX)
    case 6 => Op(N('d', 'e', 'c'), ZPX)
    case 8 => Op(N('c', 'l', 'd'), IMP)
    case 9 => Op(N('c', 'm', 'p'), ABSY)
    case 13 => Op(N('c', 'm', 'p'), ABSX)
    case 14 => Op(N('d', 'e', 'c'), ABSX)
    case _ => ILLEGAL
  }

  function RowE(x: nat): Opcode {
    match x
    case 0 => Op(N('c', 'p', 'x'), IMM)
    case 1 => Op(N('s', 'b', 'c'), INDX)
    case 4 => Op(N('c', 'p', 'x'), ZP)
    case 5 => Op(N('s', 'b', 'c'), ZP)
    case 6 => Op(N('i', 'n', 'c'), ZP)
    case 8 => Op(N('i', 'n', 'x'), IMP)
    case 9 => Op(N('s', 'b', 'c'), IMM)
    case 10 => Op(N('n', 'o', 'p'), IMP)
    case 12 => Op(N('c', 'p', 'x'), ABS)
    case 13 => Op(N('s', 'b', 'c'), ABS)
    case 14 => Op(N('i', 'n', 'c'), ABS)
    case _ => ILLEGAL
  }

  function RowF(x: nat): Opcode {
    match x
    case 0 => Op(N('b', 'e', 'q'), REL)
    case 1 => Op(N('s', 'b', 'c'), INDY)
    case 2 => Op(N('s', 'b', 'c'), IND)
    case 5 => Op(N('s', 'b', 'c'), ZPX)
    case 6 => Op(N('i', 'n', 'c'), ZPX)
    case 8 => Op(N('s', 'e', 'd'), IMP)
    case 9 => Op(N('s', 'b', 'c'), ABSY)
    case 13 => Op(N('s', 'b', 'c'), ABSX)
    case 14 => Op(N('i', 'n', 'c'), ABSX)
    case _ => ILLEGAL
  }

  // ---- The encoding scheme the table should follow ----

  // Most opcodes are a row of operations by a column of addressing modes. Families
  // differ in the columns they use.
  datatype Family = Arithmetic | Store | Shift | LoadX | StoreX | LoadY | StoreY | Compare | Test

  datatype Row = Row(family: Family, base: nat) | Elsewhere

  const NONE := 0x100

  function ImpliedCode(n: Name): nat {
    match n.a
    case 'b' => (
      if n.b == 'r' && n.c == 'k' then 0x00
      else NONE)
    case 'c' => (
      if n.b == 'l' && n.c == 'c' then 0x18
      else if n.b == 'l' && n.c == 'i' then 0x58
      else if n.b == 'l' && n.c == 'v' then 0xB8
      else if n.b == 'l' && n.c == 'd' then 0xD8
      else NONE)
    case 'd' => (
      if n.b == 'e' && n.c == 'y' then 0x88
      else if n.b == 'e' && n.c == 'x' then 0xCA
      else NONE)
    case 'i' => (
      if n.b == 'n' && n.c == 'y' then 0xC8
      else if n.b == 'n' && n.c == 'x' then 0xE8
      else NONE)
    case 'n' => (
      if n.b == 'o' && n.c == 'p' then 0xEA
      else NONE)
    case 'p' => (
      if n.b == 'h' && n.c == 'p' then 0x08
      else if n.b == 'l' && n.c == 'p' then 0x28
      else if n.b == 'h' && n.c == 'a' then 0x48
      else if n.b == 'l' && n.c == 'a' then 0x68
      else NONE)
    case 'r' => (
      if n.b == 't' && n.c == 'i' then 0x40
      else if n.b == 't' && n.c == 's' then 0x60
      else NONE)
    case 's' => (
      if n.b == 'e' && n.c == 'c' then 0x38
      else if n.b == 'e' && n.c == 'i' then 0x78
      else if n.b == 'e' && n.c == 'd' then 0xF8
      else NONE)
    case 't' => (
      if n.b == 'x' && n.c == 'a' then 0x8A
      else if n.b == 'y' && n.c == 'a' then 0x98
      else if n.b == 'x' && n.c == 's' then 0x9A
      else if n.b == 'a' && n.c == 'y' then 0xA8
      else if n.b == 'a' && n.c == 'x' then 0xAA
      else if n.b == 's' && n.c == 'x' then 0xBA
      else NONE)
    case _ => NONE
  }

  function BranchCode(n: Name): nat {
    match n.a
    case 'b' => (
      if n.b == 'p' && n.c == 'l' then 0x10
      else if n.b == 'm' && n.c == 'i' then 0x30
      else if n.b == 'v' && n.c == 'c' then 0x50
      else if n.b == 'v' && n.c == 's' then 0x70
      else if n.b == 'c' && n.c == 'c' then 0x90
      else if n.b == 'c' && n.c == 's' then 0xB0
      else if n.b == 'n' && n.c == 'e' then 0xD0
      else if n.b == 'e' && n.c == 'q' then 0xF0
      else NONE)
    case _ => NONE
  }

  function AccumulatorCode(n: Name): nat {
    match n.a
    case 'a' => (
      if n.b == 's' && n.c == 'l' then 0x0A
      else NONE)
    case 'd' => (
      if n.b == 'e' && n.c == 'c' then 0x3A
      else NONE)
    case 'i' => (
      if n.b == 'n' && n.c == 'c' then 0x1A
      else NONE)
    case 'l' => (
      if n.b == 's' && n.c == 'r' then 0x4A
      else NONE)
    case 'r' => (
      if n.b == 'o' && n.c == 'l' then 0x2A
      else if n.b == 'o' && n.c == 'r' then 0x6A
      else NONE)
    case _ => NONE
  }

  function RowOf(n: Name): Row {
    match n.a
    case 'a' => (
      if n.b == 'n' && n.c == 'd' then Row(Arithmetic, 0x20)
      else if n.b == 'd' && n.c == 'c' then Row(Arithmetic, 0x60)
      else if n.b == 's' && n.c == 'l' then Row(Shift, 0x00)
      else Elsewhere)
    case 'b' => (
      if n.b == 'i' && n.c == 't' then Row(Test, 0x20)
      else Elsewhere)
    case 'c' => (
      if n.b == 'm' && n.c == 'p' then Row(Arithmetic, 0xC0)
      else if n.b == 'p' && n.c == 'y' then Row(Compare, 0xC0)
      else if n.b == 'p' && n.c == 'x' then Row(Compare, 0xE0)
      else Elsewhere)
    case 'd' => (
      if n.b == 'e' && n.c == 'c' then Row(Shift, 0xC0)
      else Elsewhere)
    case 'e' => (
      if n.b == 'o' && n.c == 'r' then Row(Arithmetic, 0x40)
      else Elsewhere)
    case 'i' => (
      if n.b == 'n' && n.c == 'c' then Row(Shift, 0xE0)
      else Elsewhere)
    case 'l' => (
      if n.b == 'd' && n.c == 'a' then Row(Arithmetic, 0xA0)
      else if n.b == 's' && n.c == 'r' then Row(Shift, 0x40)
      else if n.b == 'd' && n.c == 'x' then Row(LoadX, 0xA0)
      else if n.b == 'd' && n.c == 'y' then Row(LoadY, 0xA0)
      else Elsewhere)
    case 'o' => (
      if n.b == 'r' && n.c == 'a' then Row(Arithmetic, 0x00)
      else Elsewhere)
    case 'r' => (
      if n.b == 'o' && n.c == 'l' then Row(Shift, 0x20)
      else if n.b == 'o' && n.c == 'r' then Row(Shift, 0x60)
      else Elsewhere)
    case 's' => (
      if n.b == 't' && n.c == 'a' then Row(Store, 0x80)
      else if n.b == 'b' && n.c == 'c' then Row(Arithmetic, 0xE0)
      else if n.b == 't' && n.c == 'x' then Row(StoreX, 0x80)
      else if n.b == 't' && n.c == 'y' then Row(StoreY, 0x80)
      else Elsewhere)
    case _ => Elsewhere
  }

  function Column(f: Family, m: Mode): nat
    decreases f.Store? || f.LoadY? || f.StoreY?
  {
    match f
    case Arithmetic => (
      match m
      case INDX => 0x01 case ZP => 0x05 case IMM => 0x09 case ABS => 0x0D
      case INDY => 0x11 case ZPX => 0x15 case ABSY => 0x19 case ABSX => 0x1D
      case _ => NONE)
    case Store => if m == IMM then NONE else Column(Arithmetic, m)
    case Shift => (
      match m
      case ZP => 0x06 case ABS => 0x0E case ZPX => 0x16 case ABSX => 0x1E
      case _ => NONE)
    case LoadX => (
      match m
      case IMM => 0x02 case ZP => 0x06 case ABS => 0x0E case ZPY => 0x16 case ABSY => 0x1E
      case _ => NONE)
    case StoreX => (match m case ZP => 0x06 case ABS => 0x0E case ZPY => 0x16 case _ => NONE)
    case LoadY => if m == IMM then 0x00 else Column(Test, m)
    case StoreY => if m == ABSX then NONE else Column(Test, m)
    case Compare => (match m case IMM => 0x00 case ZP => 0x04 case ABS => 0x0C case _ => NONE)
    case Test => (match m case ZP => 0x04 case ABS => 0x0C case ZPX => 0x14 case ABSX => 0x1C case _ => NONE)
  }

  function GridCode(r: Row, m: Mode): nat {
    if r.Elsewhere? || Column(r.family, m) == NONE then NONE else r.base + Column(r.family, m)
  }

  function JumpCode(m: Mode): nat {
    match m case ABS => 0x4C case IND => 0x6C case _ => NONE
  }

  // The jumps, and BIT with an immediate operand, stand outside the columns.
  function OperandCode(n: Name, m: Mode): nat {
    if n == N('j', 's', 'r') then (if m == ABS then 0x20 else NONE)
    else if n == N('j', 'm', 'p') then JumpCode(m)
    else if n == N('b', 'i', 't') && m == IMM then 0x89
    else GridCode(RowOf(n), m)
  }

  function CodeOf(op: Opcode): nat {
    match op.mode
    case IMP => ImpliedCode(op.name)
    case REL => BranchCode(op.name)
    case ACC => AccumulatorCode(op.name)
    case _ => OperandCode(op.name, op.mode)
  }

  const JMP := N('j', 'm', 'p')

  // An assembler takes what is printed for an opcode. It does not for an illegal one, nor
  // for an address in parentheses except after jmp (opcodes $12, $32 and so on to $F2,
  // whose operand the processor takes to be one byte), nor for an indexed address after
  // jmp (opcode $7C, whose operand should be in parentheses).
  predicate Assembles(op: Opcode) {
    op.mode != ILL && (op.mode == IND ==> op.name == JMP) && (op.mode == ABSX ==> op.name != JMP)
  }

  // No operation has two addressing modes that are written alike.
  lemma WrittenOneWay(n: Name)
    ensures AccumulatorCode(n) == NONE || ImpliedCode(n) == NONE
    ensures (OperandCode(n, ABS) == NONE && OperandCode(n, ZP) == NONE) || BranchCode(n) == NONE
  {
  }

  // Every entry of the table is the one the scheme gives its position to.
  lemma Row0Code(x: nat)
    requires x < 16
    ensures Assembles(Row0(x)) ==> CodeOf(Row0(x)) == 16 * 0 + x
  {
  }

  lemma Row1Code(x: nat)
    requires x < 16
    ensures Assembles(Row1(x)) ==> CodeOf(Row1(x)) == 16 * 1 + x
  {
  }

  lemma Row2Code(x: nat)
    requires x < 16
    ensures Assembles(Row2(x)) ==> CodeOf(Row2(x)) == 16 * 2 + x
  {
  }

  lemma Row3Code(x: nat)
    requires x < 16
    ensures Assembles(Row3(x)) ==> CodeOf(Row3(x)) == 16 * 3 + x
  {
  }

  lemma Row4Code(x: nat)
    requires x < 16
    ensures Assembles(Row4(x)) ==> CodeOf(Row4(x)) == 16 * 4 + x
  {
  }

  lemma Row5Code(x: nat)
    requires x < 16
    ensures Assembles(Row5(x)) ==> CodeOf(Row5(x)) == 16 * 5 + x
  {
  }

  lemma Row6Code(x: nat)
    requires x < 16
    ensures Assembles(Row6(x)) ==> CodeOf(Row6(x)) == 16 * 6 + x
  {
  }

  lemma Row7Code(x: nat)
    requires x < 16
    ensures Assembles(Row7(x)) ==> CodeOf(Row7(x)) == 16 * 7 + x
  {
  }

  lemma Row8Code(x: nat)
    requires x < 16
    ensures Assembles(Row8(x)) ==> CodeOf(Row8(x)) == 16 * 8 + x
  {
  }

  lemma Row9Code(x: nat)
    requires x < 16
    ensures Assembles(Row9(x)) ==> CodeOf(Row9(x)) == 16 * 9 + x
  {
  }

  lemma RowACode(x: nat)
    requires x < 16
    ensures Assembles(RowA(x)) ==> CodeOf(RowA(x)) == 16 * 10 + x
  {
  }

  lemma RowBCode(x: nat)
    requires x < 16
    ensures Assembles(RowB(x)) ==> CodeOf(RowB(x)) == 16 * 11 + x
  {
  }

  lemma RowCCode(x: nat)
    requires x < 16
    ensures Assembles(RowC(x)) ==> CodeOf(RowC(x)) == 16 * 12 + x
  {
  }

  lemma RowDCode(x: nat)
    requires x < 16
    ensures Assembles(RowD(x)) ==> CodeOf(RowD(x)) == 16 * 13 + x
  {
  }

  lemma RowECode(x: nat)
    requires x < 16
    ensures Assembles(RowE(x)) ==> CodeOf(RowE(x)) == 16 * 14 + x
  {
  }

  lemma RowFCode(x: nat)
    requires x < 16
    ensures Assembles(RowF(x)) ==> CodeOf(RowF(x)) == 16 * 15 + x
  {
  }

  lemma RowCode(row: nat, x: nat)
    requires row < 16 && x < 16
    ensures Assembles(Table(row, x)) ==> CodeOf(Table(row, x)) == 16 * row + x
  {
    hide CodeOf, Row0, Row1, Row2, Row3, Row4, Row5, Row6, Row7, Row8, Row9, RowA, RowB, RowC, RowD, RowE, RowF;
    match row
    case 0 => Row0Code(x);
    case 1 => Row1Code(x);
    case 2 => Row2Code(x);
    case 3 => Row3Code(x);
    case 4 => Row4Code(x);
    case 5 => Row5Code(x);
    case 6 => Row6Code(x);
    case 7 => Row7Code(x);
    case 8 => Row8Code(x);
    case 9 => Row9Code(x);
    case 10 => RowACode(x);
    case 11 => RowBCode(x);
    case 12 => RowCCode(x);
    case 13 => RowDCode(x);
    case 14 => RowECode(x);
    case 15 => RowFCode(x);
  }

  // An opcode of the table that assembles is the one its mnemonic and mode encode.
  lemma TableCode(b: byte)
    ensures Assembles(OpcodeAt(b)) ==> CodeOf(OpcodeAt(b)) == b
  {
    hide CodeOf, Table, Assembles;
    RowCode(b / 16, b % 16);
  }

  // The nine opcodes in the table whose printed form no assembler has.
  lemma NineMore(b: byte)
    ensures OpcodeAt(b).mode != ILL && !Assembles(OpcodeAt(b)) <==> b % 32 == 0x12 || b == 0x7C
  {
    hide Table, Assembles;
    Misprinted(b / 16, b % 16);
  }

  lemma Misprinted(row: nat, x: nat)
    requires row < 16 && x < 16
    ensures Table(row, x).mode != ILL && !Assembles(Table(row, x)) <==>
      (row % 2 == 1 && x == 2) || (row == 7 && x == 12)
  {
    if row < 8 {
    } else {
    }
  }

  // A mnemonic and mode that encode anything are those of the opcode they encode.
  lemma CodeInTable(op: Opcode)
    requires CodeOf(op) < NONE
    ensures OpcodeAt(CodeOf(op)) == op && Assembles(op)
  {
    match op.mode
    case IMP => ImpliedInTable(op.name);
    case REL => BranchInTable(op.name);
    case ACC => AccumulatorInTable(op.name);
    case _ => OperandInTable(op.name, op.mode);
  }

  lemma ImpliedInTable(n: Name)
    requires ImpliedCode(n) < NONE
    ensures OpcodeAt(ImpliedCode(n)) == Op(n, IMP)
  {
  }

  lemma BranchInTable(n: Name)
    requires BranchCode(n) < NONE
    ensures OpcodeAt(BranchCode(n)) == Op(n, REL)
  {
  }

  lemma AccumulatorInTable(n: Name)
    requires AccumulatorCode(n) < NONE
    ensures OpcodeAt(AccumulatorCode(n)) == Op(n, ACC)
  {
  }

  lemma OperandInTable(n: Name, m: Mode)
    requires OperandCode(n, m) < NONE && m != IMP && m != REL && m != ACC
    ensures OpcodeAt(OperandCode(n, m)) == Op(n, m) && Assembles(Op(n, m))
  {
    if n == N('j', 's', 'r') || n == JMP || (n == N('b', 'i', 't') && m == IMM) {
    } else {
      GridInTable(n, m);
    }
  }

  lemma GridInTable(n: Name, m: Mode)
    requires GridCode(RowOf(n), m) < NONE && !(n == N('b', 'i', 't') && m == IMM)
    ensures OpcodeAt(GridCode(RowOf(n), m)) == Op(n, m) && Assembles(Op(n, m))
  {
    hide RowOf, Column, OpcodeAt, Assembles;
    if RowOf(n).family.Arithmetic? || RowOf(n).family.Store? {
      ArithmeticInTable(n, m);
    } else {
      OthersInTable(n, m);
    }
  }

  lemma ArithmeticInTable(n: Name, m: Mode)
    requires GridCode(RowOf(n), m) < NONE
    requires RowOf(n).family.Arithmetic? || RowOf(n).family.Store?
    ensures OpcodeAt(GridCode(RowOf(n), m)) == Op(n, m) && Assembles(Op(n, m))
  {
  }

  lemma OthersInTable(n: Name, m: Mode)
    requires GridCode(RowOf(n), m) < NONE && !(n == N('b', 'i', 't') && m == IMM)
    requires !RowOf(n).family.Arithmetic? && !RowOf(n).family.Store?
    ensures OpcodeAt(GridCode(RowOf(n), m)) == Op(n, m) && Assembles(Op(n, m))
  {
  }
}
