// Eight-bit quantities shared by the 6502, AVR and host code.

module Bytes {

  type byte = x: int | 0 <= x < 256

  // The 6502 increment and decrement instructions: they wrap.
  function Inc(b: byte): byte { if b == 255 then 0 else b + 1 }

  function Dec(b: byte): byte { if b == 0 then 255 else b - 1 }

  // A sixteen-bit word from its low and high bytes.
  function Word(lo: byte, hi: byte): nat { lo + 256 * hi }

  lemma WordBytes(lo: byte, hi: byte)
    ensures Word(lo, hi) % 256 == lo && Word(lo, hi) / 256 == hi
  {
  }

  // A twenty-four-bit number from its three bytes.
  function Long(lo: byte, mid: byte, hi: byte): nat { lo + 256 * mid + 65536 * hi }

  // The carry flag as it enters ADC and SBC.
  type bit = x: int | 0 <= x <= 1

  // ADC: sum and carry out.
  function Adc(a: byte, b: byte, c: bit): (byte, bit) {
    if a + b + c >= 256 then (a + b + c - 256, 1) else (a + b + c, 0)
  }

  // SBC: difference and carry out (carry clear means borrow).
  function Sbc(a: byte, b: byte, c: bit): (byte, bit) {
    if a - b - (1 - c) < 0 then (a - b - (1 - c) + 256, 0) else (a - b - (1 - c), 1)
  }

  // CMP: the carry is set exactly when no borrow is needed.
  function Cmp(a: byte, b: byte): bit { if a >= b then 1 else 0 }

  // ASL and LSR: result and the bit shifted out; ROL and ROR also shift the carry in.
  function Rol(a: byte, c: bit): (byte, bit) { (2 * (a % 128) + c, a / 128) }

  function Ror(a: byte, c: bit): (byte, bit) { (a / 2 + 128 * c, a % 2) }

  function Asl(a: byte): (byte, bit) { Rol(a, 0) }

  function Lsr(a: byte): (byte, bit) { Ror(a, 0) }

  // Bitwise AND and EOR, one bit at a time.
  function And(a: nat, b: nat): nat {
    if a == 0 then 0 else (a % 2) * (b % 2) + 2 * And(a / 2, b / 2)
  }

  function Eor(a: nat, b: nat): nat
    decreases a + b
  {
    if a == 0 && b == 0 then 0
    else (if a % 2 == b % 2 then 0 else 1) + 2 * Eor(a / 2, b / 2)
  }
}
