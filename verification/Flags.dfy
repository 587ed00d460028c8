// The flag byte of an open file.

module Flags {
  import opened Bytes
  import opened Bits

  predicate Current(v: byte) { v >= 128 }            // the buffer holds PTR's sector
  predicate Dirty(v: byte) { v / 64 % 2 == 1 }       // and is still to be written
  predicate Longer(v: byte) { v / 32 % 2 == 1 }      // the file has grown
  predicate Warned(v: byte) { v / 16 % 2 == 1 }      // end of file has been reported

  // The file has changed.
  predicate Touched(v: byte) { v / 32 % 4 != 0 }

  function OrBit7(v: byte): (r: byte)        // ORA #$80
    ensures Current(r) && Dirty(r) == Dirty(v) && Warned(r) == Warned(v) && r % 4 == v % 4
  {
    if v >= 128 then v else v + 128
  }

  function AndNotBit7(v: byte): (r: byte)    // AND #$7F
    ensures !Current(r) && Dirty(r) == Dirty(v) && Warned(r) == Warned(v) && r % 4 == v % 4
  {
    if v >= 128 then v - 128 else v
  }

  function OrBit6(v: byte): (r: byte)        // ORA #$40
    ensures Dirty(r) && (Dirty(v) ==> r == v)
  {
    if Dirty(v) then v else v + 64
  }

  function AndNotBit6(v: byte): (r: byte)    // AND #$BF
    ensures !Dirty(r) && (!Dirty(v) ==> r == v)
  {
    if Dirty(v) then v - 64 else v
  }

  function OrBit5(v: byte): (r: byte)        // ORA #$20
    ensures Longer(r) && (Longer(v) ==> r == v)
  {
    if Longer(v) then v else v + 32
  }

  function OrBit4(v: byte): (r: byte)        // ORA #$10
    ensures Current(r) == Current(v) && Dirty(r) == Dirty(v) && Warned(r) && r % 4 == v % 4
  {
    if Warned(v) then v else v + 16
  }

  function AndNotBits74(v: byte): (r: byte)  // AND #$6F
    ensures !Current(r) && Dirty(r) == Dirty(v) && !Warned(r) && r % 4 == v % 4
  {
    var w := AndNotBit7(v);
    if Warned(w) then w - 16 else w
  }

  // ---- These are the bits the source tests and the masks it uses ----

  lemma Masks()
    ensures Ones(8) == 0xFF && Pow2(7) == 0x80 && Pow2(6) == 0x40 && Pow2(5) == 0x20 && Pow2(4) == 0x10
  {
    assert Pow2(4) == 16 && Ones(4) == 15;
  }

  lemma TestedBits(v: byte)
    ensures Current(v) <==> And(v, 0x80) != 0
    ensures Dirty(v) <==> And(v, 0x40) != 0
    ensures Longer(v) <==> And(v, 0x20) != 0
    ensures Warned(v) <==> And(v, 0x10) != 0
  {
    SingleBits(v);
  }

  lemma SingleBits(v: byte)
    ensures And(v, 0x80) == if Current(v) then 0x80 else 0
    ensures And(v, 0x40) == if Dirty(v) then 0x40 else 0
    ensures And(v, 0x20) == if Longer(v) then 0x20 else 0
    ensures And(v, 0x10) == if Warned(v) then 0x10 else 0
  {
    hide And, Pow2, Current, Dirty, Longer, Warned;
    Masks();
    AndBit(v, 7);
    AndBit(v, 6);
    AndBit(v, 5);
    AndBit(v, 4);
    Bit7(v);
    Bit6(v);
    Bit5(v);
    Bit4(v);
  }

  lemma Bit7(v: byte)
    ensures Pow2(8) == 256 && v % 256 - v % 128 == if Current(v) then 0x80 else 0
  {
    Masks();
    assert Pow2(8) == 2 * Pow2(7);
    hide Pow2;
  }

  lemma Bit6(v: byte)
    ensures v % 128 - v % 64 == if Dirty(v) then 0x40 else 0
  {
    var q := v / 64;
    assert v == 64 * q + v % 64 && q == 2 * (q / 2) + q % 2;
  }

  lemma Bit5(v: byte)
    ensures v % 64 - v % 32 == if Longer(v) then 0x20 else 0
  {
    var q := v / 32;
    assert v == 32 * q + v % 32 && q == 2 * (q / 2) + q % 2;
  }

  lemma Bit4(v: byte)
    ensures v % 32 - v % 16 == if Warned(v) then 0x10 else 0
  {
    var q := v / 16;
    assert v == 16 * q + v % 16 && q == 2 * (q / 2) + q % 2;
  }

  lemma SetBits(v: byte)
    ensures OrBit7(v) == Or(v, 0x80) && OrBit6(v) == Or(v, 0x40)
    ensures OrBit5(v) == Or(v, 0x20) && OrBit4(v) == Or(v, 0x10)
  {
    hide And, Or, Pow2;
    Masks();
    SingleBits(v);
    OrBit(v, 7);
    OrBit(v, 6);
    OrBit(v, 5);
    OrBit(v, 4);
  }

  lemma ClearedBits(v: byte)
    ensures AndNotBit7(v) == And(v, 0x7F) && AndNotBit6(v) == And(v, 0xBF)
    ensures AndNotBits74(v) == And(v, 0x6F)
  {
    hide And, Pow2, Ones, Dirty, Longer, Warned;
    Masks();
    SingleBits(v);
    SingleBits(AndNotBit7(v));
    SingleBits(0x7F);
    BitsOf7F();
    AndExcept(0x7F, 4, 8);
    AndAnd(v, 0x7F, 0xEF);
    AndExcept(v, 7, 8);
    AndExcept(v, 6, 8);
    AndExcept(AndNotBit7(v), 4, 8);
  }

  lemma BitsOf7F()
    ensures Warned(0x7F)
  {
  }

  // AND #$60.
  lemma TouchedBits(v: byte)
    ensures Touched(v) <==> Longer(v) || Dirty(v)
  {
  }
}
