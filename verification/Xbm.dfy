// From an X bitmap of 320 by 256 pixels to the BBC's MODE 4 screen layout.

module Xbm {

  const IMAGE_BYTES := 10240   // 256 rows of 40 bytes

  // ---- One byte: mirrored and complemented ----

  const MASKS: seq<bv8> := [1, 2, 4, 8, 16, 32, 64, 128]

  predicate Bit(v: bv8, i: nat)
    requires i < 8
  {
    v & MASKS[i] != 0
  }

  // Swap neighbouring bits, then pairs, then halves, of the complement.
  function Flipped(x: bv8): bv8 {
    var a := x ^ 0xFF;
    var b := ((a & 0x55) << 1) | ((a & 0xAA) >> 1);
    var c := ((b & 0x33) << 2) | ((b & 0xCC) >> 2);
    (c << 4) | (c >> 4)
  }

  lemma FlippedBits(x: bv8, i: nat)
    requires i < 8
    ensures Bit(Flipped(x), 7 - i) == !Bit(x, i)
  {
  }

  lemma FlippedTwice(x: bv8)
    ensures Flipped(Flipped(x)) == x
  {
  }

  // The leftmost pixel of a byte is the least significant bit of the bitmap and the most
  // significant on the screen; a set pixel is dark.
  lemma FlippedEnds()
    ensures Flipped(0x01) == 0x7F && Flipped(0x80) == 0xFE && Flipped(0x00) == 0xFF && Flipped(0x03) == 0x3F
  {
  }

  method Flip(x: bv8) returns (y: bv8)
    ensures y == Flipped(x)
  {
    y := 0xFF;
    if x & 1 != 0 { y := y ^ 128; }
    if x & 2 != 0 { y := y ^ 64; }
    if x & 4 != 0 { y := y ^ 32; }
    if x & 8 != 0 { y := y ^ 16; }
    if x & 16 != 0 { y := y ^ 8; }
    if x & 32 != 0 { y := y ^ 4; }
    if x & 64 != 0 { y := y ^ 2; }
    if x & 128 != 0 { y := y ^ 1; }
  }

  // ---- The image ----

  // Where byte s of the bitmap goes on the screen, and back.
  function ScreenIndex(s: nat): nat { s / 40 / 8 * 320 + s % 40 * 8 + s / 40 % 8 }

  function BitmapIndex(d: nat): nat { (d / 320 * 8 + d % 8) * 40 + d % 320 / 8 }

  lemma IndexesInverse(k: nat)
    requires k < IMAGE_BYTES
    ensures ScreenIndex(k) < IMAGE_BYTES && BitmapIndex(ScreenIndex(k)) == k
    ensures BitmapIndex(k) < IMAGE_BYTES && ScreenIndex(BitmapIndex(k)) == k
  {
    ScreenInverse(k);
    BitmapInverse(k);
  }

  lemma ScreenInverse(s: nat)
    requires s < IMAGE_BYTES
    ensures ScreenIndex(s) < IMAGE_BYTES && BitmapIndex(ScreenIndex(s)) == s
  {
    CellIndex(s / 40 / 8, s % 40, s / 40 % 8);
  }

  lemma BitmapInverse(d: nat)
    requires d < IMAGE_BYTES
    ensures BitmapIndex(d) < IMAGE_BYTES && ScreenIndex(BitmapIndex(d)) == d
  {
    RowIndex(d / 320, d % 320 / 8, d % 8);
  }

  // Row r of the character cell in column j of cell row i, on the screen and in the bitmap.
  lemma CellIndex(i: nat, j: nat, r: nat)
    requires j < 40 && r < 8
    ensures var d := i * 320 + j * 8 + r;
      d / 320 == i && d % 320 / 8 == j && d % 8 == r
  {
  }

  lemma RowIndex(i: nat, j: nat, r: nat)
    requires j < 40 && r < 8
    ensures var s := (i * 8 + r) * 40 + j;
      s / 40 / 8 == i && s % 40 == j && s / 40 % 8 == r
  {
  }

  // The first d bytes of the screen are converted.
  ghost predicate Converted(bitmap: seq<bv8>, screen: seq<bv8>, d: nat) {
    && |bitmap| == |screen| == IMAGE_BYTES && d <= IMAGE_BYTES
    && forall k :: 0 <= k < d ==> BitmapIndex(k) < IMAGE_BYTES && screen[k] == Flipped(bitmap[BitmapIndex(k)])
  }

  // *dst++ = flip(src[r*40]).
  method StoreRow(bitmap: array<bv8>, convert: array<bv8>, src: nat, dst: nat, r: nat, ghost i: nat, ghost j: nat)
    requires bitmap.Length == convert.Length == IMAGE_BYTES && bitmap != convert
    requires i < 32 && j < 40 && r < 8 && src == 320 * i + j && dst == 320 * i + 8 * j + r
    requires Converted(bitmap[..], convert[..], dst)
    modifies convert
    ensures Converted(bitmap[..], convert[..], dst + 1)
  {
    CellIndex(i, j, r);
    convert[dst] := Flip(bitmap[src + 40 * r]);
  }

  method Convert(bitmap: array<bv8>) returns (convert: array<bv8>)
    requires bitmap.Length == IMAGE_BYTES
    ensures fresh(convert) && Converted(bitmap[..], convert[..], IMAGE_BYTES)
  {
    hide Converted;
    convert := new bv8[IMAGE_BYTES];
    var src, dst := 0, 0;
    NoneConverted(bitmap[..], convert[..]);
    for i := 0 to 32
      invariant src == 320 * i && dst == 320 * i
      invariant Converted(bitmap[..], convert[..], dst)
    {
      for j := 0 to 40
        invariant src == 320 * i + j && dst == 320 * i + 8 * j
        invariant Converted(bitmap[..], convert[..], dst)
      {
        StoreRow(bitmap, convert, src, dst, 0, i, j);
        StoreRow(bitmap, convert, src, dst + 1, 1, i, j);
        StoreRow(bitmap, convert, src, dst + 2, 2, i, j);
        StoreRow(bitmap, convert, src, dst + 3, 3, i, j);
        StoreRow(bitmap, convert, src, dst + 4, 4, i, j);
        StoreRow(bitmap, convert, src, dst + 5, 5, i, j);
        StoreRow(bitmap, convert, src, dst + 6, 6, i, j);
        StoreRow(bitmap, convert, src, dst + 7, 7, i, j);
        dst := dst + 8;
        src := src + 1;
      }
      src := src + 7 * 40;
    }
  }

  lemma NoneConverted(bitmap: seq<bv8>, screen: seq<bv8>)
    requires |bitmap| == |screen| == IMAGE_BYTES
    ensures Converted(bitmap, screen, 0)
  {
  }

  // Pixel (x, y) of the bitmap, least significant bit leftmost.
  predicate Pixel(bitmap: seq<bv8>, x: nat, y: nat)
    requires |bitmap| == IMAGE_BYTES && x < 320 && y < 256
  {
    Bit(bitmap[40 * y + x / 8], x % 8)
  }

  // The same pixel on a MODE 4 screen: eight rows a character cell, most significant bit
  // leftmost, complemented.
  lemma PixelOnScreen(bitmap: seq<bv8>, screen: seq<bv8>, x: nat, y: nat)
    requires Converted(bitmap, screen, IMAGE_BYTES) && x < 320 && y < 256
    ensures Bit(screen[y / 8 * 320 + x / 8 * 8 + y % 8], 7 - x % 8) == !Pixel(bitmap, x, y)
  {
    hide Bit, Flipped;
    CellIndex(y / 8, x / 8, y % 8);
    var d := y / 8 * 320 + x / 8 * 8 + y % 8;
    assert BitmapIndex(d) == 40 * y + x / 8;
    FlippedBits(bitmap[40 * y + x / 8], x % 8);
  }

  // Nothing is lost: each byte of the bitmap is the flip of one byte of the screen.
  lemma Recoverable(bitmap: seq<bv8>, screen: seq<bv8>, s: nat)
    requires Converted(bitmap, screen, IMAGE_BYTES) && s < IMAGE_BYTES
    ensures ScreenIndex(s) < IMAGE_BYTES && bitmap[s] == Flipped(screen[ScreenIndex(s)])
  {
    hide Flipped;
    IndexesInverse(s);
    FlippedTwice(bitmap[s]);
    assert screen[ScreenIndex(s)] == Flipped(bitmap[BitmapIndex(ScreenIndex(s))]);
  }
}
