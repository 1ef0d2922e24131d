/** The CHIP-8 opcode codec: pure projections from a 16-bit instruction word
    to the fields the instruction handlers take as operands.

    Words and bytes are bounded integers. A hexadecimal digit masked in place
    (`w & 0x0F00`) is `Masked(w, 0x100)`; shifting it down (`>> 8`) is a
    division by its place value; the source's `as u8` truncation is `% 256`.
    The projections are written with the masks and shifts of the documented
    intent ("hexadecimal digits", "register addresses"); the `Literal…`
    functions model the expressions exactly as they stand in the source,
    which mask without shifting, and the lemmas at the end of the module
    show where the two readings part. */
module Opcode {

  /** The source's `u8`. */
  type Byte = b: int | 0 <= b < 0x100

  /** The source's `Opcode`, a `u16`. */
  type Word = w: int | 0 <= w < 0x1_0000

  /** A place value of a hexadecimal digit in a word. */
  predicate IsPlace(unit: int)
  {
    unit == 0x1 || unit == 0x10 || unit == 0x100 || unit == 0x1000
  }

  /** `w & (0xF * unit)`: the digit of `w` at place `unit`, left in place. */
  function Masked(w: Word, unit: int): (m: Word)
    requires IsPlace(unit)
    ensures m % unit == 0 && m / unit < 16
  {
    w / unit % 16 * unit
  }

  // ---------------------------------------------------------------------------
  // Field projections (intended reading: mask, then shift down)
  // ---------------------------------------------------------------------------

  /** The four hexadecimal digits of `w`, most significant first:
      `(w & 0xF000) >> 12`, `(w & 0x0F00) >> 8`, `(w & 0x00F0) >> 4` and
      `w & 0x000F`. */
  function Nibbles(w: Word): (r: (Byte, Byte, Byte, Byte))
    ensures r.0 < 16 && r.1 < 16 && r.2 < 16 && r.3 < 16
  {
    (w / 0x1000, w / 0x100 % 0x10, w / 0x10 % 0x10, w % 0x10)
  }

  /** The 12-bit address operand, `w & 0x0FFF`. */
  function Nnn(w: Word): (r: nat)
    ensures r < 4096
  {
    w % 0x1000
  }

  /** The 8-bit constant operand, `w & 0x00FF`. */
  function Nn(w: Word): (r: Byte)
  {
    w % 0x100
  }

  /** The 4-bit constant operand, `w & 0x000F`. */
  function N(w: Word): (r: Byte)
    ensures r < 16
  {
    w % 0x10
  }

  /** The first register address, `(w & 0x0F00) >> 8`: the second
      hexadecimal digit. */
  function X(w: Word): (r: nat)
    ensures r < 16
  {
    w / 0x100 % 0x10
  }

  /** The second register address, `(w & 0x00F0) >> 4`: the third
      hexadecimal digit. */
  function Y(w: Word): (r: nat)
    ensures r < 16
  {
    w / 0x10 % 0x10
  }

  /** 16 to the power `n`. */
  function Pow16(n: nat): (p: nat)
  {
    if n == 0 then 1 else 16 * Pow16(n - 1)
  }

  /** The number whose hexadecimal digits, most significant first, are `ds`:
      `n` digits denote a number below 16^n. */
  function FromDigits(ds: seq<Byte>): (v: nat)
    requires forall i :: 0 <= i < |ds| ==> ds[i] < 16
    ensures v < Pow16(|ds|)
  {
    if |ds| == 0 then 0 else FromDigits(ds[..|ds| - 1]) * 16 + ds[|ds| - 1]
  }

  /** Reassembles a word from four hexadecimal digits, most significant first:
      the partner of `Nibbles`. Four digits stay below 16^4, so the numeral
      fits a word. */
  function Compose(d: (Byte, Byte, Byte, Byte)): (w: Word)
    requires d.0 < 16 && d.1 < 16 && d.2 < 16 && d.3 < 16
  {
    assert Pow16(4) == 0x1_0000;
    FromDigits([d.0, d.1, d.2, d.3])
  }

  // ---------------------------------------------------------------------------
  // Properties of the intended projections
  // ---------------------------------------------------------------------------

  /** Division by a place value, determined by quotient and remainder. */
  lemma DivMod(v: int, q: int, r: int, unit: int)
    requires IsPlace(unit) && 0 <= r < unit && v == q * unit + r
    ensures v / unit == q && v % unit == r
  {
  }

  /** A composed word is its digits weighted by their place values. */
  lemma {:induction false} ComposeIsWeightedSum(d: (Byte, Byte, Byte, Byte))
    requires d.0 < 16 && d.1 < 16 && d.2 < 16 && d.3 < 16
    ensures Compose(d) == d.0 * 0x1000 + d.1 * 0x100 + d.2 * 0x10 + d.3
  {
    var one, two, three, four := [d.0], [d.0, d.1], [d.0, d.1, d.2], [d.0, d.1, d.2, d.3];
    assert one[..0] == [];
    assert FromDigits(one) == d.0;
    assert two[..1] == one;
    assert FromDigits(two) == d.0 * 0x10 + d.1;
    assert three[..2] == two;
    assert FromDigits(three) == (d.0 * 0x10 + d.1) * 0x10 + d.2;
    assert four[..3] == three;
  }

  /** Splitting a composed word gives back its digits. */
  lemma {:induction false} NibblesOfCompose(d: (Byte, Byte, Byte, Byte))
    requires d.0 < 16 && d.1 < 16 && d.2 < 16 && d.3 < 16
    ensures Nibbles(Compose(d)) == d
  {
    var w := Compose(d);
    var a, b, c, e: int := d.0, d.1, d.2, d.3;
    ComposeIsWeightedSum(d);
    DivMod(w, a, b * 0x100 + c * 0x10 + e, 0x1000);
    DivMod(w, a * 0x10 + b, c * 0x10 + e, 0x100);
    DivMod(w, (a * 0x10 + b) * 0x10 + c, e, 0x10);
    DivMod(w / 0x100, a, b, 0x10);
    DivMod(w / 0x10, a * 0x10 + b, c, 0x10);
  }

  /** Composing the digits of a word gives back the word. */
  lemma {:induction false} ComposeOfNibbles(w: Word)
    ensures Compose(Nibbles(w)) == w
  {
    var rest := w % 0x1000;
    var rest' := rest % 0x100;
    var d: (Byte, Byte, Byte, Byte) := (w / 0x1000, rest / 0x100, rest' / 0x10, rest' % 0x10);
    assert w == d.0 * 0x1000 + rest;
    assert rest == d.1 * 0x100 + rest';
    assert rest' == d.2 * 0x10 + d.3;
    ComposeIsWeightedSum(d);
    NibblesOfCompose(d);
  }

  /** The digits of `w`, weighted by their place values, add up to `w`. */
  lemma {:induction false} NibblesRoundTrip(w: Word)
    ensures var d := Nibbles(w);
      d.0 * 4096 + d.1 * 256 + d.2 * 16 + d.3 == w
  {
    ComposeOfNibbles(w);
    ComposeIsWeightedSum(Nibbles(w));
  }

  /** The middle digits are the register addresses and the last digit is `n`;
      the address and the 8-bit constant are the trailing digits read as one
      number. */
  lemma {:induction false} FieldsConsistent(w: Word)
    ensures Nibbles(w).1 == X(w) && Nibbles(w).2 == Y(w) && Nibbles(w).3 == N(w)
    ensures Nnn(w) == X(w) * 256 + Y(w) * 16 + N(w)
    ensures Nn(w) == Y(w) * 16 + N(w)
  {
    var d := Nibbles(w);
    var a, b, c, e: int := d.0, d.1, d.2, d.3;
    NibblesRoundTrip(w);
    DivMod(w, a, b * 0x100 + c * 0x10 + e, 0x1000);
    DivMod(w, a * 0x10 + b, c * 0x10 + e, 0x100);
  }

  // ---------------------------------------------------------------------------
  // The projections as literally written: a mask followed by a cast, no shift
  // ---------------------------------------------------------------------------

  /** The source's `as u8` on a `u16`: keep the low eight bits. */
  function TruncateToByte(v: Word): (b: Byte)
  {
    v % 0x100
  }

  /** `nibbles()` as written: each masked digit is cast to `u8` where it
      stands. */
  function LiteralNibbles(w: Word): (r: (Byte, Byte, Byte, Byte))
  {
    (TruncateToByte(Masked(w, 0x1000)),
     TruncateToByte(Masked(w, 0x100)),
     TruncateToByte(Masked(w, 0x10)),
     TruncateToByte(Masked(w, 0x1)))
  }

  /** `x()` as written: the masked digit, not shifted down, so a multiple of
      256 below 4096. */
  function LiteralX(w: Word): (r: nat)
    ensures r % 256 == 0 && r < 0x1000
  {
    Masked(w, 0x100)
  }

  /** `y()` as written: the masked digit, not shifted down, so a multiple of
      16 below 256. */
  function LiteralY(w: Word): (r: nat)
    ensures r % 16 == 0 && r < 0x100
  {
    Masked(w, 0x10)
  }

  /** As written, the first two digits always come out as zero and the third
      as sixteen times the digit; only the last one is right. */
  lemma {:induction false} LiteralNibblesDropHighDigits(w: Word)
    ensures LiteralNibbles(w).0 == 0 && LiteralNibbles(w).1 == 0
    ensures LiteralNibbles(w).2 == 16 * Nibbles(w).2
    ensures LiteralNibbles(w).3 == Nibbles(w).3
  {
    var a, b := Masked(w, 0x1000), Masked(w, 0x100);
    assert a == (a / 0x1000 * 16) * 0x100;
    assert b == (b / 0x100) * 0x100;
  }

  /** As written, the register addresses are the intended ones scaled by 256
      and by 16, so any nonzero register digit lies outside the sixteen
      registers. */
  lemma LiteralRegisterFieldsScaled(w: Word)
    ensures LiteralX(w) == 256 * X(w)
    ensures LiteralY(w) == 16 * Y(w)
    ensures X(w) != 0 <==> LiteralX(w) >= 16
    ensures Y(w) != 0 <==> LiteralY(w) >= 16
  {
  }
}
