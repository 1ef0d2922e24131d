/** Instruction selection: the ordered match of `execute` over the four
    hexadecimal digits of a word, as a pure decoder from words to
    instructions, with an encoder as its partner. */
module Instruction {
  import opened Opcode

  /** One dispatch target per arm of the match, plus the fall-through arm. */
  datatype Instr =
    | ClearScreen                          // 00E0
    | Return                               // 00EE
    | MachineRoutine(addr: nat)            // 0NNN
    | Jump(addr: nat)                      // 1NNN
    | Call(addr: nat)                      // 2NNN
    | SkipIfEqual(x: nat, nn: Byte)        // 3XNN
    | SkipIfNotEqual(x: nat, nn: Byte)     // 4XNN
    | SkipIfRegistersEqual(x: nat, y: nat) // 5XY0
    | Load(x: nat, nn: Byte)               // 6XNN
    | Add(x: nat, nn: Byte)                // 7XNN
    | Unsupported(word: Word)              // no arm matches

  /** Operands fit their fields: addresses in 12 bits, register addresses
      name one of the sixteen registers. */
  predicate WellFormed(i: Instr)
  {
    match i
    case MachineRoutine(a) => a < 4096
    case Jump(a) => a < 4096
    case Call(a) => a < 4096
    case SkipIfEqual(x, _) => x < 16
    case SkipIfNotEqual(x, _) => x < 16
    case SkipIfRegistersEqual(x, y) => x < 16 && y < 16
    case Load(x, _) => x < 16
    case Add(x, _) => x < 16
    case _ => true
  }

  /** The words no arm of the match accepts: the `5XY_` family with a nonzero
      last digit, and every word whose leading digit is 8 or above. */
  predicate IsUnsupportedWord(w: Word)
  {
    var d := Nibbles(w);
    d.0 >= 8 || (d.0 == 5 && d.3 != 0)
  }

  /** The dispatch of `execute`, reading the digits with their shifts. The
      arms are tried in order and the first match wins. */
  function Decode(w: Word): (r: Instr)
    ensures WellFormed(r)
    ensures r.Unsupported? ==> r.word == w
  {
    match Nibbles(w)
    case (0x0, 0x0, 0xE, 0x0) => ClearScreen
    case (0x0, 0x0, 0xE, 0xE) => Return
    case (0x0, _, _, _) => MachineRoutine(Nnn(w))
    case (0x1, _, _, _) => Jump(Nnn(w))
    case (0x2, _, _, _) => Call(Nnn(w))
    case (0x3, _, _, _) => SkipIfEqual(X(w), Nn(w))
    case (0x4, _, _, _) => SkipIfNotEqual(X(w), Nn(w))
    case (0x5, _, _, 0x0) => SkipIfRegistersEqual(X(w), Y(w))
    case (0x6, _, _, _) => Load(X(w), Nn(w))
    case (0x7, _, _, _) => Add(X(w), Nn(w))
    case _ => Unsupported(w)
  }

  /** The machine word of an instruction: the partner of `Decode`. */
  function Encode(i: Instr): (w: Word)
    requires WellFormed(i)
  {
    match i
    case ClearScreen => 0x00E0
    case Return => 0x00EE
    case MachineRoutine(a) => a
    case Jump(a) => 0x1000 + a
    case Call(a) => 0x2000 + a
    case SkipIfEqual(x, nn) => 0x3000 + x * 0x100 + nn
    case SkipIfNotEqual(x, nn) => 0x4000 + x * 0x100 + nn
    case SkipIfRegistersEqual(x, y) => 0x5000 + x * 0x100 + y * 0x10
    case Load(x, nn) => 0x6000 + x * 0x100 + nn
    case Add(x, nn) => 0x7000 + x * 0x100 + nn
    case Unsupported(w) => w
  }

  /** The instructions `Decode` can produce: well formed, a `0NNN` address
      that is not one of the two words claimed by the earlier arms, and an
      unsupported word that really is unsupported. */
  predicate Canonical(i: Instr)
  {
    WellFormed(i)
    && (i.MachineRoutine? ==> i.addr != 0x0E0 && i.addr != 0x0EE)
    && (i.Unsupported? ==> IsUnsupportedWord(i.word))
  }

  // ---------------------------------------------------------------------------
  // Properties of the dispatch
  // ---------------------------------------------------------------------------

  /** Arm order in the `0___` family: the two exact words are taken before the
      generic `0NNN` arm, which receives every other word of the family with
      its 12-bit address. */
  lemma {:induction false} DecodeZeroFamily(w: Word)
    requires Nibbles(w).0 == 0
    ensures w == 0x00E0 <==> Decode(w) == ClearScreen
    ensures w == 0x00EE <==> Decode(w) == Return
    ensures w != 0x00E0 && w != 0x00EE <==> Decode(w) == MachineRoutine(w)
  {
    NibblesRoundTrip(w);
    FieldsConsistent(w);
  }

  /** A word is rejected exactly when no arm accepts it. */
  lemma {:induction false} DecodeUnsupportedIff(w: Word)
    ensures Decode(w).Unsupported? <==> IsUnsupportedWord(w)
    ensures Decode(w).Unsupported? <==> w >= 0x8000 || (0x5000 <= w < 0x6000 && w % 16 != 0)
  {
    NibblesRoundTrip(w);
  }

  /** Decoding is total and loses nothing: every word is recovered from its
      instruction. */
  lemma {:induction false} EncodeDecode(w: Word)
    ensures Encode(Decode(w)) == w
  {
    NibblesRoundTrip(w);
    FieldsConsistent(w);
  }

  /** The fields of a word given as a leading digit and a 12-bit rest. */
  lemma {:induction false} FieldsOfParts(w: Word, k: int, rest: int)
    requires 0 <= k < 16 && 0 <= rest < 0x1000 && w == k * 0x1000 + rest
    ensures Nibbles(w) == (k, rest / 0x100, rest % 0x100 / 0x10, rest % 0x10)
    ensures Nnn(w) == rest
    ensures X(w) == rest / 0x100 && Nn(w) == rest % 0x100
    ensures Y(w) == rest % 0x100 / 0x10 && N(w) == rest % 0x10
  {
    var b, low := rest / 0x100, rest % 0x100;
    var c, e := low / 0x10, low % 0x10;
    assert rest == b * 0x100 + low;
    assert low == c * 0x10 + e;
    DivMod(w, k, rest, 0x1000);
    DivMod(w, k * 0x10 + b, low, 0x100);
    DivMod(w, (k * 0x10 + b) * 0x10 + c, e, 0x10);
    DivMod(w / 0x100, k, b, 0x10);
    DivMod(w / 0x10, k * 0x10 + b, c, 0x10);
  }

  /** `DecodeEncode` for the instructions that carry an address or nothing. */
  lemma {:induction false} DecodeEncodeAddressed(i: Instr)
    requires Canonical(i)
    requires i.ClearScreen? || i.Return? || i.MachineRoutine? || i.Jump? || i.Call?
    ensures Decode(Encode(i)) == i
  {
    var w := Encode(i);
    match i
    case ClearScreen => FieldsOfParts(w, 0, 0x0E0);
    case Return => FieldsOfParts(w, 0, 0x0EE);
    case MachineRoutine(a) => FieldsOfParts(w, 0, a);
    case Jump(a) => FieldsOfParts(w, 1, a);
    case Call(a) => FieldsOfParts(w, 2, a);
  }

  /** `DecodeEncode` for the instructions that name a register. */
  lemma {:induction false} DecodeEncodeRegister(i: Instr)
    requires Canonical(i)
    requires i.SkipIfEqual? || i.SkipIfNotEqual? || i.SkipIfRegistersEqual? || i.Load? || i.Add?
    ensures Decode(Encode(i)) == i
  {
    var w := Encode(i);
    match i
    case SkipIfEqual(x, nn) => FieldsOfParts(w, 3, x * 0x100 + nn);
    case SkipIfNotEqual(x, nn) => FieldsOfParts(w, 4, x * 0x100 + nn);
    case SkipIfRegistersEqual(x, y) => FieldsOfParts(w, 5, x * 0x100 + y * 0x10);
    case Load(x, nn) => FieldsOfParts(w, 6, x * 0x100 + nn);
    case Add(x, nn) => FieldsOfParts(w, 7, x * 0x100 + nn);
  }

  /** Every instruction `Decode` can produce is decoded from its own word. */
  lemma {:induction false} DecodeEncode(i: Instr)
    requires Canonical(i)
    ensures Decode(Encode(i)) == i
  {
    if i.ClearScreen? || i.Return? || i.MachineRoutine? || i.Jump? || i.Call? {
      DecodeEncodeAddressed(i);
    } else if !i.Unsupported? {
      DecodeEncodeRegister(i);
    }
  }

  /** The results of `Decode` are exactly the canonical instructions. */
  lemma {:induction false} DecodeIsCanonical(w: Word)
    ensures Canonical(Decode(w))
  {
    if Nibbles(w).0 == 0 {
      DecodeZeroFamily(w);
    }
    DecodeUnsupportedIff(w);
  }

  // ---------------------------------------------------------------------------
  // The dispatch as literally written
  // ---------------------------------------------------------------------------

  /** `execute`'s match as written, over the unshifted digits and register
      fields. */
  function DecodeAsWritten(w: Word): (r: Instr)
  {
    match LiteralNibbles(w)
    case (0x0, 0x0, 0xE, 0x0) => ClearScreen
    case (0x0, 0x0, 0xE, 0xE) => Return
    case (0x0, _, _, _) => MachineRoutine(Nnn(w))
    case (0x1, _, _, _) => Jump(Nnn(w))
    case (0x2, _, _, _) => Call(Nnn(w))
    case (0x3, _, _, _) => SkipIfEqual(LiteralX(w), Nn(w))
    case (0x4, _, _, _) => SkipIfNotEqual(LiteralX(w), Nn(w))
    case (0x5, _, _, 0x0) => SkipIfRegistersEqual(LiteralX(w), LiteralY(w))
    case (0x6, _, _, _) => Load(LiteralX(w), Nn(w))
    case (0x7, _, _, _) => Add(LiteralX(w), Nn(w))
    case _ => Unsupported(w)
  }

  /** As written, the leading digit always reads as zero and the third digit
      never reads as `0xE`, so every word falls into the `0NNN` arm. */
  lemma {:induction false} DecodeAsWrittenAlwaysMachineRoutine(w: Word)
    ensures DecodeAsWritten(w) == MachineRoutine(Nnn(w))
  {
    LiteralNibblesDropHighDigits(w);
  }

  /** The load-immediate word `0x6099` decodes as a load into register 0 with
      the shifts, and as a `0NNN` call with address `0x099` as written; the
      clear-screen word `0x00E0` is likewise taken for a `0NNN` call. */
  lemma DecodeAsWrittenCounterexample()
    ensures Decode(0x6099) == Load(0, 0x99)
    ensures DecodeAsWritten(0x6099) == MachineRoutine(0x099)
    ensures Decode(0x00E0) == ClearScreen
    ensures DecodeAsWritten(0x00E0) == MachineRoutine(0x0E0)
  {
    DecodeAsWrittenAlwaysMachineRoutine(0x6099);
    DecodeAsWrittenAlwaysMachineRoutine(0x00E0);
  }
}
