/** The CHIP-8 processor state and the part of the fetch/execute cycle that
    has a body: construction, fetching the word at the program counter,
    dispatching a word, and the two handlers that are implemented
    (`6XNN` load immediate, `7XNN` add immediate). Every other dispatch
    target is a handler whose body is still to be written; executing one is
    reported as `NotImplemented`, and a word no arm accepts as
    `UnsupportedInstruction`. */
module Machine {
  import opened Opcode
  import opened Instruction

  const RegisterCount: nat := 16
  const MemorySize: nat := 4096
  const MaxStackSize: nat := 12
  const KeypadSize: nat := 16

  /** The processor state. The source's fixed-size arrays are sequences whose
      lengths `Valid` pins down; `usize` fields are unbounded naturals. */
  datatype Chip8 = Chip8(
    registers: seq<Byte>,
    indexRegister: nat,
    programCounter: nat,
    stackPointer: nat,
    memory: seq<Byte>,
    stack: seq<Word>,
    soundTimer: Byte,
    delayTimer: Byte,
    keypad: seq<bool>)

  /** The array lengths the source's types fix. */
  predicate Valid(s: Chip8)
  {
    |s.registers| == RegisterCount
    && |s.memory| == MemorySize
    && |s.stack| == MaxStackSize
    && |s.keypad| == KeypadSize
  }

  /** Why a step cannot complete. */
  datatype Fault =
    | MemoryOutOfBounds(address: nat)     // an index past the end of memory
    | UnsupportedInstruction(word: Word)  // no arm of the dispatch accepts the word
    | NotImplemented(instr: Instr)        // the selected handler has no body yet
    | ArithmeticOverflow(register: nat)   // a checked `u8` addition overflowed
    | RegisterOutOfBounds(index: nat)     // a register index past the sixteenth

  datatype Result<T> = Ok(value: T) | Err(fault: Fault)

  // ---------------------------------------------------------------------------
  // Construction
  // ---------------------------------------------------------------------------

  /** Every register, memory cell, stack slot, counter and timer is zero and
      no key is down. */
  predicate IsReset(s: Chip8)
  {
    (forall i :: 0 <= i < |s.registers| ==> s.registers[i] == 0)
    && (forall a :: 0 <= a < |s.memory| ==> s.memory[a] == 0)
    && (forall k :: 0 <= k < |s.stack| ==> s.stack[k] == 0)
    && (forall k :: 0 <= k < |s.keypad| ==> !s.keypad[k])
    && s.indexRegister == 0 && s.programCounter == 0 && s.stackPointer == 0
    && s.soundTimer == 0 && s.delayTimer == 0
  }

  /** The all-zero state `new()` builds (no font is loaded yet). */
  function New(): (s: Chip8)
    ensures Valid(s) && IsReset(s)
  {
    Chip8(
      registers := seq(RegisterCount, _ => 0),
      indexRegister := 0,
      programCounter := 0,
      stackPointer := 0,
      memory := seq(MemorySize, _ => 0),
      stack := seq(MaxStackSize, _ => 0),
      soundTimer := 0,
      delayTimer := 0,
      keypad := seq(KeypadSize, _ => false))
  }

  /** There is exactly one reset state of the right shape. */
  lemma {:induction false} ResetIsUnique(s: Chip8)
    requires Valid(s) && IsReset(s)
    ensures s == New()
  {
    var t := New();
    assert s.registers == t.registers;
    assert s.memory == t.memory;
    assert s.stack == t.stack;
    assert s.keypad == t.keypad;
  }

  // ---------------------------------------------------------------------------
  // Fetch
  // ---------------------------------------------------------------------------

  /** The big-endian word at the program counter: the high byte from
      `programCounter`, the low byte from the cell after it. An index past
      the end of memory is reported with the first offending address. */
  function Fetch(s: Chip8): (r: Result<Word>)
    requires Valid(s)
    ensures r.Ok? <==> s.programCounter + 1 < MemorySize
    ensures r.Ok? ==> (r.value / 0x100 == s.memory[s.programCounter]
                       && r.value % 0x100 == s.memory[s.programCounter + 1])
    ensures r.Err? ==> (r.fault.MemoryOutOfBounds? && r.fault.address >= MemorySize
                        && (r.fault.address == s.programCounter
                            || (r.fault.address == s.programCounter + 1 && s.programCounter < MemorySize)))
  {
    var pc := s.programCounter;
    if pc >= MemorySize then Err(MemoryOutOfBounds(pc))
    else if pc + 1 >= MemorySize then Err(MemoryOutOfBounds(pc + 1))
    else Ok(s.memory[pc] as int * 0x100 + s.memory[pc + 1] as int)
  }

  /** Writes `w` big-endian at `addr`: the partner of `Fetch`. */
  function StoreWord(s: Chip8, addr: nat, w: Word): (t: Chip8)
    requires Valid(s) && addr + 1 < MemorySize
    ensures Valid(t)
  {
    s.(memory := s.memory[addr := w / 0x100][addr + 1 := w % 0x100])
  }

  /** Fetching at the place a word was stored gives the word back. */
  lemma {:induction false} FetchStoreWord(s: Chip8, w: Word)
    requires Valid(s) && s.programCounter + 1 < MemorySize
    ensures Fetch(StoreWord(s, s.programCounter, w)) == Ok(w)
  {
    var t := StoreWord(s, s.programCounter, w);
    assert t.memory[t.programCounter] == w / 0x100;
  }

  /** Storing the fetched word back changes nothing: fetch reads exactly the
      two cells at the program counter. */
  lemma {:induction false} StoreFetchedWord(s: Chip8)
    requires Valid(s) && Fetch(s).Ok?
    ensures StoreWord(s, s.programCounter, Fetch(s).value) == s
  {
    var t := StoreWord(s, s.programCounter, Fetch(s).value);
    assert t.memory == s.memory;
  }

  // ---------------------------------------------------------------------------
  // Handlers
  // ---------------------------------------------------------------------------

  /** `t` is `s` with at most register `x` changed. */
  predicate OnlyRegisterChanged(s: Chip8, t: Chip8, x: nat)
  {
    t == s.(registers := t.registers)
    && |t.registers| == |s.registers|
    && forall i :: 0 <= i < |s.registers| && i != x ==> t.registers[i] == s.registers[i]
  }

  /** `6XNN`: register `x` holds `nn`; nothing else changes, not even the
      program counter. */
  function LoadRegister(s: Chip8, x: nat, nn: Byte): (t: Chip8)
    requires Valid(s) && x < RegisterCount
    ensures Valid(t)
    ensures t.registers[x] == nn
    ensures OnlyRegisterChanged(s, t, x)
  {
    s.(registers := s.registers[x := nn])
  }

  /** `7XNN`: register `x` grows by `nn`, wrapping modulo 256; nothing else
      changes, not even the program counter. */
  function AddToRegister(s: Chip8, x: nat, nn: Byte): (t: Chip8)
    requires Valid(s) && x < RegisterCount
    ensures Valid(t)
    ensures s.registers[x] + nn < 0x100 ==> t.registers[x] == s.registers[x] + nn
    ensures s.registers[x] + nn >= 0x100 ==> t.registers[x] == s.registers[x] + nn - 0x100
    ensures OnlyRegisterChanged(s, t, x)
  {
    s.(registers := s.registers[x := (s.registers[x] as int + nn as int) % 0x100])
  }

  /** `7XNN` as written: `u8 +=` traps on overflow in a build with overflow
      checks, so a sum past 255 stops the step. */
  function AddToRegisterAsWritten(s: Chip8, x: nat, nn: Byte): (r: Result<Chip8>)
    requires Valid(s) && x < RegisterCount
    ensures r.Err? <==> s.registers[x] + nn >= 0x100
    ensures r.Err? ==> r.fault == ArithmeticOverflow(x)
    ensures r.Ok? ==> (Valid(r.value) && r.value.registers[x] == s.registers[x] + nn
                       && OnlyRegisterChanged(s, r.value, x))
  {
    var sum := s.registers[x] as int + nn as int;
    if sum >= 0x100 then Err(ArithmeticOverflow(x))
    else Ok(s.(registers := s.registers[x := sum]))
  }

  // ---------------------------------------------------------------------------
  // Dispatch
  // ---------------------------------------------------------------------------

  /** `execute`: decode the word and run the selected handler. Only the two
      implemented handlers produce a new state; the program counter is not
      advanced. */
  function Execute(s: Chip8, w: Word): (r: Result<Chip8>)
    requires Valid(s)
    ensures r.Ok? <==> Decode(w).Load? || Decode(w).Add?
    ensures r.Ok? ==> Valid(r.value) && OnlyRegisterChanged(s, r.value, X(w))
    ensures r == Err(UnsupportedInstruction(w)) <==> IsUnsupportedWord(w)
    ensures r.Err? && !IsUnsupportedWord(w) ==> r == Err(NotImplemented(Decode(w)))
  {
    DecodeUnsupportedIff(w);
    match Decode(w)
    case Load(x, nn) => Ok(LoadRegister(s, x, nn))
    case Add(x, nn) => Ok(AddToRegister(s, x, nn))
    case Unsupported(word) => Err(UnsupportedInstruction(word))
    case i => Err(NotImplemented(i))
  }

  // ---------------------------------------------------------------------------
  // Properties of the handlers and of the dispatch
  // ---------------------------------------------------------------------------

  /** A load replaces whatever an earlier load to the same register left. */
  lemma {:induction false} LoadRegisterOverwrites(s: Chip8, x: nat, a: Byte, b: Byte)
    requires Valid(s) && x < RegisterCount
    ensures LoadRegister(LoadRegister(s, x, a), x, b) == LoadRegister(s, x, b)
  {
    assert LoadRegister(LoadRegister(s, x, a), x, b).registers == LoadRegister(s, x, b).registers;
  }

  /** Loading the value a register already holds changes nothing. */
  lemma {:induction false} LoadRegisterCurrentValue(s: Chip8, x: nat)
    requires Valid(s) && x < RegisterCount
    ensures LoadRegister(s, x, s.registers[x]) == s
  {
    assert LoadRegister(s, x, s.registers[x]).registers == s.registers;
  }

  /** Loads into different registers do not interfere. */
  lemma {:induction false} LoadRegistersCommute(s: Chip8, x: nat, a: Byte, y: nat, b: Byte)
    requires Valid(s) && x < RegisterCount && y < RegisterCount && x != y
    ensures LoadRegister(LoadRegister(s, x, a), y, b) == LoadRegister(LoadRegister(s, y, b), x, a)
  {
    assert LoadRegister(LoadRegister(s, x, a), y, b).registers
        == LoadRegister(LoadRegister(s, y, b), x, a).registers;
  }

  /** An add is a load of the wrapped sum. */
  lemma {:induction false} AddIsLoadOfWrappedSum(s: Chip8, x: nat, nn: Byte)
    requires Valid(s) && x < RegisterCount
    ensures AddToRegister(s, x, nn) == LoadRegister(s, x, (s.registers[x] as int + nn as int) % 0x100)
  {
    assert AddToRegister(s, x, nn).registers
        == LoadRegister(s, x, (s.registers[x] as int + nn as int) % 0x100).registers;
  }

  /** Two adds to one register are one add of the sum modulo 256. */
  lemma {:induction false} AddToRegisterComposes(s: Chip8, x: nat, a: Byte, b: Byte)
    requires Valid(s) && x < RegisterCount
    ensures AddToRegister(AddToRegister(s, x, a), x, b)
         == AddToRegister(s, x, (a as int + b as int) % 0x100)
  {
    var t, u := AddToRegister(AddToRegister(s, x, a), x, b), AddToRegister(s, x, (a as int + b as int) % 0x100);
    assert t.registers[x] == u.registers[x];
    assert t.registers == u.registers;
  }

  /** Adding zero changes nothing. */
  lemma {:induction false} AddZeroIsIdentity(s: Chip8, x: nat)
    requires Valid(s) && x < RegisterCount
    ensures AddToRegister(s, x, 0) == s
  {
    assert AddToRegister(s, x, 0).registers == s.registers;
  }

  /** Without overflow the checked add of the source and the wrapping add
      agree. */
  lemma {:induction false} AddAgreesWithoutOverflow(s: Chip8, x: nat, nn: Byte)
    requires Valid(s) && x < RegisterCount && s.registers[x] as int + nn as int < 0x100
    ensures AddToRegisterAsWritten(s, x, nn) == Ok(AddToRegister(s, x, nn))
  {
    assert AddToRegisterAsWritten(s, x, nn).value.registers == AddToRegister(s, x, nn).registers;
  }

  /** A register holding `0xFF` plus one: the checked add stops the step, the
      wrapping add leaves zero. */
  lemma AddOverflowCounterexample(s: Chip8, x: nat)
    requires Valid(s) && x < RegisterCount && s.registers[x] == 0xFF
    ensures AddToRegisterAsWritten(s, x, 1) == Err(ArithmeticOverflow(x))
    ensures AddToRegister(s, x, 1).registers[x] == 0
  {
  }

  /** A `6XNN` word loads its constant into its register and changes nothing
      else. */
  lemma {:induction false} ExecuteLoad(s: Chip8, w: Word)
    requires Valid(s) && Nibbles(w).0 == 6
    ensures Execute(s, w).Ok?
    ensures Execute(s, w).value.registers[X(w)] == Nn(w)
    ensures OnlyRegisterChanged(s, Execute(s, w).value, X(w))
  {
    assert Decode(w) == Load(X(w), Nn(w));
  }

  /** A `7XNN` word adds its constant to its register, wrapping, and changes
      nothing else. */
  lemma {:induction false} ExecuteAdd(s: Chip8, w: Word)
    requires Valid(s) && Nibbles(w).0 == 7
    ensures Execute(s, w).Ok?
    ensures Execute(s, w).value.registers[X(w)] == (s.registers[X(w)] as int + Nn(w) as int) % 0x100
    ensures OnlyRegisterChanged(s, Execute(s, w).value, X(w))
  {
    assert Decode(w) == Add(X(w), Nn(w));
  }

  /** Every accepted word below `0x6000` selects a handler without a body. */
  lemma {:induction false} ExecuteNotImplemented(s: Chip8, w: Word)
    requires Valid(s) && w < 0x6000 && !(0x5000 <= w && w % 16 != 0)
    ensures Execute(s, w) == Err(NotImplemented(Decode(w)))
  {
    DecodeUnsupportedIff(w);
    NibblesRoundTrip(w);
  }

  /** Loading `0x99` into register 0: the bytes `0x60, 0x99` at the program
      counter fetch as `0x6099`, whose execution leaves `0x99` in register 0
      and the program counter where it was. */
  lemma {:induction false} LoadImmediateScenario(s: Chip8)
    requires Valid(s) && s.programCounter + 1 < MemorySize
    requires s.memory[s.programCounter] == 0x60 && s.memory[s.programCounter + 1] == 0x99
    ensures Fetch(s) == Ok(0x6099)
    ensures Execute(s, 0x6099).Ok?
    ensures Execute(s, 0x6099).value.registers[0] == 0x99
    ensures Execute(s, 0x6099).value.programCounter == s.programCounter
  {
    ExecuteLoad(s, 0x6099);
  }

  /** A fresh machine fetches the zero word at address 0, which selects the
      `0NNN` handler. */
  lemma NewFirstStep()
    ensures Fetch(New()) == Ok(0)
    ensures Execute(New(), 0) == Err(NotImplemented(MachineRoutine(0)))
  {
  }

  // ---------------------------------------------------------------------------
  // The dispatch as literally written
  // ---------------------------------------------------------------------------

  /** `execute` over the literal decoder: register fields are used unshifted,
      so an index past the sixteenth register would stop the step. */
  function ExecuteAsWritten(s: Chip8, w: Word): (r: Result<Chip8>)
    requires Valid(s)
  {
    match DecodeAsWritten(w)
    case Load(x, nn) =>
      if x < RegisterCount then Ok(LoadRegister(s, x, nn)) else Err(RegisterOutOfBounds(x))
    case Add(x, nn) =>
      if x < RegisterCount then AddToRegisterAsWritten(s, x, nn) else Err(RegisterOutOfBounds(x))
    case Unsupported(word) => Err(UnsupportedInstruction(word))
    case i => Err(NotImplemented(i))
  }

  /** As written, no word reaches an implemented handler and no word is
      reported unsupported: each one selects the `0NNN` handler. */
  lemma {:induction false} ExecuteAsWrittenNeverRuns(s: Chip8, w: Word)
    requires Valid(s)
    ensures ExecuteAsWritten(s, w) == Err(NotImplemented(MachineRoutine(Nnn(w))))
  {
    DecodeAsWrittenAlwaysMachineRoutine(w);
  }
}
