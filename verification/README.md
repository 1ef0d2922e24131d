# CHIP-8 processor core in Dafny

A model of the CHIP-8 virtual-machine core in `src/chip8.rs`. It covers the
opcode codec (the `Chip8Opcode` projections of a 16-bit instruction word into
its hexadecimal digits, 12-bit address, 8-bit and 4-bit constants and two
register addresses), the `Chip8` processor state and its all-zero constructor
`new()`, `fetch_opcode` (the big-endian word at the program counter), the
ordered dispatch of `execute`, and the two handlers with bodies: `op_6xnn`
(load a constant into a register) and `op_7xnn` (add a constant to a register).

Three modules, one per concern:

- `Opcode` (`opcode.dfy`): words and bytes as bounded integers; the field
  projections with the shifts the doc comments promise, their partner
  `Compose`, and the projections exactly as written (mask and `as u8`, no
  shift) with lemmas that show where the two part.
- `Instruction` (`instruction.dfy`): an `Instr` datatype with one constructor per
  dispatch target and an `Unsupported` case for the fall-through arm; `Decode`
  (the ordered match, first matching arm wins), its partner `Encode`, and the
  match over the unshifted digits as written.
- `Machine` (`machine.dfy`): the immutable state record, `New`, `Fetch`,
  `LoadRegister`, `AddToRegister`, `Execute`, and frame, composition and
  scenario lemmas. A failing step is a `Result` with a `Fault`:
  `MemoryOutOfBounds` for an index past memory, `UnsupportedInstruction` for a
  word no arm accepts (the source's `unimplemented!()`), `NotImplemented` for a
  handler whose body is `todo!()`, `ArithmeticOverflow` for the checked `u8`
  addition, `RegisterOutOfBounds` for a register index past the sixteenth.

Masks are modelled arithmetically: `w & 0x0F00` is `Masked(w, 0x100)`
(`w / 0x100 % 16 * 0x100`), a right shift by 4k bits is a division by 16^k, and
`as u8` is `% 256`. These agree with the bitwise operations on the source's
unsigned values.

`load` is documented to place programs at `0x200` (src/chip8.rs:84; its body
is `todo!()`), but `new()` sets the program counter to 0 (src/chip8.rs:74); the
model follows `new()`. No code path advances the program counter, so `Execute`
leaves it unchanged.

## Model

| member | source | states |
|---|---|---|
| Opcode.Nibbles | src/chip8.rs:22-23 | each of the four digits is a hexadecimal digit, below 16 |
| Opcode.Nnn | src/chip8.rs:46-48 | the address operand fits in 12 bits, below 4096 |
| Opcode.Nn | src/chip8.rs:50-52 | no contract of its own: `Opcode.FieldsConsistent` states that `nn` is the low byte, `y*16 + n` |
| Opcode.N | src/chip8.rs:54-56 | the 4-bit constant is below 16 |
| Opcode.X | src/chip8.rs:30-31 | the first register address names one of the 16 registers |
| Opcode.Y | src/chip8.rs:32-33 | the second register address names one of the 16 registers |
| Opcode.FromDigits | src/chip8.rs:22-23 | a numeral of `n` hexadecimal digits denotes a number below 16^n, so four digits always make a 16-bit word (`Compose` is this numeral for four digits) |
| Opcode.ComposeOfNibbles | src/chip8.rs:37-44 | reassembling the four digits of any word gives the word back |
| Opcode.NibblesOfCompose | src/chip8.rs:37-44 | splitting a word built from four digits gives the same digits back |
| Opcode.NibblesRoundTrip | src/chip8.rs:37-44 | the four digits are the word's hexadecimal digits: weighted by 4096, 256, 16 and 1 they add up to it |
| Opcode.FieldsConsistent | src/chip8.rs:46-64 | the second and third digits are `x` and `y`, the last is `n`; `nnn = x*256 + y*16 + n` and `nn = y*16 + n` |
| Opcode.LiteralNibbles | src/chip8.rs:37-44 | no contract of its own: `Opcode.LiteralNibblesDropHighDigits` states what it returns |
| Opcode.LiteralX | src/chip8.rs:58-60 | as written, `x()` is a multiple of 256 below 4096, never a shifted-down digit |
| Opcode.LiteralY | src/chip8.rs:62-64 | as written, `y()` is a multiple of 16 below 256, never a shifted-down digit |
| Opcode.LiteralNibblesDropHighDigits | src/chip8.rs:37-44 | as written, the first two digits are always 0, the third is 16 times the digit, only the last is right |
| Opcode.LiteralRegisterFieldsScaled | src/chip8.rs:58-64 | as written, `x()` is 256 times and `y()` 16 times the register address, so out of register range exactly when the digit is nonzero |
| Instruction.Decode | src/chip8.rs:104-118 | every word decodes; operands fit their fields and register addresses are below 16; an unsupported result carries the word |
| Instruction.DecodeZeroFamily | src/chip8.rs:106-108 | in the `0___` family, `0x00E0` and only it clears the screen, `0x00EE` and only it returns, every other word goes to `0NNN` with its 12-bit address |
| Instruction.DecodeUnsupportedIff | src/chip8.rs:113-116 | a word is unsupported exactly when its leading digit is 8 or more, or it is `5XY_` with a nonzero last digit |
| Instruction.EncodeDecode | src/chip8.rs:104-118 | decoding loses nothing: encoding the instruction of any word gives the word back |
| Instruction.DecodeEncode | src/chip8.rs:104-118 | every instruction the dispatch can select is decoded from its own encoding |
| Instruction.DecodeIsCanonical | src/chip8.rs:104-118 | the dispatch yields only canonical instructions, so the two round trips cover every word and every result |
| Instruction.DecodeAsWritten | src/chip8.rs:105-116 | no contract of its own: `Instruction.DecodeAsWrittenAlwaysMachineRoutine` states that it selects `0NNN` for every word |
| Instruction.DecodeAsWrittenAlwaysMachineRoutine | src/chip8.rs:105-116 | as written, every word, whatever its digits, selects the `0NNN` arm |
| Instruction.DecodeAsWrittenCounterexample | src/chip8.rs:105-114 | `0x6099` should load `0x99` into register 0 and `0x00E0` should clear the screen, but as written both select `0NNN` |
| Machine.New | src/chip8.rs:68-82 | the new state has the fixed array sizes and is all zero: registers, memory, stack, counters, timers, and no key down |
| Machine.ResetIsUnique | src/chip8.rs:68-82 | any state of the right shape that is all zero is the one `new()` builds |
| Machine.Fetch | src/chip8.rs:97-101 | succeeds exactly when `program_counter + 1 < 4096`; the high byte of the word is the cell at the program counter, the low byte the next cell; otherwise reports the first index past memory |
| Machine.FetchStoreWord | src/chip8.rs:97-101 | a word stored big-endian at the program counter is fetched back unchanged |
| Machine.StoreFetchedWord | src/chip8.rs:97-101 | storing the fetched word back leaves the state unchanged, so fetch reads exactly those two cells |
| Machine.LoadRegister | src/chip8.rs:168-172 | register `x` holds `nn` afterwards; every other register and every other field, the program counter included, is unchanged |
| Machine.AddToRegister | src/chip8.rs:174-178 | register `x` holds `old + nn` when that is below 256 and `old + nn - 256` otherwise; nothing else changes |
| Machine.AddToRegisterAsWritten | src/chip8.rs:176-178 | the checked `u8` addition fails exactly when `old + nn` exceeds 255, and otherwise stores the sum with nothing else changed |
| Machine.Execute | src/chip8.rs:104-118 | only `6XNN` and `7XNN` produce a new state, which differs from the old one in register `x` at most; unsupported words are reported as such exactly when no arm accepts them; every other word reports its unimplemented handler |
| Machine.LoadRegisterOverwrites | src/chip8.rs:170-172 | a second load to the same register replaces the first |
| Machine.LoadRegisterCurrentValue | src/chip8.rs:170-172 | loading the value a register already holds changes nothing |
| Machine.LoadRegistersCommute | src/chip8.rs:170-172 | loads into two different registers commute |
| Machine.AddIsLoadOfWrappedSum | src/chip8.rs:174-178 | an add is a load of the sum modulo 256 |
| Machine.AddToRegisterComposes | src/chip8.rs:176-178 | two adds to one register are one add of the sum modulo 256 |
| Machine.AddZeroIsIdentity | src/chip8.rs:176-178 | adding zero changes nothing |
| Machine.AddAgreesWithoutOverflow | src/chip8.rs:176-178 | when `old + nn < 256` the checked and the wrapping add give the same state |
| Machine.AddOverflowCounterexample | src/chip8.rs:177 | with `0xFF` in the register, adding 1 fails under the checked add and leaves 0 under the wrapping add |
| Machine.ExecuteLoad | src/chip8.rs:114 | a word with leading digit 6 stores its `nn` in register `x` and changes nothing else |
| Machine.ExecuteAdd | src/chip8.rs:115 | a word with leading digit 7 adds its `nn` to register `x` modulo 256 and changes nothing else |
| Machine.ExecuteNotImplemented | src/chip8.rs:106-113 | every accepted word below `0x6000` selects a handler without a body |
| Machine.LoadImmediateScenario | src/chip8.rs:90-93 | bytes `0x60, 0x99` at the program counter fetch as `0x6099`, whose execution leaves `0x99` in register 0 and the program counter where it was |
| Machine.NewFirstStep | src/chip8.rs:68-93 | a new machine fetches the zero word at address 0, which selects the `0NNN` handler |
| Machine.ExecuteAsWritten | src/chip8.rs:104-118 | no contract of its own: `Machine.ExecuteAsWrittenNeverRuns` states that every word ends in the `0NNN` handler |
| Machine.ExecuteAsWrittenNeverRuns | src/chip8.rs:104-118 | as written, every word ends in the `0NNN` handler: no word reaches `op_6xnn` or `op_7xnn`, and none is reported unsupported |

## Left out

- `src/main.rs`: the host loop that calls `new`, `load` and `emulate_cycle` forever; it has no logic.
- `load` (src/chip8.rs:84-87): its body is `todo!()`.
- `emulate_cycle` (src/chip8.rs:89-95): it fetches and executes, then reaches `todo!()`; the model has `Fetch` and `Execute` separately and composes them only in the scenario lemmas. No program-counter advance is modelled because no code performs one.
- `op_0nnn`, `op_00e0`, `op_00ee`, `op_1nnn`, `op_2nnn`, `op_3xnn`, `op_4xnn`, `op_5xy0` (src/chip8.rs:120-166): their bodies are `todo!()`; they are dispatch targets (`Instr` constructors) and executing one yields the `NotImplemented` fault.
- The stack, stack pointer, index register, timers and keypad are state fields only; no code in `src/chip8.rs` reads or writes them after `new()`.
- Fonts, the framebuffer, drawing, the `8XY_` arithmetic, random numbers, timer countdown and keypad input do not exist in this source.
- `usize` fields are unbounded naturals; the overflow of `program_counter + 1` at the top of `usize` is not modelled.
- Opcode.Nn: it has no contract of its own; its meaning (`nn = y*16 + n`, the low byte) is stated in `Opcode.FieldsConsistent`.
- Opcode.LiteralNibbles, Instruction.DecodeAsWritten, Machine.ExecuteAsWritten: no contracts of their own; what they return is stated in `Opcode.LiteralNibblesDropHighDigits`, `Instruction.DecodeAsWrittenAlwaysMachineRoutine` and `Machine.ExecuteAsWrittenNeverRuns`, which keeps the unreachable arms of the literal match free of facts that contradict them.
- Machine.Execute: dispatches on the shifted digits (`Nibbles`) and register fields rather than the unshifted ones the source reads, which is what makes the `6XNN`, `7XNN` and unsupported arms reachable at all, and wraps `7XNN` (the source's `u8 +=` traps only with overflow checks on); see Findings. `Machine.ExecuteAsWritten` models the literal dispatch.
- Panics from Rust indexing with a register index of 16 or more are excluded by the `requires` of `LoadRegister` and `AddToRegister`; the literal dispatch reports them as `RegisterOutOfBounds`.

## Findings

| source | as written | input that shows it | evidently intended | confidence | as-written member | corrected member |
|---|---|---|---|---|---|---|
| src/chip8.rs:37-44 | `nibbles()` masks each digit and casts it to `u8` without shifting it down, so the first two digits are always 0 and the third is 16 times the digit; the match in `execute` therefore sends every word to the `0NNN` arm | `0x6099` selects `op_0nnn(0x099)`; `0x00E0` selects `op_0nnn(0x0E0)` instead of clearing the screen | each digit shifted down to 0..15, so `0x6099` selects `op_6xnn(0, 0x99)` | high, not executed | Instruction.DecodeAsWrittenAlwaysMachineRoutine | Instruction.DecodeEncode |
| src/chip8.rs:58-64 | `x()` and `y()` mask without shifting, returning 256 and 16 times the register address | `0x6199`: `x()` is 256, and `registers[256]` is past the 16 registers | `x()` and `y()` in 0..15 | high, not executed | Opcode.LiteralRegisterFieldsScaled | Opcode.FieldsConsistent |
| src/chip8.rs:177 | `registers[x] += nn` on `u8` traps on overflow when overflow checks are on (debug builds) | register `x` holding `0xFF`, `nn = 1` | the add wraps modulo 256 with no flag, as `7XNN` does in CHIP-8 | medium, not executed | Machine.AddOverflowCounterexample | Machine.AddToRegisterComposes |
