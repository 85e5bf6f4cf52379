# saks GPIO register model

A Dafny model of the GPIO register layer of the Swiss Army Knife Shield
driver for the Raspberry Pi 4, and the proofs about it. The `Gpio` handle
owns the 58-word GPIO register block of the BCM2711, mapped into memory. It
offers three register operations:

- `set_mode` is a read-modify-write of a pin's 3-bit field in a
  function-select register (GPFSEL0–GPFSEL5). The register index is
  `pin / 10`, the field starts at bit `(pin % 10) * 3`, and the mode code is
  Input = 0, Output = 1.
- `set_level` stores the one-hot word `1 << (pin % 32)` into GPSET (high) or
  GPCLR (low) of the pin's 32-pin bank. Those registers are
  write-1-to-affect: a 1 bit moves its pin, a 0 bit does nothing.
- `clear_all` stores zero into GPCLR0 and GPCLR1. Dropping the handle calls
  `clear_all`.

The project has three modules:

- `Registers` (`registers.dfy`) holds the word offsets and the pin
  arithmetic: register index, field shift, clear mask, the 3-bit field
  update, and the set/clear word and bit of a pin. Pins, shifts and indices
  are `bv32`, as the driver's `u32` values are.
- `Block` (`block.dfy`) gives the block as a value (`seq<bv32>`) with what
  `set_mode` does to it. It also models the write-1-to-affect rule. The
  output levels live in two 32-bit latch words (`Latches`), one per bank,
  and `WriteEffect` gives the latches after a store into any word of the
  block.
- `Saks` (`gpio.dfy`) holds the class `Gpio`. It has the block as an
  `array<bv32>` and the latches as a ghost field. Each method performs the
  source's stores on the array and is proved against the `Block` functions.

Pins are generalised from `SaksPins` (only `Buzzer = 12`) to every BCM pin
0–57. `Registers.Buzzer` is the shield's one concrete pin.

## Model

| member | source | states |
|---|---|---|
| Registers.WordOffsets | src/lib.rs:12-14 | GPFSEL0, GPSET0 and GPCLR0 are word indices 0, 7 and 10: the byte offsets 0x00, 0x1c and 0x28 divided by the 4-byte word size |
| Registers.ModeCode | src/lib.rs:45-55 | a mode's code fits the 3-bit field, and decoding it gives the mode back |
| Registers.DecodeMode | src/lib.rs:45-49 | a field reads back as a mode exactly when it holds code 0 (Input) or 1 (Output) |
| Registers.FselExamples | src/lib.rs:38-92 | the comments' worked examples (lines 39, 42-43, 90 and 92): GPIO1 is field 3..5 of GPFSEL0, and the buzzer pin 12 is field 6..8 of GPFSEL1 |
| Registers.FselIndex | src/lib.rs:88-91 | the register index `pin / 10` selects the block of ten pins that holds the pin; it is at most 5, so the access stays in GPFSEL0–GPFSEL5, below GPSET0 |
| Registers.FselShift | src/lib.rs:92-93 | the shift is three times the pin's position within its group of ten, a multiple of 3 no larger than 27 |
| Registers.ClearMaskBits | src/lib.rs:100-102 | `!(0b111 << shift)` has exactly the three bits of the field clear and every other bit set |
| Registers.WithMode | src/lib.rs:99-104 | the written-back word holds the mode's code in the field and agrees with the old word on every bit outside it |
| Registers.WithModeKeepsOtherFields | src/lib.rs:99-102 | every other field of the register keeps its value |
| Registers.WithModeKeepsUnusedBits | src/lib.rs:38-40 | bits 30 and 31, which belong to no pin, keep their values |
| Registers.WithModeIdempotent | src/lib.rs:99-106 | writing the same mode into a field twice gives the word of one write |
| Registers.WithModeCommutes | src/lib.rs:99-106 | updates of two different fields of one register give the same word in either order |
| Registers.LevelWord | src/lib.rs:113-114 | a high level goes to word GPSET0 + pin / 32 and a low level to word GPCLR0 + pin / 32; both lie within the block |
| Registers.LevelBit | src/lib.rs:118 | the bit position `pin % 32` is below 32 and, with the bank, recovers the pin |
| Registers.OneHotBit | src/lib.rs:118 | `1 << (pin % 32)` has the pin's bit set and every other bit clear |
| Registers.LevelBitsDiffer | src/lib.rs:113-118 | two different pins of one bank have different bits in the set and clear words |
| Block.SetModeWords | src/lib.rs:87-107 | the block after `set_mode`: only word GPFSEL0 + pin / 10 changes, and the pin's mode reads back as the mode written |
| Block.SetModesLastWins | src/lib.rs:87-107 | after any sequence of `set_mode` calls, each pin reads back the mode of the last call on it, and a pin no call names keeps its 3-bit field bit for bit, alternate-function codes included |
| Block.SharedRegisterFields | src/lib.rs:91-93 | two different pins in one function-select register have different fields |
| Block.SetModeKeepsOtherPins | src/lib.rs:99-106 | `set_mode` on one pin leaves every other pin's 3-bit field unchanged, whatever code it holds |
| Block.SetModeIdempotent | src/lib.rs:87-107 | two `set_mode` calls with the same pin and mode leave the block as one call does |
| Block.SetModeCommutes | src/lib.rs:87-107 | `set_mode` on two different pins gives the same block in either order |
| Block.SetModeCommutesShared | src/lib.rs:99-106 | the same, for two pins in one function-select register |
| Block.SetModeCommutesApart | src/lib.rs:95-97 | the same, for two pins in different function-select registers |
| Block.SetBitsBit | src/lib.rs:115-117 | a store into a set register raises each pin whose bit is 1 and keeps the others |
| Block.ClearBitsBit | src/lib.rs:115-117 | a store into a clear register lowers each pin whose bit is 1 and keeps the others |
| Block.WriteEffect | src/lib.rs:115-117 | a zero word, or a store outside the four set and clear registers, leaves every latch unchanged |
| Block.WriteEffectLevel | src/lib.rs:115-117 | write-1-to-affect: a store moves only the pins it addresses; a pin addressed through GPSET ends high and one addressed through GPCLR ends low |
| Block.SetLevelEffect | src/lib.rs:111-119 | the `set_level` store gives the pin the requested level and leaves every other pin's level unchanged |
| Block.LastWriteWins | src/lib.rs:115-118 | after two `set_level` calls on one pin, the pin has the second level and no other pin has moved |
| Block.SetLevelsLastWins | src/lib.rs:111-119 | after any sequence of `set_level` calls, each pin is at the level of the last call on it, whether that call stored into GPSET or GPCLR, and a pin no call names keeps its level |
| Block.SetLevelIsolation | src/lib.rs:115-118 | driving one pin high and then a different pin low leaves the first pin high |
| Block.SetLevelKeepsModes | src/lib.rs:111-119 | the `set_level` store leaves every pin's 3-bit function-select field unchanged |
| Block.ClearAllKeepsLevels | src/lib.rs:126-129 | the two zero stores of `clear_all` change no pin's level |
| Saks.Gpio.constructor | src/lib.rs:29-31 | the handle owns the given 58-word block with the given latches |
| Saks.Gpio.Store | src/lib.rs:106-128 | the raw stores of lines 106, 118, 127 and 128: a store changes exactly one word of the block and updates the latches by the write-1-to-affect rule |
| Saks.Gpio.SetMode | src/lib.rs:87-107 | the block becomes `SetModeWords` of the old block; the pin's mode reads back as the mode written; every other pin's 3-bit field and every level are unchanged |
| Saks.Gpio.SetLevel | src/lib.rs:111-119 | only word LevelWord(pin, level) changes, to the one-hot word; the pin is then at `level`, every other pin keeps its level, and every pin's function-select field is unchanged |
| Saks.Gpio.ClearAll | src/lib.rs:126-129 | words 10 and 11 become zero, nothing else changes, and no level moves |
| Saks.Gpio.Drop | src/lib.rs:132-138 | teardown has the effect of `clear_all` |

## Left out

- `Gpio::new` (src/lib.rs:59-85) reads the board model from the device tree, opens and maps `/dev/gpiomem` through libc and panics on failure. All of that is I/O and foreign calls. The constructor receives the 58-word block and the initial latches instead.
- Saks.Gpio.Drop: the source's `drop` (src/lib.rs:132-138) only calls `clear_all`; it never releases the mapping, which lives until the process exits, so there is no unmapping to model. Only the file descriptor is closed, inside `Gpio::new` (src/lib.rs:81). The timing of the destructor is not modelled.
- Raw pointers, `unsafe` and volatile device memory are replaced by a plain array plus the ghost latches. Concurrent access by other processes is not modelled.
- The latches are the output latches that GPSET and GPCLR drive. For a pin in Input mode, the physical level on the pin is not modelled.
- `get_level` and GPLEV0 are commented out in the source (src/lib.rs:15, 121-124), so there is no read of the level register to model.
- Registers.DecodeMode: the six alternate-function codes 2–7 read back as `None`, because the driver never writes them. Another pin's field may hold one of them; the non-interference lemmas state equality of the whole 3-bit field (`Block.FieldOf`), so such a code is kept too.
- The `test_buzzer` and `feature` tests (src/lib.rs:140-157) drive real hardware with sleeps.
- `src/pin_map.rs` only defines pin constants. The examples (LED row, TM1637 clock) call a shift-register writer, display primitives and `saks::Saks`, none of which is in the crate: its root declares only the `pin_map` module and no `Saks` type. The buzzer example drives the pin through the external `rppal` crate. None of them is part of this model.
- Saks.Gpio.ClearAll: teardown does not drive the pins to a safe idle level, such as a silent buzzer. The code only stores zeros into GPCLR0 and GPCLR1, and under write-1-to-affect that moves no pin. The model follows the code and proves that the levels are unchanged (Block.ClearAllKeepsLevels).
