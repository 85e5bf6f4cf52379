/** Register layout of the BCM2711 GPIO block and the bit-field arithmetic
    that addresses one pin inside it (src/lib.rs). Everything here is pure:
    word indices, shifts, masks and the 3-bit function-select field. Pin
    numbers, shifts and word indices are `u32` values in the driver and
    `bv32` values here. */
module Registers {

  /** Number of 32-bit words in the mapped GPIO block. */
  const RegisterCount: bv32 := 58
  /** Bytes per register word (`size_of::<u32>()`). */
  const WordBytes: bv32 := 4
  /** Word index of GPFSEL0, the first function-select register. */
  const GPFSEL0: bv32 := 0x00
  /** Word index of GPSET0, at byte offset 0x1c. */
  const GPSET0: bv32 := 7
  /** Word index of GPCLR0, at byte offset 0x28. */
  const GPCLR0: bv32 := 10

  /** The word indices are the datasheet's byte offsets divided by the
      word size. */
  lemma WordOffsets()
    ensures GPFSEL0 * WordBytes == 0x00
    ensures GPSET0 * WordBytes == 0x1c && GPCLR0 * WordBytes == 0x28
  {
  }

  /** Number of GPIO lines of the BCM2711: pins 0 to 57. */
  const PinCount: bv32 := 58

  /** A pin in BCM numbering. */
  type Pin = p: bv32 | p < PinCount

  /** The buzzer of the shield is wired to BCM pin 12. */
  const Buzzer: Pin := 12

  /** The worked examples of the driver's comments: GPIO1 is bits 3 to 5
      of GPFSEL0, and the buzzer pin 12 is bits 6 to 8 of GPFSEL1. */
  lemma FselExamples()
    ensures FselIndex(1) == 0 && FselShift(1) == 3
    ensures FselIndex(Buzzer) == 1 && FselShift(Buzzer) == 6
  {
  }

  /** The two pin functions the driver selects. */
  datatype PinMode = Input | Output

  datatype Option<T> = None | Some(value: T)

  /** Bit `i` of a register word. */
  predicate Bit(w: bv32, i: bv32)
    requires i < 32
  {
    (w >> i) & 1 == 1
  }

  /** The 3-bit function-select code of a mode. */
  function ModeCode(mode: PinMode): (code: bv32)
    ensures code < 8
    ensures DecodeMode(code) == Some(mode)
  {
    match mode
    case Input => 0x0
    case Output => 0x1
  }

  /** Reads a 3-bit function-select code back as a mode; the other six codes
      select alternate functions, which the driver never writes. */
  function DecodeMode(code: bv32): (mode: Option<PinMode>)
    ensures mode.Some? <==> code == 0x0 || code == 0x1
  {
    if code == 0x0 then Some(Input)
    else if code == 0x1 then Some(Output)
    else None
  }

  /** Index, counted from GPFSEL0, of the function-select register that
      holds the pin's field: ten pins per register. */
  function FselIndex(pin: Pin): (index: bv32)
    ensures 10 * index <= pin < 10 * index + 10
    ensures index <= 5 && GPFSEL0 + index < GPSET0
  {
    pin / 10
  }

  /** A shift at which a 3-bit field starts; bits 30 and 31 belong to no
      field. */
  predicate FieldAligned(shift: bv32)
  {
    shift % 3 == 0 && shift <= 27
  }

  /** Position of the pin's 3-bit field inside its function-select
      register. */
  function FselShift(pin: Pin): (shift: bv32)
    ensures shift == 3 * (pin - 10 * FselIndex(pin))
    ensures FieldAligned(shift)
  {
    (pin % 10) * 3
  }

  /** The mask `!(0b111 << shift)`: all ones except the 3-bit field. */
  function ClearMask(shift: bv32): bv32
    requires shift <= 29
  {
    !((0x7 as bv32) << shift)
  }

  /** Exactly the three bits of the field are zero in the mask. */
  lemma ClearMaskBits(shift: bv32)
    requires shift <= 29
    ensures forall i: bv32 :: i < 32 ==> (Bit(ClearMask(shift), i) <==> !(shift <= i < shift + 3))
  {
  }

  /** The 3-bit field at `shift` of a register word. */
  function FieldAt(w: bv32, shift: bv32): (field: bv32)
    requires shift <= 29
    ensures field < 8
  {
    (w >> shift) & 0x7
  }

  /** The word `set_mode` writes back: `w` with the field at `shift`
      cleared and the mode's code ORed in. */
  function WithMode(w: bv32, shift: bv32, mode: PinMode): (r: bv32)
    requires FieldAligned(shift)
    ensures FieldAt(r, shift) == ModeCode(mode)
    ensures r & ClearMask(shift) == w & ClearMask(shift)
  {
    (w & ClearMask(shift)) | (ModeCode(mode) << shift)
  }

  /** The fields of the other nine pins sharing the register are kept. */
  lemma WithModeKeepsOtherFields(w: bv32, shift: bv32, mode: PinMode, other: bv32)
    requires FieldAligned(shift) && FieldAligned(other) && other != shift
    ensures FieldAt(WithMode(w, shift, mode), other) == FieldAt(w, other)
  {
  }

  /** Bits 30 and 31, which belong to no pin, are kept. */
  lemma WithModeKeepsUnusedBits(w: bv32, shift: bv32, mode: PinMode)
    requires FieldAligned(shift)
    ensures Bit(WithMode(w, shift, mode), 30) == Bit(w, 30)
    ensures Bit(WithMode(w, shift, mode), 31) == Bit(w, 31)
  {
  }

  /** Writing the same mode into a field twice gives the word of one write. */
  lemma WithModeIdempotent(w: bv32, shift: bv32, mode: PinMode)
    requires FieldAligned(shift)
    ensures WithMode(WithMode(w, shift, mode), shift, mode) == WithMode(w, shift, mode)
  {
  }

  /** Updates of two different fields of one register commute. */
  lemma WithModeCommutes(w: bv32, s: bv32, t: bv32, m: PinMode, n: PinMode)
    requires FieldAligned(s) && FieldAligned(t) && s != t
    ensures WithMode(WithMode(w, s, m), t, n) == WithMode(WithMode(w, t, n), s, m)
  {
  }

  /** Word index of the set (high) or clear (low) register that drives the
      pin: 32 pins per register. */
  function LevelWord(pin: Pin, level: bool): (index: bv32)
    ensures level ==> index == GPSET0 + pin / 32
    ensures !level ==> index == GPCLR0 + pin / 32
    ensures GPSET0 <= index < GPCLR0 + 2 && index < RegisterCount
  {
    (if level then GPSET0 else GPCLR0) + pin / 32
  }

  /** Position of the pin's bit in its set, clear and level registers. */
  function LevelBit(pin: Pin): (bit: bv32)
    ensures bit < 32 && 32 * (pin / 32) + bit == pin
  {
    pin % 32
  }

  /** The one-hot word `1 << (pin % 32)` written to a set or clear register. */
  function OneHot(pin: Pin): bv32
  {
    (1 as bv32) << LevelBit(pin)
  }

  /** The one-hot word has the pin's bit set and every other bit clear. */
  lemma OneHotBit(pin: Pin, i: bv32)
    requires i < 32
    ensures Bit(OneHot(pin), i) <==> i == LevelBit(pin)
  {
  }

  /** Two different pins of one bank have different bits. */
  lemma LevelBitsDiffer(pin: Pin, other: Pin)
    requires pin != other && pin / 32 == other / 32
    ensures LevelBit(pin) != LevelBit(other)
  {
  }
}
