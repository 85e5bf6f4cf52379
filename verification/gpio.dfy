/** The `Gpio` handle of the Swiss Army Knife Shield crate: the mapped GPIO
    register block and the three register operations on it
    (src/lib.rs:29-138). */
module Saks {
  import opened Registers
  import opened Block

  class Gpio {
    /** The mapped register block (`mapped_addr`); the handle never points
        it elsewhere. */
    const regs: array<bv32>
    /** The output level latches of the two pin banks. The hardware keeps
        them behind the write-1-to-affect set and clear registers, so they
        are not words of the block. */
    ghost var latches: Latches

    ghost predicate Valid()
    {
      regs.Length == RegisterCount as int
    }

    /** The level the pin is driven to. */
    ghost predicate IsHigh(pin: Pin)
      reads this
    {
      Level(latches, pin)
    }

    /** Takes ownership of a freshly mapped 58-word block whose pins are
        latched at `initial`. */
    constructor (block: array<bv32>, ghost initial: Latches)
      requires block.Length == RegisterCount as int
      ensures Valid()
      ensures regs == block && latches == initial
    {
      regs := block;
      latches := initial;
    }

    /** A store of `value` into word `index` of the mapped block, with the
        device's write-1-to-affect side effect on the level latches. */
    method Store(index: bv32, value: bv32)
      requires Valid() && index < RegisterCount
      modifies regs, this`latches
      ensures regs[..] == old(regs[..])[index := value]
      ensures latches == WriteEffect(old(latches), index, value)
    {
      regs[index] := value;
      latches := WriteEffect(latches, index, value);
    }

    /** `set_mode`: read-modify-write of the pin's 3-bit field in its
        function-select register. */
    method SetMode(pin: Pin, mode: PinMode)
      requires Valid()
      modifies regs, this`latches
      ensures regs[..] == SetModeWords(old(regs[..]), pin, mode)
      ensures ModeOf(regs[..], pin) == Some(mode)
      ensures forall q: Pin :: q != pin ==> FieldOf(regs[..], q) == FieldOf(old(regs[..]), q)
      ensures latches == old(latches)
    {
      var index := GPFSEL0 + FselIndex(pin);
      var shift := FselShift(pin);
      var value := regs[index];
      // clear the 3-bit field, then OR the mode code into it
      value := WithMode(value, shift, mode);
      Store(index, value);
      assert regs[..] == SetModeWords(old(regs[..]), pin, mode);
      forall q: Pin | q != pin
        ensures FieldOf(regs[..], q) == FieldOf(old(regs[..]), q)
      {
        SetModeKeepsOtherPins(old(regs[..]), pin, q, mode);
      }
    }

    /** `set_level`: stores the pin's one-hot word into GPSET (high) or
        GPCLR (low) of the pin's bank. */
    method SetLevel(pin: Pin, level: bool)
      requires Valid()
      modifies regs, this`latches
      ensures regs[..] == old(regs[..])[LevelWord(pin, level) := OneHot(pin)]
      ensures latches == WriteEffect(old(latches), LevelWord(pin, level), OneHot(pin))
      ensures IsHigh(pin) == level
      ensures forall p: Pin :: p != pin ==> IsHigh(p) == old(IsHigh(p))
      ensures forall q: Pin :: FieldOf(regs[..], q) == FieldOf(old(regs[..]), q)
    {
      var index := (if level then GPSET0 else GPCLR0) + pin / 32;
      Store(index, (1 as bv32) << (pin % 32));
      forall p: Pin
        ensures IsHigh(p) == if p == pin then level else old(IsHigh(p))
      {
        SetLevelEffect(old(latches), pin, level, p);
      }
      forall q: Pin
        ensures FieldOf(regs[..], q) == FieldOf(old(regs[..]), q)
      {
        SetLevelKeepsModes(old(regs[..]), pin, level, q);
      }
    }

    /** `clear_all`: stores zero into GPCLR0 and GPCLR1. */
    method ClearAll()
      requires Valid()
      modifies regs, this`latches
      ensures regs[..] == old(regs[..])[GPCLR0 := 0][GPCLR0 + 1 := 0]
      ensures latches == old(latches)
    {
      Store(GPCLR0, 0);
      Store(GPCLR0 + 1, 0);
    }

    /** Teardown of the handle (`drop`): `clear_all` and nothing else; the
        mapping is never released, so there is no unmapping here. */
    method Drop()
      requires Valid()
      modifies regs, this`latches
      ensures regs[..] == old(regs[..])[GPCLR0 := 0][GPCLR0 + 1 := 0]
      ensures latches == old(latches)
    {
      ClearAll();
    }
  }
}
