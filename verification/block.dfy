/** The 58-word GPIO register block as a value: what `set_mode`,
    `set_level` and `clear_all` do to its words, and the write-1-to-affect
    rule by which stores into the set and clear registers move the pins'
    output levels (src/lib.rs:87-129). */
module Block {
  import opened Registers

  /** The block after `set_mode(pin, mode)`: the pin's function-select
      register with its 3-bit field replaced. */
  function SetModeWords(words: seq<bv32>, pin: Pin, mode: PinMode): (r: seq<bv32>)
    requires |words| == RegisterCount as int
    ensures |r| == |words|
    ensures forall j: bv32 :: j < RegisterCount && j != GPFSEL0 + FselIndex(pin) ==> r[j] == words[j]
    ensures ModeOf(r, pin) == Some(mode)
  {
    var index := GPFSEL0 + FselIndex(pin);
    words[index := WithMode(words[index], FselShift(pin), mode)]
  }

  /** The pin's 3-bit function-select field in the block, whichever of
      the eight codes it holds. */
  function FieldOf(words: seq<bv32>, pin: Pin): (field: bv32)
    requires |words| == RegisterCount as int
    ensures field < 8
  {
    FieldAt(words[GPFSEL0 + FselIndex(pin)], FselShift(pin))
  }

  /** The pin's function as its field in the block reads back. */
  function ModeOf(words: seq<bv32>, pin: Pin): Option<PinMode>
    requires |words| == RegisterCount as int
  {
    DecodeMode(FieldOf(words, pin))
  }

  /** Two different pins that share a function-select register own
      different fields of it. */
  lemma SharedRegisterFields(pin: Pin, other: Pin)
    requires pin != other && FselIndex(pin) == FselIndex(other)
    ensures FselShift(pin) != FselShift(other)
  {
  }

  /** `set_mode` on one pin leaves every other pin's 3-bit field as it
      was, alternate-function codes included. */
  lemma {:induction false} SetModeKeepsOtherPins(words: seq<bv32>, pin: Pin, other: Pin, mode: PinMode)
    requires |words| == RegisterCount as int && pin != other
    ensures FieldOf(SetModeWords(words, pin, mode), other) == FieldOf(words, other)
  {
    if FselIndex(pin) == FselIndex(other) {
      SharedRegisterFields(pin, other);
      WithModeKeepsOtherFields(words[GPFSEL0 + FselIndex(pin)], FselShift(pin), mode, FselShift(other));
    }
  }

  /** `set_mode` twice with the same arguments leaves the block as one call. */
  lemma {:induction false} SetModeIdempotent(words: seq<bv32>, pin: Pin, mode: PinMode)
    requires |words| == RegisterCount as int
    ensures SetModeWords(SetModeWords(words, pin, mode), pin, mode) == SetModeWords(words, pin, mode)
  {
  }

  /** `set_mode` on two different pins gives the same block in either order. */
  lemma {:induction false} SetModeCommutes(words: seq<bv32>, pin: Pin, other: Pin, m: PinMode, n: PinMode)
    requires |words| == RegisterCount as int && pin != other
    ensures SetModeWords(SetModeWords(words, pin, m), other, n)
         == SetModeWords(SetModeWords(words, other, n), pin, m)
  {
    if FselIndex(pin) == FselIndex(other) {
      SetModeCommutesShared(words, pin, other, m, n);
    } else {
      SetModeCommutesApart(words, pin, other, m, n);
    }
  }

  /** `set_mode` on two pins that share a function-select register: both
      orders store the same word, by `WithModeCommutes`. */
  lemma {:induction false} SetModeCommutesShared(words: seq<bv32>, pin: Pin, other: Pin, m: PinMode, n: PinMode)
    requires |words| == RegisterCount as int && pin != other && FselIndex(pin) == FselIndex(other)
    ensures SetModeWords(SetModeWords(words, pin, m), other, n)
         == SetModeWords(SetModeWords(words, other, n), pin, m)
  {
    var i, s, t := GPFSEL0 + FselIndex(pin), FselShift(pin), FselShift(other);
    SharedRegisterFields(pin, other);
    WithModeCommutes(words[i], s, t, m, n);
    assert SetModeWords(SetModeWords(words, pin, m), other, n) == words[i := WithMode(WithMode(words[i], s, m), t, n)];
    assert SetModeWords(SetModeWords(words, other, n), pin, m) == words[i := WithMode(WithMode(words[i], t, n), s, m)];
  }

  /** `set_mode` on two pins in different function-select registers: the
      two calls store into different words. */
  lemma {:induction false} SetModeCommutesApart(words: seq<bv32>, pin: Pin, other: Pin, m: PinMode, n: PinMode)
    requires |words| == RegisterCount as int && FselIndex(pin) != FselIndex(other)
    ensures SetModeWords(SetModeWords(words, pin, m), other, n)
         == SetModeWords(SetModeWords(words, other, n), pin, m)
  {
  }

  /** A `set_mode` call as a value: the pin and the mode requested. */
  datatype ModeCall = ModeCall(pin: Pin, mode: PinMode)

  /** The block after the `set_mode` calls `calls`, made in order. */
  function SetModes(words: seq<bv32>, calls: seq<ModeCall>): (r: seq<bv32>)
    requires |words| == RegisterCount as int
    ensures |r| == |words|
  {
    if calls == [] then words
    else
      var last := calls[|calls| - 1];
      SetModeWords(SetModes(words, calls[..|calls| - 1]), last.pin, last.mode)
  }

  /** The mode named by the last of `calls` that names pin `p`, or `None`
      when none does. */
  function LastMode(calls: seq<ModeCall>, p: Pin): Option<PinMode>
  {
    if calls == [] then None
    else if calls[|calls| - 1].pin == p then Some(calls[|calls| - 1].mode)
    else LastMode(calls[..|calls| - 1], p)
  }

  /** After any sequence of `set_mode` calls, each pin reads back the mode
      of the last call on it; a pin no call names keeps its 3-bit field,
      whatever code it holds. */
  lemma {:induction false} SetModesLastWins(words: seq<bv32>, calls: seq<ModeCall>, p: Pin)
    requires |words| == RegisterCount as int
    ensures LastMode(calls, p).Some? ==> ModeOf(SetModes(words, calls), p) == LastMode(calls, p)
    ensures LastMode(calls, p).None? ==> FieldOf(SetModes(words, calls), p) == FieldOf(words, p)
  {
    if calls != [] {
      var last, prefix := calls[|calls| - 1], calls[..|calls| - 1];
      SetModesLastWins(words, prefix, p);
      if last.pin != p {
        SetModeKeepsOtherPins(SetModes(words, prefix), last.pin, p, last.mode);
      }
    }
  }

  /** The output level latches of the two pin banks: bit `b` of `bank0`
      is the level of pin `b`, bit `b` of `bank1` that of pin `32 + b`. The
      set and clear registers act on these; they are not words of the
      block. */
  datatype Latches = Latches(bank0: bv32, bank1: bv32)

  /** The latch of the bank that holds the pin. */
  function BankOf(latches: Latches, pin: Pin): bv32
  {
    if pin / 32 == 0 then latches.bank0 else latches.bank1
  }

  /** The level of one pin: its bit in its bank's latch. */
  predicate Level(latches: Latches, pin: Pin)
  {
    Bit(BankOf(latches, pin), LevelBit(pin))
  }

  /** A latch after a store into its set register: every 1 bit of the word
      drives its pin high. */
  function SetBits(latch: bv32, value: bv32): (r: bv32)
    ensures value == 0 ==> r == latch
  {
    latch | value
  }

  /** A latch after a store into its clear register: every 1 bit of the
      word drives its pin low. */
  function ClearBits(latch: bv32, value: bv32): (r: bv32)
    ensures value == 0 ==> r == latch
  {
    latch & !value
  }

  /** Bit by bit, a set register store raises the bits written as 1 and
      keeps the others. */
  lemma SetBitsBit(latch: bv32, value: bv32, i: bv32)
    requires i < 32
    ensures Bit(SetBits(latch, value), i) == (Bit(latch, i) || Bit(value, i))
  {
  }

  /** Bit by bit, a clear register store lowers the bits written as 1 and
      keeps the others. */
  lemma ClearBitsBit(latch: bv32, value: bv32, i: bv32)
    requires i < 32
    ensures Bit(ClearBits(latch, value), i) == (Bit(latch, i) && !Bit(value, i))
  {
  }

  /** A store into a set or clear register acts on the pin when the word
      has the pin's bit set and the register is the pin's own. */
  predicate Addresses(index: bv32, value: bv32, pin: Pin)
  {
    Bit(value, LevelBit(pin)) && (index == GPSET0 + pin / 32 || index == GPCLR0 + pin / 32)
  }

  /** The latches after storing `value` into word `index` of the block:
      the set and clear registers of each bank act on that bank's latch,
      and a store anywhere else leaves both latches alone. */
  function WriteEffect(latches: Latches, index: bv32, value: bv32): (r: Latches)
    ensures value == 0 ==> r == latches
    ensures !(GPSET0 <= index < GPSET0 + 2 || GPCLR0 <= index < GPCLR0 + 2) ==> r == latches
  {
    if index == GPSET0 then latches.(bank0 := SetBits(latches.bank0, value))
    else if index == GPSET0 + 1 then latches.(bank1 := SetBits(latches.bank1, value))
    else if index == GPCLR0 then latches.(bank0 := ClearBits(latches.bank0, value))
    else if index == GPCLR0 + 1 then latches.(bank1 := ClearBits(latches.bank1, value))
    else latches
  }

  /** Write-1-to-affect: a store moves only the pins it addresses, a pin
      addressed through a set register ends high and one addressed through
      a clear register ends low. */
  lemma {:induction false} WriteEffectLevel(latches: Latches, index: bv32, value: bv32, p: Pin)
    ensures Level(WriteEffect(latches, index, value), p)
         == if !Addresses(index, value, p) then Level(latches, p) else index < GPCLR0
  {
    var r, i := WriteEffect(latches, index, value), LevelBit(p);
    if index == GPSET0 + p / 32 {
      assert BankOf(r, p) == SetBits(BankOf(latches, p), value);
      SetBitsBit(BankOf(latches, p), value, i);
    } else if index == GPCLR0 + p / 32 {
      assert BankOf(r, p) == ClearBits(BankOf(latches, p), value);
      ClearBitsBit(BankOf(latches, p), value, i);
    } else {
      assert BankOf(r, p) == BankOf(latches, p);
    }
  }

  /** Storing the pin's one-hot word into its set (high) or clear (low)
      register changes that pin's level to `level` and no other. */
  lemma {:induction false} SetLevelEffect(latches: Latches, pin: Pin, level: bool, p: Pin)
    ensures Level(WriteEffect(latches, LevelWord(pin, level), OneHot(pin)), p)
         == if p == pin then level else Level(latches, p)
  {
    WriteEffectLevel(latches, LevelWord(pin, level), OneHot(pin), p);
    OneHotBit(pin, LevelBit(p));
    if p != pin && p / 32 == pin / 32 {
      LevelBitsDiffer(p, pin);
    }
  }

  /** For one pin, the later of two `set_level` calls decides its level;
      no other pin moves. */
  lemma {:induction false} LastWriteWins(latches: Latches, pin: Pin, first: bool, second: bool, p: Pin)
    ensures var mid := WriteEffect(latches, LevelWord(pin, first), OneHot(pin));
            Level(WriteEffect(mid, LevelWord(pin, second), OneHot(pin)), p)
              == if p == pin then second else Level(latches, p)
  {
    SetLevelEffect(latches, pin, first, p);
    SetLevelEffect(WriteEffect(latches, LevelWord(pin, first), OneHot(pin)), pin, second, p);
  }

  /** Driving one pin high and then another pin low leaves the first high. */
  lemma {:induction false} SetLevelIsolation(latches: Latches, high: Pin, low: Pin)
    requires high != low
    ensures var mid := WriteEffect(latches, LevelWord(high, true), OneHot(high));
            Level(WriteEffect(mid, LevelWord(low, false), OneHot(low)), high)
  {
    SetLevelEffect(latches, high, true, high);
    SetLevelEffect(WriteEffect(latches, LevelWord(high, true), OneHot(high)), low, false, high);
  }

  /** A `set_level` call as a value: the pin and the level requested. */
  datatype LevelCall = LevelCall(pin: Pin, level: bool)

  /** The latches after the `set_level` calls `calls`, made in order. */
  function SetLevels(latches: Latches, calls: seq<LevelCall>): Latches
  {
    if calls == [] then latches
    else
      var last := calls[|calls| - 1];
      var before := SetLevels(latches, calls[..|calls| - 1]);
      WriteEffect(before, LevelWord(last.pin, last.level), OneHot(last.pin))
  }

  /** The level named by the last of `calls` that names pin `p`, or
      `initial` when none does. */
  function LastLevel(calls: seq<LevelCall>, p: Pin, initial: bool): bool
  {
    if calls == [] then initial
    else if calls[|calls| - 1].pin == p then calls[|calls| - 1].level
    else LastLevel(calls[..|calls| - 1], p, initial)
  }

  /** After any sequence of `set_level` calls, each pin is at the level of
      the last call on it, whichever register that call stored into; a pin
      no call names keeps its level. */
  lemma {:induction false} SetLevelsLastWins(latches: Latches, calls: seq<LevelCall>, p: Pin)
    ensures Level(SetLevels(latches, calls), p) == LastLevel(calls, p, Level(latches, p))
  {
    if calls != [] {
      var last, prefix := calls[|calls| - 1], calls[..|calls| - 1];
      SetLevelsLastWins(latches, prefix, p);
      SetLevelEffect(SetLevels(latches, prefix), last.pin, last.level, p);
    }
  }

  /** `set_level` stores only into a set or clear register, so every pin's
      3-bit function-select field is as before. */
  lemma {:induction false} SetLevelKeepsModes(words: seq<bv32>, pin: Pin, level: bool, other: Pin)
    requires |words| == RegisterCount as int
    ensures FieldOf(words[LevelWord(pin, level) := OneHot(pin)], other) == FieldOf(words, other)
  {
  }

  /** `clear_all` stores zero words into GPCLR0 and GPCLR1; a zero word
      addresses no pin, so no pin's level changes. */
  lemma {:induction false} ClearAllKeepsLevels(latches: Latches)
    ensures WriteEffect(WriteEffect(latches, GPCLR0, 0), GPCLR0 + 1, 0) == latches
  {
  }
}
