/** The 32-bit handle of a long timer: bit 31 marks the long path, bits 13..30
    carry the low bits of the generation counter and bits 0..12 the wheel slot.
    Bitwise operators on `uint32_t` are written here as their arithmetic
    equivalents on non-negative integers: `t & 8191` is `t % 8192`,
    `t & 0x80000000` is `t >= 0x80000000`, `x << 13` kept to 32 bits is
    `x * 8192 % 2^32`, and `|` of disjoint bit ranges is addition. */
module Handle {
  import opened Types

  /** TIMER_LONG_SHIFT */
  const LongShift: nat := 13
  /** TIMER_NUM_LONG_SLOTS = 1 << TIMER_LONG_SHIFT */
  const Slots: nat := 0x2000
  /** The top bit, 0x80000000, that marks a long handle. */
  const LongFlag: nat := 0x8000_0000
  /** Number of counter values that the 18 bits 13..30 can tell apart. */
  const GenSpan: nat := 0x4_0000

  /** `t & 0x80000000`: bit 31 of the handle is set, so the handle belongs
      to the long-timer wheel. For a 32-bit value that is the same as lying
      in the upper half of the range. */
  function IsLong(t: u32): (b: bool)
    ensures b <==> t as int >= LongFlag
  {
    (t as int / LongFlag) % 2 == 1
  }

  /** `t & TIMER_LONG_MASK`: the wheel slot a long handle names. */
  function SlotOf(t: u32): (s: nat)
    ensures s < Slots
  {
    t as int % Slots
  }

  /** Bits 13..30: the generation counter as far as the handle keeps it. */
  function GenOf(t: u32): (g: nat)
    ensures g < GenSpan
  {
    (t as int / Slots) % GenSpan
  }

  /** `((id++) << TIMER_LONG_SHIFT) | ix | 0x80000000`, with `id` the
      generation counter before the increment. The result decodes to the
      slot it was built from and to the counter modulo 2^18. */
  function EncodeLong(gen: nat, slot: nat): (h: u32)
    requires slot < Slots
    ensures IsLong(h)
    ensures SlotOf(h) == slot
    ensures GenOf(h) == gen % GenSpan
  {
    var shifted := (gen * Slots) % 0x1_0000_0000;  // id << 13, truncated to 32 bits
    var withSlot := shifted + slot;                 // | ix: the low 13 bits of shifted are 0
    PackedValue(gen, slot);
    (if withSlot >= LongFlag then withSlot else withSlot + LongFlag) as u32  // | 0x80000000
  }

  /** The packed handle as a number: the flag, then the counter modulo 2^18
      in bits 13..30, then the slot. */
  lemma PackedValue(gen: nat, slot: nat)
    requires slot < Slots
    ensures var withSlot := (gen * Slots) % 0x1_0000_0000 + slot;
      var h := if withSlot >= LongFlag then withSlot else withSlot + LongFlag;
      && h == LongFlag + (gen % GenSpan) * Slots + slot
      && h % Slots == slot
      && (h / Slots) % GenSpan == gen % GenSpan
  {
    var q, r := gen / 0x8_0000, gen % 0x8_0000;
    assert gen * Slots == q * 0x1_0000_0000 + r * Slots;
    assert (gen * Slots) % 0x1_0000_0000 == r * Slots;
    var g := gen % GenSpan;
    assert r == (r / GenSpan) * GenSpan + g;
    var h := LongFlag + g * Slots + slot;
    assert h / Slots == 0x4_0000 + g;
  }

  /** Two long handles are equal exactly when they name the same slot and
      their counters agree modulo 2^18. */
  lemma EncodeInjective(g1: nat, s1: nat, g2: nat, s2: nat)
    requires s1 < Slots && s2 < Slots
    ensures EncodeLong(g1, s1) == EncodeLong(g2, s2) <==> (g1 % GenSpan == g2 % GenSpan && s1 == s2)
  {
    PackedValue(g1, s1);
    PackedValue(g2, s2);
  }

  /** The counter wraps around in the handle: arms 2^18 generations apart
      into the same slot get the same handle. */
  lemma GenerationAlias(gen: nat, slot: nat)
    requires slot < Slots
    ensures EncodeLong(gen + GenSpan, slot) == EncodeLong(gen, slot)
  {
    assert (gen + GenSpan) % GenSpan == gen % GenSpan;
    EncodeInjective(gen + GenSpan, slot, gen, slot);
  }

  /** Every handle with bit 31 set is the encoding of its own slot and counter
      bits, so the long path of `ofp_timer_cancel` can be reached by any such
      value, the INVALID handle included when its top bit is set. */
  lemma DecodeEncode(t: u32)
    requires IsLong(t)
    ensures EncodeLong(GenOf(t), SlotOf(t)) == t
  {
    var g, s := GenOf(t), SlotOf(t);
    PackedValue(g, s);
    assert t as int == LongFlag + (t as int - LongFlag) / Slots * Slots + s;
    assert (t as int - LongFlag) / Slots == g;
  }
}
