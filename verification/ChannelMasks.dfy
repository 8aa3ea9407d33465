/** Bitsets over sixteen channels (src/aspect.rs). */
module ChannelMasks {
  /** Bit k stands for channel k. */
  type ChannelMask = bv16

  /** One channel, as the mask that holds just its bit. */
  type Channel = bit: bv16 | bit != 0 && bit & (bit - 1) == 0 witness 1

  predicate Hears(mask: ChannelMask, channel: Channel) {
    mask & channel != 0
  }

  function Shared(a: ChannelMask, b: ChannelMask): ChannelMask {
    a & b
  }

  function Joined(a: ChannelMask, b: ChannelMask): ChannelMask {
    a | b
  }

  function Without(a: ChannelMask, b: ChannelMask): ChannelMask {
    a & !b
  }

  predicate Silent(mask: ChannelMask) {
    mask == 0
  }

  /** A one-bit mask is wholly in or wholly out. */
  lemma OneBit(a: ChannelMask, bit: Channel)
    ensures a & bit == 0 || a & bit == bit
  {}

  lemma AndBit(a: bv16, b: bv16, bit: bv16)
    requires a & bit == 0 || a & bit == bit
    requires b & bit == 0 || b & bit == bit
    ensures ((a & b) & bit != 0) == (a & bit != 0 && b & bit != 0)
  {
    assert (a & b) & bit == (a & bit) & (b & bit);
  }

  lemma ClearBit(a: bv16, b: bv16, bit: bv16)
    requires a & bit == 0 || a & bit == bit
    requires b & bit == 0 || b & bit == bit
    ensures ((a & !b) & bit != 0) == (a & bit != 0 && b & bit == 0)
  {
    assert (a & !b) & bit == (a & bit) & !(b & bit);
  }

  lemma SharedHears(a: ChannelMask, b: ChannelMask, channel: Channel)
    ensures Hears(Shared(a, b), channel) <==> Hears(a, channel) && Hears(b, channel)
  {
    OneBit(a, channel);
    OneBit(b, channel);
    AndBit(a, b, channel);
  }

  lemma OrClear(a: bv16, b: bv16, bit: bv16)
    requires a & bit == 0 && b & bit == 0
    ensures (a | b) & bit == 0
  {}

  lemma OrLeft(a: bv16, b: bv16, bit: bv16)
    requires a & bit != 0
    ensures (a | b) & bit != 0
  {}

  lemma OrRight(a: bv16, b: bv16, bit: bv16)
    requires b & bit != 0
    ensures (a | b) & bit != 0
  {}

  lemma JoinedUnheard(a: ChannelMask, b: ChannelMask, channel: Channel)
    requires !Hears(a, channel) && !Hears(b, channel)
    ensures !Hears(Joined(a, b), channel)
  {
    OrClear(a, b, channel);
  }

  lemma JoinedHeardLeft(a: ChannelMask, b: ChannelMask, channel: Channel)
    requires Hears(a, channel)
    ensures Hears(Joined(a, b), channel)
  {
    OrLeft(a, b, channel);
  }

  lemma JoinedHeardRight(a: ChannelMask, b: ChannelMask, channel: Channel)
    requires Hears(b, channel)
    ensures Hears(Joined(a, b), channel)
  {
    OrRight(a, b, channel);
  }

  lemma JoinedHears(a: ChannelMask, b: ChannelMask, channel: Channel)
    ensures Hears(Joined(a, b), channel) <==> Hears(a, channel) || Hears(b, channel)
  {
    hide *;
    if Hears(a, channel) { JoinedHeardLeft(a, b, channel); }
    else if Hears(b, channel) { JoinedHeardRight(a, b, channel); }
    else { JoinedUnheard(a, b, channel); }
  }

  lemma WithoutHears(a: ChannelMask, b: ChannelMask, channel: Channel)
    ensures Hears(Without(a, b), channel) <==> Hears(a, channel) && !Hears(b, channel)
  {
    OneBit(a, channel);
    OneBit(b, channel);
    ClearBit(a, b, channel);
  }

  lemma JoinedSilent(a: ChannelMask, b: ChannelMask)
    ensures Silent(Joined(a, b)) <==> Silent(a) && Silent(b)
  {}

  lemma SilentMeans(mask: ChannelMask, channel: Channel)
    ensures Silent(mask) ==> !Hears(mask, channel)
  {}

  /** The mask operations are the set operations on channels. */
  lemma MasksAreChannelSets(a: ChannelMask, b: ChannelMask, channel: Channel)
    ensures Hears(Shared(a, b), channel) <==> Hears(a, channel) && Hears(b, channel)
    ensures Hears(Joined(a, b), channel) <==> Hears(a, channel) || Hears(b, channel)
    ensures Hears(Without(a, b), channel) <==> Hears(a, channel) && !Hears(b, channel)
    ensures Silent(a) ==> !Hears(a, channel)
    ensures Silent(Joined(a, b)) <==> Silent(a) && Silent(b)
  {
    hide *;
    SharedHears(a, b, channel);
    JoinedHears(a, b, channel);
    WithoutHears(a, b, channel);
    SilentMeans(a, channel);
    JoinedSilent(a, b);
  }

  /** Masks compare as the unsigned integers they are. */
  predicate MaskLte(a: ChannelMask, b: ChannelMask) {
    a as int <= b as int
  }

  lemma MaskValueUnique(a: ChannelMask, b: ChannelMask)
    requires a as int == b as int
    ensures a == b
  {
    assert (a as int) as bv16 == a;
    assert (b as int) as bv16 == b;
  }

  lemma MaskLteTotal(a: ChannelMask, b: ChannelMask)
    ensures MaskLte(a, b) || MaskLte(b, a)
    ensures MaskLte(a, b) && MaskLte(b, a) ==> a == b
  {
    if a as int == b as int { MaskValueUnique(a, b); }
  }

  lemma MaskLteTransitive(a: ChannelMask, b: ChannelMask, c: ChannelMask)
    ensures MaskLte(a, b) && MaskLte(b, c) ==> MaskLte(a, c)
  {}
}
