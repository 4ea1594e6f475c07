/** What a device pixel says: the colour that went into it, channel by channel (internal/fbui/fb_linux.go). */
module PixelBits {
  import opened GoStrings
  import opened Bits
  import opened Grid
  import opened Screen

  /** Bit k of the pixel is in the channel, and is set there: the channel holds the top bits of the component. */
  predicate ChannelBit(v: byte, c: Channel, k: nat) {
    c.length <= 8 && c.offset <= k < c.offset + c.length && Bit(v as int, 8 - c.length + (k - c.offset))
  }

  lemma ComponentBit(v: byte, c: Channel, k: nat)
    ensures Bit(Component(v, c), k) <==> k < 32 && ChannelBit(v, c, k)
  {
    hide Bit, Pow2, ShiftLeft, ShiftRight;
    var n := (8 - c.length) % 0x1_0000_0000;
    var cut := ShiftRight(v as int, n);
    BitOfShiftLeft(cut, c.offset, k);
    if c.offset <= k {
      BitOfShiftRight(v as int, n, k - c.offset);
      Powers();
      if n + (k - c.offset) >= 8 {
        BitAbove(v as int, 8, n + (k - c.offset));
      }
    }
  }

  lemma PackBit(d: Device, c: Color, k: nat)
    ensures Bit(Pack(d, c), k)
            <==> k < 32 && (ChannelBit(c.r, d.red, k) || ChannelBit(c.g, d.green, k) || ChannelBit(c.b, d.blue, k))
  {
    hide Bit, Or, Component, ChannelBit;
    var r, g, b := Component(c.r, d.red), Component(c.g, d.green), Component(c.b, d.blue);
    BitOfOr(Or(r, g), b, k);
    BitOfOr(r, g, k);
    ComponentBit(c.r, d.red, k);
    ComponentBit(c.g, d.green, k);
    ComponentBit(c.b, d.blue, k);
  }

  lemma LowestByte(v: u32, size: nat, i: nat)
    requires 2 <= size <= 4 && i < size
    ensures Lowest(v, size)[i] == LowByte(ShiftRight(v, 8 * i))
  {
    hide LowByte, ShiftRight;
    assert ShiftRight(v, 0) == v by { NoShift(v); }
  }

  lemma NoShift(v: u32)
    ensures ShiftRight(v, 0) == v
  {
  }

  /** The number the bytes of a device pixel spell, lowest byte first. */
  function PixelValue(d: Device, c: Color): nat
    requires IsDevice(d)
  {
    LittleEndian(DevicePixel(d, c))
  }

  /** Every bit of a device pixel, whatever the channels are. */
  lemma EveryBit(d: Device, c: Color, k: nat)
    requires IsDevice(d)
    ensures Bit(PixelValue(d, c), k)
            <==> && k < 8 * d.grid.size
                 && (ChannelBit(c.r, d.red, k) || ChannelBit(c.g, d.green, k) || ChannelBit(c.b, d.blue, k))
  {
    hide Bit, Lowest, Pack, ChannelBit, ShiftRight, LowByte, LittleEndian;
    var v, b := Pack(d, c), DevicePixel(d, c);
    if k < 8 * d.grid.size {
      var i, j := k / 8, k % 8;
      BitOfBytes(b, i, j);
      LowestByte(v, d.grid.size, i);
      BitOfLowByte(ShiftRight(v, 8 * i), j);
      BitOfShiftRight(v, 8 * i, j);
      PackBit(d, c, k);
    } else {
      SizeOfBytes(b, k);
    }
  }

  predicate Apart(a: Channel, b: Channel) { a.offset + a.length <= b.offset || b.offset + b.length <= a.offset }

  predicate Inside(d: Device, c: Channel) { 1 <= c.length <= 8 && c.offset + c.length <= 8 * d.grid.size }

  /** Channels of one to eight bits that lie inside the pixel and do not overlap. */
  predicate ChannelsOk(d: Device) {
    && Inside(d, d.red) && Inside(d, d.green) && Inside(d, d.blue)
    && Apart(d.red, d.green) && Apart(d.red, d.blue) && Apart(d.green, d.blue)
  }

  predicate InChannel(c: Channel, k: nat) { c.offset <= k < c.offset + c.length }

  /** What stands in a channel of a number. */
  function Field(v: nat, c: Channel): nat {
    hide Pow2;
    Quotient(v, c.offset) % Pow2(c.length)
  }

  /** The top bits of a component, as many as the channel has. */
  function TopBits(v: byte, c: Channel): nat
    requires c.length <= 8
  {
    Quotient(v as int, 8 - c.length)
  }

  lemma {:induction false} PowersMultiply(m: nat, n: nat)
    ensures Pow2(m + n) == Pow2(m) * Pow2(n)
  {
    if m > 0 {
      PowersMultiply(m - 1, n);
    }
  }

  lemma QuotientBelow(v: nat, p: nat, q: nat)
    requires p > 0 && v < p * q
    ensures v / p < q
  {
  }

  lemma TopBitsFit(v: byte, c: Channel)
    requires c.length <= 8
    ensures TopBits(v, c) < Pow2(c.length)
  {
    hide Pow2;
    var p, q := Pow2(8 - c.length), Pow2(c.length);
    PowersMultiply(8 - c.length, c.length);
    Powers();
    QuotientBelow(v as int, p, q);
  }

  lemma FieldIsTop(value: nat, v: byte, c: Channel)
    requires c.length <= 8
    requires forall k: nat | InChannel(c, k) :: Bit(value, k) == ChannelBit(v, c, k)
    ensures Field(value, c) == TopBits(v, c)
  {
    hide Bit, Pow2;
    TopBitsFit(v, c);
    forall i: nat | i < c.length ensures Bit(Field(value, c), i) == Bit(TopBits(v, c), i) {
      BitOfMod(Quotient(value, c.offset), c.length, i);
      BitOfQuotient(value, c.offset, i);
      BitOfQuotient(v as int, 8 - c.length, i);
      assert InChannel(c, c.offset + i);
    }
    BitsDecide(Field(value, c), TopBits(v, c), c.length);
  }

  /** Reading a device pixel: the red channel holds the top bits of red, the green of green, the blue of blue, and
      every other bit is 0. */
  lemma ChannelsReadBack(d: Device, c: Color)
    requires IsDevice(d) && ChannelsOk(d)
    ensures var v := PixelValue(d, c);
            && Field(v, d.red) == TopBits(c.r, d.red)
            && Field(v, d.green) == TopBits(c.g, d.green)
            && Field(v, d.blue) == TopBits(c.b, d.blue)
    ensures forall k: nat | !InChannel(d.red, k) && !InChannel(d.green, k) && !InChannel(d.blue, k) ::
              !Bit(PixelValue(d, c), k)
  {
    hide Bit, PixelValue, Field, TopBits;
    var v := PixelValue(d, c);
    forall k: nat
      ensures InChannel(d.red, k) ==> Bit(v, k) == ChannelBit(c.r, d.red, k)
      ensures InChannel(d.green, k) ==> Bit(v, k) == ChannelBit(c.g, d.green, k)
      ensures InChannel(d.blue, k) ==> Bit(v, k) == ChannelBit(c.b, d.blue, k)
      ensures Bit(v, k) ==> InChannel(d.red, k) || InChannel(d.green, k) || InChannel(d.blue, k)
    {
      EveryBit(d, c, k);
    }
    FieldIsTop(v, c.r, d.red);
    FieldIsTop(v, c.g, d.green);
    FieldIsTop(v, c.b, d.blue);
  }

  /** The usual layout of 32 bits: blue, green and red in the first three bytes. */
  lemma UsualPixel(g: Grid, c: Color)
    requires GridOk(g) && g.size == 4
    ensures var d := Device(g, Channel(16, 8), Channel(8, 8), Channel(0, 8));
            DevicePixel(d, c) == [c.b, c.g, c.r, 0]
  {
    hide Bit, DevicePixel, PixelValue;
    var d := Device(g, Channel(16, 8), Channel(8, 8), Channel(0, 8));
    var b := DevicePixel(d, c);
    forall i: nat | i < 4 ensures b[i] == [c.b, c.g, c.r, 0][i] {
      UsualByte(d, c, i);
    }
  }

  lemma UsualByte(d: Device, c: Color, i: nat)
    requires IsDevice(d) && d == Device(d.grid, Channel(16, 8), Channel(8, 8), Channel(0, 8)) && d.grid.size == 4
    requires i < 4
    ensures DevicePixel(d, c)[i] == [c.b, c.g, c.r, 0][i]
  {
    hide Bit, DevicePixel, Pow2;
    var a, b := DevicePixel(d, c)[i] as int, [c.b, c.g, c.r, 0][i] as int;
    forall j: nat | j < 8 ensures Bit(a, j) == Bit(b, j) {
      UsualBit(d, c, i, j);
    }
    Powers();
    BitsDecide(a, b, 8);
  }

  lemma UsualBit(d: Device, c: Color, i: nat, j: nat)
    requires IsDevice(d) && d == Device(d.grid, Channel(16, 8), Channel(8, 8), Channel(0, 8)) && d.grid.size == 4
    requires i < 4 && j < 8
    ensures Bit(DevicePixel(d, c)[i] as int, j) == Bit([c.b, c.g, c.r, 0][i] as int, j)
  {
    hide Bit, DevicePixel, LittleEndian;
    EveryBit(d, c, 8 * i + j);
    BitOfBytes(DevicePixel(d, c), i, j);
    NoBitOfZero(j);
  }
}
