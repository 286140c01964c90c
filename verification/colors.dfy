/** The renderer's colour type `RgbColor`: three real channels that every
    constructor and every operation clamps back into [0, 1]. Operations that
    mutate a colour in place in the source return the new colour here. */
module Colors {
  import opened Numerics

  datatype Rgb = Rgb(red: real, green: real, blue: real)

  const Black: Rgb := Rgb(0.0, 0.0, 0.0)

  predicate InUnit(x: real) { 0.0 <= x <= 1.0 }

  /** The class invariant of a constructed colour: every channel in [0, 1]. */
  predicate InRange(c: Rgb) { InUnit(c.red) && InUnit(c.green) && InUnit(c.blue) }

  /** Channel-wise "at most". */
  predicate Below(a: Rgb, b: Rgb) { a.red <= b.red && a.green <= b.green && a.blue <= b.blue }

  /** Values above 1 become 1, values below 0 become 0. */
  function Clamp(x: real): (r: real)
    ensures InUnit(r)
    ensures InUnit(x) ==> r == x
  {
    if x > 1.0 then 1.0 else if x < 0.0 then 0.0 else x
  }

  /** Clamping picks the point of [0, 1] nearest to its argument. */
  lemma ClampNearest(x: real, y: real)
    requires InUnit(y)
    ensures Abs(Clamp(x) - x) <= Abs(y - x)
  {
  }

  /** Clamping is monotone. */
  lemma ClampMonotone(x: real, y: real)
    requires x <= y
    ensures Clamp(x) <= Clamp(y)
  {
  }

  /** The constructor: clamps each channel, and keeps an in-range triple as it is. */
  function Make(r: real, g: real, b: real): (c: Rgb)
    ensures InRange(c)
    ensures InRange(Rgb(r, g, b)) ==> c == Rgb(r, g, b)
  {
    Rgb(Clamp(r), Clamp(g), Clamp(b))
  }

  function Add(a: Rgb, b: Rgb): (c: Rgb)
    ensures InRange(c)
  {
    Make(a.red + b.red, a.green + b.green, a.blue + b.blue)
  }

  function Sub(a: Rgb, b: Rgb): (c: Rgb)
    ensures InRange(c)
  {
    Make(a.red - b.red, a.green - b.green, a.blue - b.blue)
  }

  /** The in-place `add(r, g, b)`: the colour the receiver holds afterwards. */
  function AddChannels(c: Rgb, r: real, g: real, b: real): (d: Rgb)
    ensures InRange(d)
  {
    Make(c.red + r, c.green + g, c.blue + b)
  }

  /** The in-place `sub(r, g, b)`: the colour the receiver holds afterwards. */
  function SubChannels(c: Rgb, r: real, g: real, b: real): (d: Rgb)
    ensures InRange(d)
  {
    Make(c.red - r, c.green - g, c.blue - b)
  }

  /** Channel-wise product. */
  function MultRgb(a: Rgb, b: Rgb): (c: Rgb)
    ensures InRange(c)
  {
    Make(Mul(a.red, b.red), Mul(a.green, b.green), Mul(a.blue, b.blue))
  }

  function MultScalar(a: Rgb, k: real): (c: Rgb)
    ensures InRange(c)
  {
    Make(Mul(a.red, k), Mul(a.green, k), Mul(a.blue, k))
  }

  /** Division of every channel by a non-zero whole count. */
  function Divide(a: Rgb, n: int): (c: Rgb)
    requires n != 0
    ensures InRange(c)
  {
    Make(Quot(a.red, n), Quot(a.green, n), Quot(a.blue, n))
  }

  function Square(a: Rgb): (c: Rgb)
    ensures InRange(c)
  {
    Make(Mul(a.red, a.red), Mul(a.green, a.green), Mul(a.blue, a.blue))
  }

  /** `equals`: channel-wise equality, which is equality of colours. */
  function Equals(a: Rgb, b: Rgb): (r: bool)
    ensures r <==> a == b
  {
    a.red == b.red && a.green == b.green && a.blue == b.blue
  }

  /** One channel as a byte: the channel times 255, truncated toward zero. */
  function Byte(x: real): int
  {
    Truncate(x * 255.0)
  }

  /** `getRGB`: the three channel bytes packed as 0xRRGGBB. */
  function GetRgb(c: Rgb): int
  {
    Byte(c.red) * 0x1_0000 + Byte(c.green) * 0x100 + Byte(c.blue)
  }

  /** The byte of an in-range channel is floor(255 x), a value in [0, 255]. */
  lemma ByteOf(x: real)
    requires 0.0 <= x <= 1.0
    ensures Byte(x) == (x * 255.0).Floor
    ensures 0 <= Byte(x) <= 0xFF
  {
  }

  /** Three bytes packed as 0xRRGGBB unpack to themselves. */
  lemma Unpack(r: int, g: int, b: int)
    requires 0 <= r <= 0xFF && 0 <= g <= 0xFF && 0 <= b <= 0xFF
    ensures 0 <= r * 0x1_0000 + g * 0x100 + b <= 0xFF_FFFF
    ensures (r * 0x1_0000 + g * 0x100 + b) / 0x1_0000 == r
    ensures (r * 0x1_0000 + g * 0x100 + b) / 0x100 % 0x100 == g
    ensures (r * 0x1_0000 + g * 0x100 + b) % 0x100 == b
  {
    var p := r * 0x1_0000 + g * 0x100 + b;
    assert p / 0x100 == r * 0x100 + g;
  }

  /** The packed value of an in-range colour is a 24-bit number whose bytes
      decode to floor(255 x) of the red, green and blue channels. */
  lemma GetRgbDecodes(c: Rgb)
    requires InRange(c)
    ensures 0 <= GetRgb(c) <= 0xFF_FFFF
    ensures GetRgb(c) / 0x1_0000 == (c.red * 255.0).Floor
    ensures GetRgb(c) / 0x100 % 0x100 == (c.green * 255.0).Floor
    ensures GetRgb(c) % 0x100 == (c.blue * 255.0).Floor
  {
    ByteOf(c.red);
    ByteOf(c.green);
    ByteOf(c.blue);
    Unpack(Byte(c.red), Byte(c.green), Byte(c.blue));
  }

  /** Adding is commutative. */
  lemma AddCommutative(a: Rgb, b: Rgb)
    ensures Add(a, b) == Add(b, a)
  {
  }

  /** Black is the neutral element of addition on in-range colours. */
  lemma AddBlack(c: Rgb)
    requires InRange(c)
    ensures Add(c, Black) == c && Add(Black, c) == c
  {
  }

  /** Subtracting what was added gives the original back when nothing was clamped. */
  lemma SubUndoesAdd(a: Rgb, b: Rgb)
    requires InRange(a) && InRange(Rgb(a.red + b.red, a.green + b.green, a.blue + b.blue))
    ensures Sub(Add(a, b), b) == a
  {
  }

  /** The in-place channel updates agree with the colour-valued `add` and `sub`. */
  lemma ChannelsAgree(c: Rgb, r: real, g: real, b: real)
    ensures AddChannels(c, r, g, b) == Add(c, Rgb(r, g, b))
    ensures SubChannels(c, r, g, b) == Sub(c, Rgb(r, g, b))
  {
  }

  /** Adding a colour never darkens an in-range colour. */
  lemma AddGrows(a: Rgb, b: Rgb)
    requires InRange(a) && InRange(b)
    ensures Below(a, Add(a, b))
  {
  }

  /** Adding is monotone in its first argument. */
  lemma AddMonotone(a: Rgb, a': Rgb, b: Rgb)
    requires Below(a, a')
    ensures Below(Add(a, b), Add(a', b))
  {
    ClampMonotone(a.red + b.red, a'.red + b.red);
    ClampMonotone(a.green + b.green, a'.green + b.green);
    ClampMonotone(a.blue + b.blue, a'.blue + b.blue);
  }

  /** Filtering an in-range colour by another never brightens either operand. */
  lemma MultRgbBounded(a: Rgb, b: Rgb)
    requires InRange(a) && InRange(b)
    ensures Below(MultRgb(a, b), a) && Below(MultRgb(a, b), b)
  {
    MulUnit(a.red, b.red);
    MulUnit(a.green, b.green);
    MulUnit(a.blue, b.blue);
  }

  /** Filtering black by an in-range colour gives black. */
  lemma MultRgbBlack(c: Rgb)
    requires InRange(c)
    ensures MultRgb(Black, c) == Black
  {
    MulUnit(0.0, c.red);
    MulUnit(0.0, c.green);
    MulUnit(0.0, c.blue);
  }

  /** Scaling an in-range colour by zero or less gives black. */
  lemma MultScalarNonPositive(a: Rgb, k: real)
    requires InRange(a) && k <= 0.0
    ensures MultScalar(a, k) == Black
  {
    MulNonPositive(a.red, k);
    MulNonPositive(a.green, k);
    MulNonPositive(a.blue, k);
  }

  /** Dividing an in-range colour by n >= 1 is exact: no channel is clamped. */
  lemma DivideExact(a: Rgb, n: int)
    requires InRange(a) && n >= 1
    ensures Divide(a, n) == Rgb(Quot(a.red, n), Quot(a.green, n), Quot(a.blue, n))
    ensures Below(Divide(a, n), a)
  {
    QuotBounded(a.red, n);
    QuotBounded(a.green, n);
    QuotBounded(a.blue, n);
  }

  /** Scaling by 1 / n, as the area light does, is dividing by n. */
  lemma MultScalarReciprocal(a: Rgb, n: int)
    requires n != 0
    ensures MultScalar(a, 1.0 / (n as real)) == Divide(a, n)
  {
    ScaleByReciprocal(a.red, n);
    ScaleByReciprocal(a.green, n);
    ScaleByReciprocal(a.blue, n);
  }

  /** Squaring never increases a channel of an in-range colour. */
  lemma SquareDarkens(a: Rgb)
    requires InRange(a)
    ensures Below(Square(a), a)
  {
    MulUnit(a.red, a.red);
    MulUnit(a.green, a.green);
    MulUnit(a.blue, a.blue);
  }

  /** `equals` is reflexive and symmetric. */
  lemma EqualsReflexiveSymmetric(a: Rgb, b: Rgb)
    ensures Equals(a, a)
    ensures Equals(a, b) == Equals(b, a)
  {
  }

  /** The colours of `cs` added up from black, left to right, clamping at every step. */
  function SumColors(cs: seq<Rgb>): Rgb
  {
    if |cs| == 0 then Black else Add(SumColors(cs[..|cs| - 1]), cs[|cs| - 1])
  }

  /** The colour k/n of `a`, channel by channel. */
  function Shares(a: Rgb, k: int, n: int): Rgb
    requires n >= 1
  {
    Rgb(Portion(a.red, k, n), Portion(a.green, k, n), Portion(a.blue, k, n))
  }

  /** One more share, added and clamped, is exactly one more n-th. */
  lemma ShareAdded(a: Rgb, k: int, n: int)
    requires InRange(a) && 1 <= k <= n
    ensures Add(Shares(a, k - 1, n), Divide(a, n)) == Shares(a, k, n)
  {
    DivideExact(a, n);
    PortionStep(a.red, k, n);
    PortionStep(a.green, k, n);
    PortionStep(a.blue, k, n);
    PortionBounded(a.red, k, n);
    PortionBounded(a.green, k, n);
    PortionBounded(a.blue, k, n);
  }

  /** Adding up k copies of the n-th part of an in-range colour gives k/n of it,
      exactly: no intermediate sum is clamped. */
  lemma {:induction false} SumShares(a: Rgb, n: int, cs: seq<Rgb>)
    requires InRange(a) && n >= 1 && |cs| <= n
    requires forall i :: 0 <= i < |cs| ==> cs[i] == Divide(a, n)
    ensures SumColors(cs) == Shares(a, |cs|, n)
  {
    var k := |cs|;
    if k == 0 {
      PortionEnds(a.red, n);
      PortionEnds(a.green, n);
      PortionEnds(a.blue, n);
    } else {
      SumShares(a, n, cs[..k - 1]);
      ShareAdded(a, k, n);
    }
  }

  /** n copies of the n-th part of an in-range colour add up to the colour itself. */
  lemma SharesAddUp(a: Rgb, n: int, cs: seq<Rgb>)
    requires InRange(a) && n >= 1 && |cs| == n
    requires forall i :: 0 <= i < |cs| ==> cs[i] == Divide(a, n)
    ensures SumColors(cs) == a
  {
    SumShares(a, n, cs);
    PortionEnds(a.red, n);
    PortionEnds(a.green, n);
    PortionEnds(a.blue, n);
  }
}
