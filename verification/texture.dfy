/** Nearest-neighbour texel fetch and colour packing. A texture is the
    decoded byte array handed over by the image loader, with its size and
    channel layout. */
module Texturing {
  import opened Machine
  import opened Screen
  import opened Geometry

  datatype Format = RGB | RGBA

  datatype Texture = Texture(data: seq<bv8>, format: Format, width: u32, height: u32)

  function Channels(f: Format): nat {
    match f
    case RGB => 3
    case RGBA => 4
  }

  /** A decoded texture: at least one texel, one full texel of bytes per
      pixel, and byte offsets that fit the `int32_t` index arithmetic. */
  predicate ValidTexture(t: Texture) {
    && t.width as int * t.height as int >= 1
    && |t.data| == t.width as int * t.height as int * Channels(t.format)
    && |t.data| < TWO_31
  }

  function TexelCount(t: Texture): int {
    t.width as int * t.height as int
  }

  /** The byte offset `index * channels` of a texel inside the texture lies
      inside the data, below 2^31. */
  lemma TexelOffsetInData(t: Texture, index: int)
    requires ValidTexture(t)
    requires 0 <= index < TexelCount(t)
    ensures 0 <= index * Channels(t.format) && index * Channels(t.format) + Channels(t.format) <= |t.data|
  {
    var n := Channels(t.format);
    MulMonotone(n, index + 1, TexelCount(t));
    assert (index + 1) * n == index * n + n;
  }

  /** `SDL_clamp(index, 0, width * height - 1)`: an out-of-range texel index
      is pulled back to the nearest valid texel. */
  function ClampTexel(t: Texture, index: int): (r: int)
    requires ValidTexture(t)
    ensures 0 <= r < TexelCount(t)
    ensures 0 <= index < TexelCount(t) ==> r == index
  {
    Clamp(index, 0, TexelCount(t) - 1)
  }

  /** The colour word: 0xFF in the low byte, red, green and blue at bit
      offsets 8, 16 and 24. */
  function PackRgb(r: bv8, g: bv8, b: bv8): Color {
    0xFF | ((r as bv32) << 8) | ((g as bv32) << 16) | ((b as bv32) << 24)
  }

  /** The RGBA packing also ors the alpha byte into the low byte. */
  function PackRgba(r: bv8, g: bv8, b: bv8, a: bv8): Color {
    PackRgb(r, g, b) | (a as bv32)
  }

  /** Byte k (0 = lowest) of a colour word. */
  function Channel(c: Color, k: nat): bv8
    requires k < 4
  {
    var shifted := if k == 0 then c else if k == 1 then c >> 8 else if k == 2 then c >> 16 else c >> 24;
    (shifted & 0xFF) as bv8
  }

  /** Unpacking a packed colour gives back its three channels and an opaque
      low byte. */
  lemma UnpackPackRgb(r: bv8, g: bv8, b: bv8)
    ensures Channel(PackRgb(r, g, b), 0) == 0xFF
    ensures Channel(PackRgb(r, g, b), 1) == r
    ensures Channel(PackRgb(r, g, b), 2) == g
    ensures Channel(PackRgb(r, g, b), 3) == b
  {
    var c := PackRgb(r, g, b);
    assert (c & 0xFF) == 0xFF;
    assert ((c >> 8) & 0xFF) == r as bv32;
    assert ((c >> 16) & 0xFF) == g as bv32;
    assert ((c >> 24) & 0xFF) == b as bv32;
  }

  /** The alpha byte is absorbed by the 0xFF already in the low byte: an RGBA
      texel packs to the same colour as its RGB part, whatever its alpha. */
  lemma AlphaIsAbsorbed(r: bv8, g: bv8, b: bv8, a: bv8)
    ensures PackRgba(r, g, b, a) == PackRgb(r, g, b)
  {
    assert (a as bv32) & 0xFF == a as bv32;
  }

  /** The texel fetch: the texel's bytes start at `index * channels`. */
  function SampleColor(t: Texture, index: int): (c: Color)
    requires ValidTexture(t)
    requires 0 <= index < TexelCount(t)
  {
    match t.format
    case RGB =>
      PackRgb(t.data[3 * index], t.data[3 * index + 1], t.data[3 * index + 2])
    case RGBA =>
      PackRgba(t.data[4 * index], t.data[4 * index + 1], t.data[4 * index + 2], t.data[4 * index + 3])
  }

  /** The fetched colour is opaque and carries the texel's red, green and blue
      bytes in channels 1, 2 and 3, for either layout. */
  lemma SampleColorChannels(t: Texture, index: int)
    requires ValidTexture(t)
    requires 0 <= index < TexelCount(t)
    ensures var n := Channels(t.format);
            var c := SampleColor(t, index);
            && Channel(c, 0) == 0xFF
            && Channel(c, 1) == t.data[n * index]
            && Channel(c, 2) == t.data[n * index + 1]
            && Channel(c, 3) == t.data[n * index + 2]
  {
    match t.format
    case RGB =>
      UnpackPackRgb(t.data[3 * index], t.data[3 * index + 1], t.data[3 * index + 2]);
    case RGBA =>
      AlphaIsAbsorbed(t.data[4 * index], t.data[4 * index + 1], t.data[4 * index + 2], t.data[4 * index + 3]);
      UnpackPackRgb(t.data[4 * index], t.data[4 * index + 1], t.data[4 * index + 2]);
  }
}
