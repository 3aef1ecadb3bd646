/** Pixels as Processing stores them: a 32-bit ARGB word, written here as the
    unsigned bit pattern 0..2^32-1 (Java holds the same bits in a signed int).
    `color(r, g, b)` makes an opaque pixel and `red`, `green`, `blue` read the
    channels back. */
module Colour {

  import opened Basics

  /** The alpha byte of every colour `color(r, g, b)` makes. */
  const Opaque := 0xff00_0000

  predicate IsPixel(c: int)
  {
    0 <= c < 0x1_0000_0000
  }

  function Red(c: int): int { (c / 0x1_0000) % 0x100 }
  function Green(c: int): int { (c / 0x100) % 0x100 }
  function Blue(c: int): int { c % 0x100 }

  /** A colour component forced into 0..255, as `color` does with its arguments. */
  function Clamp(x: int): (v: int)
    ensures 0 <= v <= 255
    ensures 0 <= x <= 255 ==> v == x
    ensures x < 0 ==> v == 0
    ensures x > 255 ==> v == 255
  {
    if x < 0 then 0 else if x > 255 then 255 else x
  }

  /** `color(r, g, b)`. */
  function Rgb(r: int, g: int, b: int): int
  {
    Opaque + Clamp(r) * 0x1_0000 + Clamp(g) * 0x100 + Clamp(b)
  }

  /** `color(0, 0, 0)`. */
  const Black := Rgb(0, 0, 0)

  /** The quotient and remainder are the only ones that fit. */
  lemma DivModUnique(c: int, d: int, q: int, m: int)
    requires d > 0 && 0 <= m < d && c == q * d + m
    ensures c / d == q && c % d == m
  {
    var q', m' := c / d, c % d;
    assert c == q' * d + m';
    assert (q - q') * d == m' - m;
    if q - q' >= 1 {
      assert (q - q') * d >= d by { MulAtLeast(q - q', d); }
    } else if q - q' <= -1 {
      assert (q' - q) * d >= d by { MulAtLeast(q' - q, d); }
    }
  }

  /** `color(r, g, b)` is an opaque pixel whose channels read back as r, g
      and b, each forced into 0..255. */
  lemma RgbChannels(r: int, g: int, b: int)
    ensures IsPixel(Rgb(r, g, b))
    ensures Rgb(r, g, b) / 0x100_0000 == 0xff
    ensures Red(Rgb(r, g, b)) == Clamp(r)
    ensures Green(Rgb(r, g, b)) == Clamp(g)
    ensures Blue(Rgb(r, g, b)) == Clamp(b)
  {
    var cr, cg, cb := Clamp(r), Clamp(g), Clamp(b);
    var c := Rgb(r, g, b);
    DivModUnique(c, 0x100_0000, 0xff, cr * 0x1_0000 + cg * 0x100 + cb);
    DivModUnique(c, 0x1_0000, 0xff00 + cr, cg * 0x100 + cb);
    DivModUnique(0xff00 + cr, 0x100, 0xff, cr);
    DivModUnique(c, 0x100, 0xff_0000 + cr * 0x100 + cg, cb);
    DivModUnique(0xff_0000 + cr * 0x100 + cg, 0x100, 0xff00 + cr, cg);
  }

  /** Two colours made by `color` are equal exactly when their clamped
      channels are. */
  lemma RgbInjective(r1: int, g1: int, b1: int, r2: int, g2: int, b2: int)
    ensures Rgb(r1, g1, b1) == Rgb(r2, g2, b2) <==>
      Clamp(r1) == Clamp(r2) && Clamp(g1) == Clamp(g2) && Clamp(b1) == Clamp(b2)
  {
    RgbChannels(r1, g1, b1);
    RgbChannels(r2, g2, b2);
  }
}
