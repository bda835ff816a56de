/**
 * The SGR (Select Graphic Rendition, section 8.3.117 of ECMA-48) decoder of
 * ansi/ansi_color.py: the fixed xterm 256-colour palette, the index-walking
 * parameter decoder with the xterm `38/48;5;n` and `38/48;2;r;g;b`
 * extensions, and the colour annotator that splits a chunk into
 * (text, style-or-None) sections while carrying a persistent style.
 */
module AnsiColor {
  import opened Py

  /**
   * A colour `#rrggbb`, held as the three components its hex string spells;
   * Text gives the string itself.
   */
  datatype Color = Rgb(r: nat, g: nat, b: nat)

  const HexDigitChars: string := "0123456789abcdef"

  /**
   * Row `k` of XTERM_COLORS_256 as the list is laid out, eight entries per
   * row: rows 0-1 are the 16 system colours, rows 2-28 the 6x6x6 colour
   * cube, rows 29-31 the 24 greys.
   */
  function PaletteRow(k: nat): (row: seq<Color>)
    requires k < 32
    ensures |row| == 8
  {
    match k
    case 0 => [Rgb(0x00, 0x00, 0x00), Rgb(0xcd, 0x00, 0x00), Rgb(0x00, 0xcd, 0x00), Rgb(0xcd, 0xcd, 0x00), Rgb(0x00, 0x00, 0xee), Rgb(0xcd, 0x00, 0xcd), Rgb(0x00, 0xcd, 0xcd), Rgb(0xe5, 0xe5, 0xe5)]
    case 1 => [Rgb(0x7f, 0x7f, 0x7f), Rgb(0xff, 0x00, 0x00), Rgb(0x00, 0xff, 0x00), Rgb(0xff, 0xff, 0x00), Rgb(0x5c, 0x5c, 0xff), Rgb(0xff, 0x00, 0xff), Rgb(0x00, 0xff, 0xff), Rgb(0xff, 0xff, 0xff)]
    case 2 => [Rgb(0x00, 0x00, 0x00), Rgb(0x00, 0x00, 0x5f), Rgb(0x00, 0x00, 0x87), Rgb(0x00, 0x00, 0xaf), Rgb(0x00, 0x00, 0xd7), Rgb(0x00, 0x00, 0xff), Rgb(0x00, 0x5f, 0x00), Rgb(0x00, 0x5f, 0x5f)]
    case 3 => [Rgb(0x00, 0x5f, 0x87), Rgb(0x00, 0x5f, 0xaf), Rgb(0x00, 0x5f, 0xd7), Rgb(0x00, 0x5f, 0xff), Rgb(0x00, 0x87, 0x00), Rgb(0x00, 0x87, 0x5f), Rgb(0x00, 0x87, 0x87), Rgb(0x00, 0x87, 0xaf)]
    case 4 => [Rgb(0x00, 0x87, 0xd7), Rgb(0x00, 0x87, 0xff), Rgb(0x00, 0xaf, 0x00), Rgb(0x00, 0xaf, 0x5f), Rgb(0x00, 0xaf, 0x87), Rgb(0x00, 0xaf, 0xaf), Rgb(0x00, 0xaf, 0xd7), Rgb(0x00, 0xaf, 0xff)]
    case 5 => [Rgb(0x00, 0xd7, 0x00), Rgb(0x00, 0xd7, 0x5f), Rgb(0x00, 0xd7, 0x87), Rgb(0x00, 0xd7, 0xaf), Rgb(0x00, 0xd7, 0xd7), Rgb(0x00, 0xd7, 0xff), Rgb(0x00, 0xff, 0x00), Rgb(0x00, 0xff, 0x5f)]
    case 6 => [Rgb(0x00, 0xff, 0x87), Rgb(0x00, 0xff, 0xaf), Rgb(0x00, 0xff, 0xd7), Rgb(0x00, 0xff, 0xff), Rgb(0x5f, 0x00, 0x00), Rgb(0x5f, 0x00, 0x5f), Rgb(0x5f, 0x00, 0x87), Rgb(0x5f, 0x00, 0xaf)]
    case 7 => [Rgb(0x5f, 0x00, 0xd7), Rgb(0x5f, 0x00, 0xff), Rgb(0x5f, 0x5f, 0x00), Rgb(0x5f, 0x5f, 0x5f), Rgb(0x5f, 0x5f, 0x87), Rgb(0x5f, 0x5f, 0xaf), Rgb(0x5f, 0x5f, 0xd7), Rgb(0x5f, 0x5f, 0xff)]
    case 8 => [Rgb(0x5f, 0x87, 0x00), Rgb(0x5f, 0x87, 0x5f), Rgb(0x5f, 0x87, 0x87), Rgb(0x5f, 0x87, 0xaf), Rgb(0x5f, 0x87, 0xd7), Rgb(0x5f, 0x87, 0xff), Rgb(0x5f, 0xaf, 0x00), Rgb(0x5f, 0xaf, 0x5f)]
    case 9 => [Rgb(0x5f, 0xaf, 0x87), Rgb(0x5f, 0xaf, 0xaf), Rgb(0x5f, 0xaf, 0xd7), Rgb(0x5f, 0xaf, 0xff), Rgb(0x5f, 0xd7, 0x00), Rgb(0x5f, 0xd7, 0x5f), Rgb(0x5f, 0xd7, 0x87), Rgb(0x5f, 0xd7, 0xaf)]
    case 10 => [Rgb(0x5f, 0xd7, 0xd7), Rgb(0x5f, 0xd7, 0xff), Rgb(0x5f, 0xff, 0x00), Rgb(0x5f, 0xff, 0x5f), Rgb(0x5f, 0xff, 0x87), Rgb(0x5f, 0xff, 0xaf), Rgb(0x5f, 0xff, 0xd7), Rgb(0x5f, 0xff, 0xff)]
    case 11 => [Rgb(0x87, 0x00, 0x00), Rgb(0x87, 0x00, 0x5f), Rgb(0x87, 0x00, 0x87), Rgb(0x87, 0x00, 0xaf), Rgb(0x87, 0x00, 0xd7), Rgb(0x87, 0x00, 0xff), Rgb(0x87, 0x5f, 0x00), Rgb(0x87, 0x5f, 0x5f)]
    case 12 => [Rgb(0x87, 0x5f, 0x87), Rgb(0x87, 0x5f, 0xaf), Rgb(0x87, 0x5f, 0xd7), Rgb(0x87, 0x5f, 0xff), Rgb(0x87, 0x87, 0x00), Rgb(0x87, 0x87, 0x5f), Rgb(0x87, 0x87, 0x87), Rgb(0x87, 0x87, 0xaf)]
    case 13 => [Rgb(0x87, 0x87, 0xd7), Rgb(0x87, 0x87, 0xff), Rgb(0x87, 0xaf, 0x00), Rgb(0x87, 0xaf, 0x5f), Rgb(0x87, 0xaf, 0x87), Rgb(0x87, 0xaf, 0xaf), Rgb(0x87, 0xaf, 0xd7), Rgb(0x87, 0xaf, 0xff)]
    case 14 => [Rgb(0x87, 0xd7, 0x00), Rgb(0x87, 0xd7, 0x5f), Rgb(0x87, 0xd7, 0x87), Rgb(0x87, 0xd7, 0xaf), Rgb(0x87, 0xd7, 0xd7), Rgb(0x87, 0xd7, 0xff), Rgb(0x87, 0xff, 0x00), Rgb(0x87, 0xff, 0x5f)]
    case 15 => [Rgb(0x87, 0xff, 0x87), Rgb(0x87, 0xff, 0xaf), Rgb(0x87, 0xff, 0xd7), Rgb(0x87, 0xff, 0xff), Rgb(0xaf, 0x00, 0x00), Rgb(0xaf, 0x00, 0x5f), Rgb(0xaf, 0x00, 0x87), Rgb(0xaf, 0x00, 0xaf)]
    case 16 => [Rgb(0xaf, 0x00, 0xd7), Rgb(0xaf, 0x00, 0xff), Rgb(0xaf, 0x5f, 0x00), Rgb(0xaf, 0x5f, 0x5f), Rgb(0xaf, 0x5f, 0x87), Rgb(0xaf, 0x5f, 0xaf), Rgb(0xaf, 0x5f, 0xd7), Rgb(0xaf, 0x5f, 0xff)]
    case 17 => [Rgb(0xaf, 0x87, 0x00), Rgb(0xaf, 0x87, 0x5f), Rgb(0xaf, 0x87, 0x87), Rgb(0xaf, 0x87, 0xaf), Rgb(0xaf, 0x87, 0xd7), Rgb(0xaf, 0x87, 0xff), Rgb(0xaf, 0xaf, 0x00), Rgb(0xaf, 0xaf, 0x5f)]
    case 18 => [Rgb(0xaf, 0xaf, 0x87), Rgb(0xaf, 0xaf, 0xaf), Rgb(0xaf, 0xaf, 0xd7), Rgb(0xaf, 0xaf, 0xff), Rgb(0xaf, 0xd7, 0x00), Rgb(0xaf, 0xd7, 0x5f), Rgb(0xaf, 0xd7, 0x87), Rgb(0xaf, 0xd7, 0xaf)]
    case 19 => [Rgb(0xaf, 0xd7, 0xd7), Rgb(0xaf, 0xd7, 0xff), Rgb(0xaf, 0xff, 0x00), Rgb(0xaf, 0xff, 0x5f), Rgb(0xaf, 0xff, 0x87), Rgb(0xaf, 0xff, 0xaf), Rgb(0xaf, 0xff, 0xd7), Rgb(0xaf, 0xff, 0xff)]
    case 20 => [Rgb(0xd7, 0x00, 0x00), Rgb(0xd7, 0x00, 0x5f), Rgb(0xd7, 0x00, 0x87), Rgb(0xd7, 0x00, 0xaf), Rgb(0xd7, 0x00, 0xd7), Rgb(0xd7, 0x00, 0xff), Rgb(0xd7, 0x5f, 0x00), Rgb(0xd7, 0x5f, 0x5f)]
    case 21 => [Rgb(0xd7, 0x5f, 0x87), Rgb(0xd7, 0x5f, 0xaf), Rgb(0xd7, 0x5f, 0xd7), Rgb(0xd7, 0x5f, 0xff), Rgb(0xd7, 0x87, 0x00), Rgb(0xd7, 0x87, 0x5f), Rgb(0xd7, 0x87, 0x87), Rgb(0xd7, 0x87, 0xaf)]
    case 22 => [Rgb(0xd7, 0x87, 0xd7), Rgb(0xd7, 0x87, 0xff), Rgb(0xd7, 0xaf, 0x00), Rgb(0xd7, 0xaf, 0x5f), Rgb(0xd7, 0xaf, 0x87), Rgb(0xd7, 0xaf, 0xaf), Rgb(0xd7, 0xaf, 0xd7), Rgb(0xd7, 0xaf, 0xff)]
    case 23 => [Rgb(0xd7, 0xd7, 0x00), Rgb(0xd7, 0xd7, 0x5f), Rgb(0xd7, 0xd7, 0x87), Rgb(0xd7, 0xd7, 0xaf), Rgb(0xd7, 0xd7, 0xd7), Rgb(0xd7, 0xd7, 0xff), Rgb(0xd7, 0xff, 0x00), Rgb(0xd7, 0xff, 0x5f)]
    case 24 => [Rgb(0xd7, 0xff, 0x87), Rgb(0xd7, 0xff, 0xaf), Rgb(0xd7, 0xff, 0xd7), Rgb(0xd7, 0xff, 0xff), Rgb(0xff, 0x00, 0x00), Rgb(0xff, 0x00, 0x5f), Rgb(0xff, 0x00, 0x87), Rgb(0xff, 0x00, 0xaf)]
    case 25 => [Rgb(0xff, 0x00, 0xd7), Rgb(0xff, 0x00, 0xff), Rgb(0xff, 0x5f, 0x00), Rgb(0xff, 0x5f, 0x5f), Rgb(0xff, 0x5f, 0x87), Rgb(0xff, 0x5f, 0xaf), Rgb(0xff, 0x5f, 0xd7), Rgb(0xff, 0x5f, 0xff)]
    case 26 => [Rgb(0xff, 0x87, 0x00), Rgb(0xff, 0x87, 0x5f), Rgb(0xff, 0x87, 0x87), Rgb(0xff, 0x87, 0xaf), Rgb(0xff, 0x87, 0xd7), Rgb(0xff, 0x87, 0xff), Rgb(0xff, 0xaf, 0x00), Rgb(0xff, 0xaf, 0x5f)]
    case 27 => [Rgb(0xff, 0xaf, 0x87), Rgb(0xff, 0xaf, 0xaf), Rgb(0xff, 0xaf, 0xd7), Rgb(0xff, 0xaf, 0xff), Rgb(0xff, 0xd7, 0x00), Rgb(0xff, 0xd7, 0x5f), Rgb(0xff, 0xd7, 0x87), Rgb(0xff, 0xd7, 0xaf)]
    case 28 => [Rgb(0xff, 0xd7, 0xd7), Rgb(0xff, 0xd7, 0xff), Rgb(0xff, 0xff, 0x00), Rgb(0xff, 0xff, 0x5f), Rgb(0xff, 0xff, 0x87), Rgb(0xff, 0xff, 0xaf), Rgb(0xff, 0xff, 0xd7), Rgb(0xff, 0xff, 0xff)]
    case 29 => [Rgb(0x08, 0x08, 0x08), Rgb(0x12, 0x12, 0x12), Rgb(0x1c, 0x1c, 0x1c), Rgb(0x26, 0x26, 0x26), Rgb(0x30, 0x30, 0x30), Rgb(0x3a, 0x3a, 0x3a), Rgb(0x44, 0x44, 0x44), Rgb(0x4e, 0x4e, 0x4e)]
    case 30 => [Rgb(0x58, 0x58, 0x58), Rgb(0x62, 0x62, 0x62), Rgb(0x6c, 0x6c, 0x6c), Rgb(0x76, 0x76, 0x76), Rgb(0x80, 0x80, 0x80), Rgb(0x8a, 0x8a, 0x8a), Rgb(0x94, 0x94, 0x94), Rgb(0x9e, 0x9e, 0x9e)]
    case _ => [Rgb(0xa8, 0xa8, 0xa8), Rgb(0xb2, 0xb2, 0xb2), Rgb(0xbc, 0xbc, 0xbc), Rgb(0xc6, 0xc6, 0xc6), Rgb(0xd0, 0xd0, 0xd0), Rgb(0xda, 0xda, 0xda), Rgb(0xe4, 0xe4, 0xe4), Rgb(0xee, 0xee, 0xee)]
  }

  /** `XTERM_COLORS_256[n]`: entry `n` of the 256-entry list. */
  function Palette(n: nat): Color
    requires n < 256
  {
    PaletteRow(n / 8)[n % 8]
  }

  /** The lower-case hex digits of `n`, without leading zeros. */
  function HexString(n: nat): (s: string)
    ensures |s| > 0
    decreases n
  {
    if n < 16 then [HexDigitChars[n]] else HexString(n / 16) + [HexDigitChars[n % 16]]
  }

  /** `'{:02x}'.format(n)`: at least two lower-case hex digits. */
  function Hex02(n: nat): (s: string)
    ensures |s| >= 2
    ensures n < 256 ==> s == [HexDigitChars[n / 16], HexDigitChars[n % 16]]
  {
    if n < 16 then
      "0" + HexString(n)
    else
      assert n < 256 ==> HexString(n / 16) == [HexDigitChars[n / 16]];
      HexString(n)
  }

  /** The six intensities of each component of the colour cube. */
  const CubeLevels: seq<nat> := [0x00, 0x5f, 0x87, 0xaf, 0xd7, 0xff]

  /** The `#rrggbb` string of a colour. */
  function Text(c: Color): string {
    "#" + Hex02(c.r) + Hex02(c.g) + Hex02(c.b)
  }

  /**
   * Entries 16-231 form the 6x6x6 colour cube: entry `16 + 36 * r + 6 * g + b`
   * has the components CubeLevels[r], CubeLevels[g], CubeLevels[b].
   */
  lemma PaletteCube(r: nat, g: nat, b: nat)
    requires r < 6 && g < 6 && b < 6
    ensures 16 <= 16 + 36 * r + 6 * g + b < 232
    ensures Palette(16 + 36 * r + 6 * g + b) == Rgb(CubeLevels[r], CubeLevels[g], CubeLevels[b])
  {
    if r == 0 {
      CubeSlice0(r, g, b);
    } else if r == 1 {
      CubeSlice1(r, g, b);
    } else if r == 2 {
      CubeSlice2(r, g, b);
    } else if r == 3 {
      CubeSlice3(r, g, b);
    } else if r == 4 {
      CubeSlice4(r, g, b);
    } else {
      CubeSlice5(r, g, b);
    }
  }

  lemma {:induction false} CubeSlice0(r: nat, g: nat, b: nat)
    requires r == 0 && g < 6 && b < 6
    ensures Palette(16 + 36 * r + 6 * g + b) == Rgb(CubeLevels[r], CubeLevels[g], CubeLevels[b])
  {
    if g == 0 {
      if b == 0 {} else if b == 1 {} else if b == 2 {} else if b == 3 {} else if b == 4 {} else {}
    } else if g == 1 {
      if b == 0 {} else if b == 1 {} else if b == 2 {} else if b == 3 {} else if b == 4 {} else {}
    } else if g == 2 {
      if b == 0 {} else if b == 1 {} else if b == 2 {} else if b == 3 {} else if b == 4 {} else {}
    } else if g == 3 {
      if b == 0 {} else if b == 1 {} else if b == 2 {} else if b == 3 {} else if b == 4 {} else {}
    } else if g == 4 {
      if b == 0 {} else if b == 1 {} else if b == 2 {} else if b == 3 {} else if b == 4 {} else {}
    } else {
      if b == 0 {} else if b == 1 {} else if b == 2 {} else if b == 3 {} else if b == 4 {} else {}
    }
  }

  lemma {:induction false} CubeSlice1(r: nat, g: nat, b: nat)
    requires r == 1 && g < 6 && b < 6
    ensures Palette(16 + 36 * r + 6 * g + b) == Rgb(CubeLevels[r], CubeLevels[g], CubeLevels[b])
  {
    if g == 0 {
      if b == 0 {} else if b == 1 {} else if b == 2 {} else if b == 3 {} else if b == 4 {} else {}
    } else if g == 1 {
      if b == 0 {} else if b == 1 {} else if b == 2 {} else if b == 3 {} else if b == 4 {} else {}
    } else if g == 2 {
      if b == 0 {} else if b == 1 {} else if b == 2 {} else if b == 3 {} else if b == 4 {} else {}
    } else if g == 3 {
      if b == 0 {} else if b == 1 {} else if b == 2 {} else if b == 3 {} else if b == 4 {} else {}
    } else if g == 4 {
      if b == 0 {} else if b == 1 {} else if b == 2 {} else if b == 3 {} else if b == 4 {} else {}
    } else {
      if b == 0 {} else if b == 1 {} else if b == 2 {} else if b == 3 {} else if b == 4 {} else {}
    }
  }

  lemma {:induction false} CubeSlice2(r: nat, g: nat, b: nat)
    requires r == 2 && g < 6 && b < 6
    ensures Palette(16 + 36 * r + 6 * g + b) == Rgb(CubeLevels[r], CubeLevels[g], CubeLevels[b])
  {
    if g == 0 {
      if b == 0 {} else if b == 1 {} else if b == 2 {} else if b == 3 {} else if b == 4 {} else {}
    } else if g == 1 {
      if b == 0 {} else if b == 1 {} else if b == 2 {} else if b == 3 {} else if b == 4 {} else {}
    } else if g == 2 {
      if b == 0 {} else if b == 1 {} else if b == 2 {} else if b == 3 {} else if b == 4 {} else {}
    } else if g == 3 {
      if b == 0 {} else if b == 1 {} else if b == 2 {} else if b == 3 {} else if b == 4 {} else {}
    } else if g == 4 {
      if b == 0 {} else if b == 1 {} else if b == 2 {} else if b == 3 {} else if b == 4 {} else {}
    } else {
      if b == 0 {} else if b == 1 {} else if b == 2 {} else if b == 3 {} else if b == 4 {} else {}
    }
  }

  lemma {:induction false} CubeSlice3(r: nat, g: nat, b: nat)
    requires r == 3 && g < 6 && b < 6
    ensures Palette(16 + 36 * r + 6 * g + b) == Rgb(CubeLevels[r], CubeLevels[g], CubeLevels[b])
  {
    if g == 0 {
      if b == 0 {} else if b == 1 {} else if b == 2 {} else if b == 3 {} else if b == 4 {} else {}
    } else if g == 1 {
      if b == 0 {} else if b == 1 {} else if b == 2 {} else if b == 3 {} else if b == 4 {} else {}
    } else if g == 2 {
      if b == 0 {} else if b == 1 {} else if b == 2 {} else if b == 3 {} else if b == 4 {} else {}
    } else if g == 3 {
      if b == 0 {} else if b == 1 {} else if b == 2 {} else if b == 3 {} else if b == 4 {} else {}
    } else if g == 4 {
      if b == 0 {} else if b == 1 {} else if b == 2 {} else if b == 3 {} else if b == 4 {} else {}
    } else {
      if b == 0 {} else if b == 1 {} else if b == 2 {} else if b == 3 {} else if b == 4 {} else {}
    }
  }

  lemma {:induction false} CubeSlice4(r: nat, g: nat, b: nat)
    requires r == 4 && g < 6 && b < 6
    ensures Palette(16 + 36 * r + 6 * g + b) == Rgb(CubeLevels[r], CubeLevels[g], CubeLevels[b])
  {
    if g == 0 {
      if b == 0 {} else if b == 1 {} else if b == 2 {} else if b == 3 {} else if b == 4 {} else {}
    } else if g == 1 {
      if b == 0 {} else if b == 1 {} else if b == 2 {} else if b == 3 {} else if b == 4 {} else {}
    } else if g == 2 {
      if b == 0 {} else if b == 1 {} else if b == 2 {} else if b == 3 {} else if b == 4 {} else {}
    } else if g == 3 {
      if b == 0 {} else if b == 1 {} else if b == 2 {} else if b == 3 {} else if b == 4 {} else {}
    } else if g == 4 {
      if b == 0 {} else if b == 1 {} else if b == 2 {} else if b == 3 {} else if b == 4 {} else {}
    } else {
      if b == 0 {} else if b == 1 {} else if b == 2 {} else if b == 3 {} else if b == 4 {} else {}
    }
  }

  lemma {:induction false} CubeSlice5(r: nat, g: nat, b: nat)
    requires r == 5 && g < 6 && b < 6
    ensures Palette(16 + 36 * r + 6 * g + b) == Rgb(CubeLevels[r], CubeLevels[g], CubeLevels[b])
  {
    if g == 0 {
      if b == 0 {} else if b == 1 {} else if b == 2 {} else if b == 3 {} else if b == 4 {} else {}
    } else if g == 1 {
      if b == 0 {} else if b == 1 {} else if b == 2 {} else if b == 3 {} else if b == 4 {} else {}
    } else if g == 2 {
      if b == 0 {} else if b == 1 {} else if b == 2 {} else if b == 3 {} else if b == 4 {} else {}
    } else if g == 3 {
      if b == 0 {} else if b == 1 {} else if b == 2 {} else if b == 3 {} else if b == 4 {} else {}
    } else if g == 4 {
      if b == 0 {} else if b == 1 {} else if b == 2 {} else if b == 3 {} else if b == 4 {} else {}
    } else {
      if b == 0 {} else if b == 1 {} else if b == 2 {} else if b == 3 {} else if b == 4 {} else {}
    }
  }

  /** Entries 232-255 are the greys 08, 12, ..., ee: entry `232 + k` has all components `8 + 10 * k`. */
  lemma {:induction false} PaletteGrey(k: nat)
    requires k < 24
    ensures Palette(232 + k) == Rgb(8 + 10 * k, 8 + 10 * k, 8 + 10 * k)
  {
    if k == 0 {} else if k == 1 {} else if k == 2 {} else if k == 3 {} else if k == 4 {} else if k == 5 {} else if k == 6 {} else if k == 7 {} else if k == 8 {} else if k == 9 {} else if k == 10 {} else if k == 11 {} else if k == 12 {} else if k == 13 {} else if k == 14 {} else if k == 15 {} else if k == 16 {} else if k == 17 {} else if k == 18 {} else if k == 19 {} else if k == 20 {} else if k == 21 {} else if k == 22 {} else {}
  }

  /** Entry 202 is `#ff5f00`. */
  lemma Palette202()
    ensures Palette(202) == Rgb(0xff, 0x5f, 0x00)
    ensures Text(Palette(202)) == "#ff5f00"
  {
    PaletteCube(5, 1, 0);
  }

  /**
   * Entries 0-17 of XTERM_COLORS_256, the only ones `_xterm_color` can reach
   * (a digit, plus 8 when bright); XtermEntryInPalette shows they are the
   * list's own entries.
   */
  function XtermEntry(n: nat): Color
    requires n < 18
  {
    match n
    case 0 => Rgb(0x00, 0x00, 0x00)
    case 1 => Rgb(0xcd, 0x00, 0x00)
    case 2 => Rgb(0x00, 0xcd, 0x00)
    case 3 => Rgb(0xcd, 0xcd, 0x00)
    case 4 => Rgb(0x00, 0x00, 0xee)
    case 5 => Rgb(0xcd, 0x00, 0xcd)
    case 6 => Rgb(0x00, 0xcd, 0xcd)
    case 7 => Rgb(0xe5, 0xe5, 0xe5)
    case 8 => Rgb(0x7f, 0x7f, 0x7f)
    case 9 => Rgb(0xff, 0x00, 0x00)
    case 10 => Rgb(0x00, 0xff, 0x00)
    case 11 => Rgb(0xff, 0xff, 0x00)
    case 12 => Rgb(0x5c, 0x5c, 0xff)
    case 13 => Rgb(0xff, 0x00, 0xff)
    case 14 => Rgb(0x00, 0xff, 0xff)
    case 15 => Rgb(0xff, 0xff, 0xff)
    case 16 => Rgb(0x00, 0x00, 0x00)
    case _ => Rgb(0x00, 0x00, 0x5f)
  }

  lemma XtermEntryInPalette(n: nat)
    requires n < 18
    ensures XtermEntry(n) == Palette(n)
  {
  }

  /**
   * `_xterm_color(code, bright)`: only the last digit of `code` counts, plus
   * 8 when `bright`; the range check always passes, so the result is entry
   * `num` of the palette.
   */
  function XtermColor(code: string, bright: bool): (c: Option<Color>)
    requires |code| > 0 && IsDigit(code[|code| - 1])
    ensures c.Some?
  {
    var num := DigitValue(code[|code| - 1]) + (if bright then 8 else 0);
    if num <= 255 then
      Some(XtermEntry(num))
    else
      None
  }

  /** Two codes with the same last digit give the same colour. */
  lemma XtermColorLastDigit(code: string, code': string, bright: bool)
    requires |code| > 0 && IsDigit(code[|code| - 1])
    requires |code'| > 0 && code'[|code'| - 1] == code[|code| - 1]
    ensures XtermColor(code, bright) == XtermColor(code', bright)
  {
  }

  /** An argument of `str.format`: the decoder hands it the parameter strings. */
  datatype FormatArg = IntArg(n: nat) | StrArg(s: string)

  /**
   * `_rgb_to_hex(r, g, b)`, i.e. `'#{:02x}{:02x}{:02x}'.format(r, g, b)`: the
   * `x` format code only accepts integers, so any string argument raises.
   */
  function RgbToHex(r: FormatArg, g: FormatArg, b: FormatArg): (c: Result<Color>)
    ensures c.Ok? <==> r.IntArg? && g.IntArg? && b.IntArg?
    ensures c.Ok? ==> Text(c.value) == "#" + Hex02(r.n) + Hex02(g.n) + Hex02(b.n)
    ensures c.Raise? ==> c.error == ValueError
  {
    if r.IntArg? && g.IntArg? && b.IntArg? then Ok(Rgb(r.n, g.n, b.n)) else Raise(ValueError)
  }

  /** The text style a section is drawn with (the `_style` dict). */
  datatype Style = Style(bold: bool, italic: bool, underline: bool, fg: Option<Color>, bg: Option<Color>)

  /** `_default_style()` */
  const DefaultStyle: Style := Style(false, false, false, None, None)

  /** A key of the delta dict built by `_decode`: absent, or set to a value. */
  datatype Slot<+T> = Absent | Set(value: T)

  /** The dict `_decode` fills in: only the keys it set. */
  datatype Delta = Delta(bold: Slot<bool>, italic: Slot<bool>, underline: Slot<bool>,
                         fg: Slot<Option<Color>>, bg: Slot<Option<Color>>)

  /** `{}` */
  const EmptyDelta: Delta := Delta(Absent, Absent, Absent, Absent, Absent)

  /** `_default_style()` used as a delta: every key set. */
  const ResetDelta: Delta := Delta(Set(false), Set(false), Set(false), Set(None), Set(None))

  function Pick<T>(current: T, s: Slot<T>): T {
    if s.Set? then s.value else current
  }

  /** `style.update(delta)`: the keys the delta holds overwrite, the others stay. */
  function Update(s: Style, d: Delta): (u: Style)
    ensures d.bold.Absent? ==> u.bold == s.bold
    ensures d.italic.Absent? ==> u.italic == s.italic
    ensures d.underline.Absent? ==> u.underline == s.underline
    ensures d.fg.Absent? ==> u.fg == s.fg
    ensures d.bg.Absent? ==> u.bg == s.bg
    ensures d.bold.Set? ==> u.bold == d.bold.value
    ensures d.italic.Set? ==> u.italic == d.italic.value
    ensures d.underline.Set? ==> u.underline == d.underline.value
    ensures d.fg.Set? ==> u.fg == d.fg.value
    ensures d.bg.Set? ==> u.bg == d.bg.value
  {
    Style(Pick(s.bold, d.bold), Pick(s.italic, d.italic), Pick(s.underline, d.underline),
          Pick(s.fg, d.fg), Pick(s.bg, d.bg))
  }

  /** A reset delta restores the default whatever the style was. */
  lemma UpdateReset(s: Style)
    ensures Update(s, ResetDelta) == DefaultStyle
    ensures Update(s, EmptyDelta) == s
  {
  }

  /** `style.get('bold', False)` */
  predicate BoldSet(d: Delta) {
    d.bold == Set(true)
  }

  /** The characters of an SGR parameter string, `[0-9;]`. */
  predicate IsParamChar(c: char) {
    IsDigit(c) || c == ';'
  }

  predicate IsParamString(s: string) {
    forall i :: 0 <= i < |s| ==> IsParamChar(s[i])
  }

  /** The `;`-separated items of a parameter string: decimal digit strings, possibly empty. */
  predicate DigitItems(cs: seq<string>) {
    forall i :: 0 <= i < |cs| ==> AllDigits(cs[i])
  }

  lemma {:induction false} SplitParams(body: string)
    requires IsParamString(body)
    ensures DigitItems(Split(body, ';'))
    decreases |body|
  {
    if ';' in body {
      var i := IndexOf(body, ';');
      SplitParams(body[i + 1..]);
      assert Split(body, ';') == [body[..i]] + Split(body[i + 1..], ';');
    }
  }

  /** What `_decode_multi` returns: the index to continue from and the colour found, if any. */
  datatype Multi = Multi(next: nat, color: Option<Color>)

  /**
   * `_decode_multi(idx, code_split)` for the `38`/`48` item at `idx`.
   * `5;n` selects palette entry n and continues at n (or at a `0` right after
   * it); `2;r;g;b` formats the three strings and so raises; a short `2` list
   * yields no colour; any other selector returns `idx` itself.
   */
  function DecodeMulti(idx: nat, cs: seq<string>): (r: Result<Multi>)
    requires DigitItems(cs)
    ensures r.Ok? ==> r.value.next == idx || idx < r.value.next < |cs|
    ensures r.Ok? && r.value.next == idx ==> r.value.color.None?
    ensures r.Raise? ==> r.error == IndexError || r.error == ValueError
  {
    var i := idx + 1;
    if i > |cs| then Ok(Multi(idx, None))
    else if i == |cs| then Raise(IndexError)
    else if cs[i] == "5" then
      // i + 1 > len(code_split) cannot hold here, as i < len(code_split)
      var i1 := i + 1;
      if i1 == |cs| then Raise(IndexError)
      else match ParseInt(cs[i1])
        case None => Raise(ValueError)
        case Some(n) =>
          if n >= 256 then Raise(IndexError)
          else
            var color := Palette(n);
            var i2 := i1 + 1;
            if i2 >= |cs| then Ok(Multi(i1, Some(color)))
            else if cs[i2] == "0" then Ok(Multi(i2, Some(color)))
            else Ok(Multi(i1, Some(color)))
    else if cs[i] == "2" then
      var i1 := i + 1;
      if i1 >= |cs| then Ok(Multi(i, None))
      else if i1 + 1 >= |cs| then Ok(Multi(i1, None))
      else if i1 + 2 >= |cs| then Ok(Multi(i1 + 1, None))
      else
        var next: nat := if cs[i1 + 2] == "0" then i1 + 2 else i1 + 1;
        match RgbToHex(StrArg(cs[i1]), StrArg(cs[i1 + 1]), StrArg(cs[i1 + 2]))
        case Raise(e) => Raise(e)
        case Ok(color) => Ok(Multi(next, Some(color)))
    else
      Ok(Multi(idx, None))
  }

  /** The outcome of `_decode`: `(ret, style)`, an exception, or a loop that never ends. */
  datatype Decoding = Decoded(ret: bool, delta: Delta) | DecodeRaised(error: Error) | DecodeHangs

  /** `'lo' <= item <= 'hi'` on strings. */
  predicate InRange(item: string, lo: string, hi: string) {
    StrLe(lo, item) && StrLe(item, hi)
  }

  /**
   * The branches of `_decode` for the items other than `38`/`48`: the new
   * delta, or None when the item is not recognised (it is then skipped).
   * `single` tells whether the item is the only one, so that an empty body
   * resets.
   */
  function PlainItem(item: string, single: bool, d: Delta): (r: Option<Delta>)
    requires AllDigits(item)
    ensures (item == "0" || item == "00") ==> r == Some(ResetDelta)
  {
    if item == "0" || item == "00" || (single && item == "") then Some(ResetDelta)
    else if item == "1" || item == "01" then Some(d.(bold := Set(true)))
    else if item == "3" || item == "03" then Some(d.(italic := Set(true)))
    else if item == "4" || item == "04" then Some(d.(underline := Set(true)))
    else if item == "7" || item == "07" then
      Some(d.(fg := Set(XtermColor("0", BoldSet(d))), bg := Set(XtermColor("7", BoldSet(d)))))
    else if InRange(item, "30", "37") then Some(d.(fg := Set(XtermColor(item, BoldSet(d)))))
    else if InRange(item, "40", "47") then Some(d.(bg := Set(XtermColor(item, BoldSet(d)))))
    else if InRange(item, "90", "97") then Some(d.(fg := Set(XtermColor(item, true))))
    else if InRange(item, "100", "107") then Some(d.(bg := Set(XtermColor(item, true))))
    else None
  }

  /**
   * The walk of `_decode` from index `idx` with the flag `ret` and the delta
   * `d` built so far. A `38`/`48` item hands over to DecodeMulti and resumes
   * at the index it returns, without stepping past it; when that index is
   * `idx` itself the source loops forever.
   */
  function DecodeFrom(cs: seq<string>, idx: nat, ret: bool, d: Delta): Decoding
    requires DigitItems(cs)
    decreases |cs| - idx
  {
    if idx >= |cs| then Decoded(ret, d)
    else
      var item := cs[idx];
      match PlainItem(item, |cs| == 1, d)
      case Some(d') => DecodeFrom(cs, idx + 1, true, d')
      case None =>
        if item == "38" || item == "48" then
          match DecodeMulti(idx, cs)
          case Raise(e) => DecodeRaised(e)
          case Ok(m) =>
            if m.next == idx then DecodeHangs
            else if m.color.None? then DecodeFrom(cs, m.next, ret, d)
            else if item == "38" then DecodeFrom(cs, m.next, true, d.(fg := Set(m.color)))
            else DecodeFrom(cs, m.next, true, d.(bg := Set(m.color)))
        else
          DecodeFrom(cs, idx + 1, ret, d)
  }

  /** `_decode(body)` on the parameter string of one SGR sequence. */
  function DecodeSpec(body: string): Decoding
    requires IsParamString(body)
  {
    SplitParams(body);
    DecodeFrom(Split(body, ';'), 0, false, EmptyDelta)
  }

  /** `_decode`: the index-walking loop over the `;`-separated items. */
  method Decode(body: string) returns (r: Decoding)
    requires IsParamString(body)
    ensures r == DecodeSpec(body)
  {
    var cs := Split(body, ';');
    SplitParams(body);
    var ret := false;
    var style := EmptyDelta;
    var idx: nat := 0;
    while idx < |cs|
      invariant DecodeFrom(cs, idx, ret, style) == DecodeSpec(body)
      decreases |cs| - idx
    {
      var item := cs[idx];
      var plain := PlainItem(item, |cs| == 1, style);
      if plain.Some? {
        style := plain.value;
        ret := true;
      } else if item == "38" || item == "48" {
        var multi := DecodeMulti(idx, cs);
        if multi.Raise? {
          return DecodeRaised(multi.error);
        }
        var m := multi.value;
        if m.next == idx {
          return DecodeHangs;
        }
        if m.color.Some? {
          if item == "38" {
            style := style.(fg := Set(m.color));
          } else {
            style := style.(bg := Set(m.color));
          }
          ret := true;
        }
        idx := m.next;
        continue;
      }
      idx := idx + 1;
    }
    r := Decoded(ret, style);
  }

  /** A decode whose flag stays false has set no key at all. */
  lemma {:induction false} DecodeFromUnchanged(cs: seq<string>, idx: nat, ret: bool, d: Delta)
    requires DigitItems(cs)
    ensures var r := DecodeFrom(cs, idx, ret, d); r.Decoded? && !r.ret ==> !ret && r.delta == d
    decreases |cs| - idx
  {
    if idx < |cs| {
      var item := cs[idx];
      match PlainItem(item, |cs| == 1, d)
      case Some(d') =>
        DecodeFromUnchanged(cs, idx + 1, true, d');
      case None =>
        if item == "38" || item == "48" {
          match DecodeMulti(idx, cs)
          case Raise(e) =>
          case Ok(m) =>
            if m.next != idx {
              if m.color.None? {
                DecodeFromUnchanged(cs, m.next, ret, d);
              } else if item == "38" {
                DecodeFromUnchanged(cs, m.next, true, d.(fg := Set(m.color)));
              } else {
                DecodeFromUnchanged(cs, m.next, true, d.(bg := Set(m.color)));
              }
            }
        } else {
          DecodeFromUnchanged(cs, idx + 1, ret, d);
        }
    }
  }

  /** `_decode` returns `(False, {})` or a flag that is true. */
  lemma DecodeUnchanged(body: string)
    requires IsParamString(body)
    ensures DecodeSpec(body).Decoded? && !DecodeSpec(body).ret ==> DecodeSpec(body).delta == EmptyDelta
  {
    SplitParams(body);
    DecodeFromUnchanged(Split(body, ';'), 0, false, EmptyDelta);
  }

  /**
   * The walk always visits the last item: when it is `0` or `00` a completed
   * decode ends with the full default style, whatever came before.
   */
  lemma {:induction false} DecodeFromLastReset(cs: seq<string>, idx: nat, ret: bool, d: Delta)
    requires DigitItems(cs) && idx < |cs|
    requires cs[|cs| - 1] == "0" || cs[|cs| - 1] == "00"
    ensures DecodeFrom(cs, idx, ret, d).Decoded? ==> DecodeFrom(cs, idx, ret, d) == Decoded(true, ResetDelta)
    decreases |cs| - idx
  {
    var item := cs[idx];
    if idx == |cs| - 1 {
      assert PlainItem(item, |cs| == 1, d) == Some(ResetDelta);
    } else {
      match PlainItem(item, |cs| == 1, d)
      case Some(d') =>
        DecodeFromLastReset(cs, idx + 1, true, d');
      case None =>
        if item == "38" || item == "48" {
          match DecodeMulti(idx, cs)
          case Raise(e) =>
          case Ok(m) =>
            if m.next != idx {
              if m.color.None? {
                DecodeFromLastReset(cs, m.next, ret, d);
              } else if item == "38" {
                DecodeFromLastReset(cs, m.next, true, d.(fg := Set(m.color)));
              } else {
                DecodeFromLastReset(cs, m.next, true, d.(bg := Set(m.color)));
              }
            }
        } else {
          DecodeFromLastReset(cs, idx + 1, ret, d);
        }
    }
  }

  /**
   * The walk always visits the last item: a `38` or `48` there indexes past
   * the end of the list, so such a body never decodes.
   */
  lemma {:induction false} DecodeFromLastExtended(cs: seq<string>, idx: nat, ret: bool, d: Delta)
    requires DigitItems(cs) && idx < |cs|
    requires cs[|cs| - 1] == "38" || cs[|cs| - 1] == "48"
    ensures !DecodeFrom(cs, idx, ret, d).Decoded?
    decreases |cs| - idx
  {
    var item := cs[idx];
    if idx == |cs| - 1 {
      ExtendedNotPlain(item, |cs| == 1, d);
    } else {
      match PlainItem(item, |cs| == 1, d)
      case Some(d') =>
        DecodeFromLastExtended(cs, idx + 1, true, d');
      case None =>
        if item == "38" || item == "48" {
          match DecodeMulti(idx, cs)
          case Raise(e) =>
          case Ok(m) =>
            if m.next != idx {
              if m.color.None? {
                DecodeFromLastExtended(cs, m.next, ret, d);
              } else if item == "38" {
                DecodeFromLastExtended(cs, m.next, true, d.(fg := Set(m.color)));
              } else {
                DecodeFromLastExtended(cs, m.next, true, d.(bg := Set(m.color)));
              }
            }
        } else {
          DecodeFromLastExtended(cs, idx + 1, ret, d);
        }
    }
  }

  /** `38` and `48` fall through the plain branches to DecodeMulti. */
  lemma ExtendedNotPlain(item: string, single: bool, d: Delta)
    requires item == "38" || item == "48"
    ensures PlainItem(item, single, d).None?
  {
    assert !StrLe("8", "7") && "38"[1..] == "8" && "37"[1..] == "7" && "48"[1..] == "8" && "47"[1..] == "7";
    assert !InRange(item, "30", "37") && !InRange(item, "40", "47");
    assert !InRange(item, "90", "97") && !InRange(item, "100", "107");
  }

  /** Without a `38` or `48` item the decode neither raises nor loops. */
  lemma {:induction false} DecodeFromPlainTotal(cs: seq<string>, idx: nat, ret: bool, d: Delta)
    requires DigitItems(cs)
    requires forall i :: 0 <= i < |cs| ==> cs[i] != "38" && cs[i] != "48"
    ensures DecodeFrom(cs, idx, ret, d).Decoded?
    decreases |cs| - idx
  {
    if idx < |cs| {
      match PlainItem(cs[idx], |cs| == 1, d)
      case Some(d') =>
        DecodeFromPlainTotal(cs, idx + 1, true, d');
      case None =>
        DecodeFromPlainTotal(cs, idx + 1, ret, d);
    }
  }

  /** `3d` (d in 0..7) sets the foreground to palette[d], or palette[d + 8] once bold is set. */
  lemma ForegroundCode(c: char, single: bool, d: Delta)
    requires '0' <= c <= '7'
    ensures PlainItem(['3', c], single, d)
         == Some(d.(fg := Set(Some(Palette(DigitValue(c) + if BoldSet(d) then 8 else 0)))))
  {
    assert InRange(['3', c], "30", "37");
  }

  /** `4d` (d in 0..7) sets the background to palette[d], or palette[d + 8] once bold is set. */
  lemma BackgroundCode(c: char, single: bool, d: Delta)
    requires '0' <= c <= '7'
    ensures PlainItem(['4', c], single, d)
         == Some(d.(bg := Set(Some(Palette(DigitValue(c) + if BoldSet(d) then 8 else 0)))))
  {
    assert !InRange(['4', c], "30", "37");
    assert InRange(['4', c], "40", "47");
  }

  /** `9d` (d in 0..7) always sets the foreground to the bright palette[d + 8]. */
  lemma BrightForegroundCode(c: char, single: bool, d: Delta)
    requires '0' <= c <= '7'
    ensures PlainItem(['9', c], single, d) == Some(d.(fg := Set(Some(Palette(DigitValue(c) + 8)))))
  {
    assert !InRange(['9', c], "30", "37") && !InRange(['9', c], "40", "47");
    assert InRange(['9', c], "90", "97");
  }

  /** `10d` (d in 0..7) always sets the background to the bright palette[d + 8]. */
  lemma BrightBackgroundCode(c: char, single: bool, d: Delta)
    requires '0' <= c <= '7'
    ensures PlainItem(['1', '0', c], single, d) == Some(d.(bg := Set(Some(Palette(DigitValue(c) + 8)))))
  {
    assert !InRange(['1', '0', c], "30", "37") && !InRange(['1', '0', c], "40", "47");
    assert !InRange(['1', '0', c], "90", "97");
    assert ['1', '0', c][1..] == ['0', c] && ['0', c][1..] == [c];
    assert StrLe("0", [c]) && StrLe([c], "7");
    assert InRange(['1', '0', c], "100", "107");
  }

  /** `7` (reverse video) sets fg palette[0] and bg palette[7], or 8 and 15 once bold is set. */
  lemma ReverseCode(single: bool, d: Delta)
    ensures PlainItem("7", single, d)
         == Some(d.(fg := Set(Some(Palette(if BoldSet(d) then 8 else 0))),
                    bg := Set(Some(Palette(if BoldSet(d) then 15 else 7)))))
  {
  }

  /** `_decode` on the body whose `;`-separated items are `cs`. */
  function DecodeItems(cs: seq<string>): Decoding
    requires DigitItems(cs)
  {
    DecodeFrom(cs, 0, false, EmptyDelta)
  }

  lemma {:induction false} JoinParams(cs: seq<string>)
    requires |cs| >= 1 && DigitItems(cs)
    ensures IsParamString(Join(cs, ';'))
    decreases |cs|
  {
    if |cs| > 1 {
      JoinParams(cs[1..]);
      var rest := Join(cs[1..], ';');
      assert Join(cs, ';') == cs[0] + [';'] + rest;
      forall i | 0 <= i < |Join(cs, ';')|
        ensures IsParamChar(Join(cs, ';')[i])
      {
        if i < |cs[0]| {
          assert Join(cs, ';')[i] == cs[0][i];
        } else if i > |cs[0]| {
          assert Join(cs, ';')[i] == rest[i - |cs[0]| - 1];
        }
      }
    }
  }

  /** Decoding a body is decoding its `;`-separated items. */
  lemma DecodeJoined(cs: seq<string>)
    requires |cs| >= 1 && DigitItems(cs)
    ensures IsParamString(Join(cs, ';'))
    ensures DecodeSpec(Join(cs, ';')) == DecodeItems(cs)
  {
    JoinParams(cs);
    assert forall i :: 0 <= i < |cs| ==> ';' !in cs[i] by {
      forall i | 0 <= i < |cs|
        ensures ';' !in cs[i]
      {
        assert AllDigits(cs[i]);
      }
    }
    SplitJoin(cs, ';');
  }

  /** `0;48;5;202`: a reset followed by background palette[202], `#ff5f00`. */
  lemma DecodeResetThenBackground()
    ensures DecodeItems(["0", "48", "5", "202"]) == Decoded(true, ResetDelta.(bg := Set(Some(Rgb(0xff, 0x5f, 0x00)))))
  {
    var cs := ["0", "48", "5", "202"];
    Palette202();
    assert ParseInt("202") == Some(202) by {
      ParseDecimalString(202);
      assert DecimalString(202) == "202";
    }
    assert DecodeMulti(1, cs) == Ok(Multi(3, Some(Palette(202))));
    var reset := ResetDelta.(bg := Set(Some(Palette(202))));
    assert PlainItem("202", false, reset).None? by {
      assert !StrLe("30", "202") && !StrLe("40", "202") && !StrLe("90", "202");
      assert !StrLe("202", "107");
    }
    calc {
      DecodeFrom(cs, 0, false, EmptyDelta);
      DecodeFrom(cs, 1, true, ResetDelta);
      { ExtendedNotPlain("48", false, ResetDelta); }
      DecodeFrom(cs, 3, true, reset);
      Decoded(true, reset);
    }
  }

  /**
   * `38;5;1`: the walk resumes at the palette index itself, so `1` is read a
   * second time, as bold.
   */
  lemma DecodePaletteIndexReread()
    ensures DecodeItems(["38", "5", "1"]) == Decoded(true, EmptyDelta.(fg := Set(Some(Palette(1))), bold := Set(true)))
  {
    var cs := ["38", "5", "1"];
    assert ParseInt("1") == Some(1) by {
      assert "1"[..0] == "";
    }
    assert DecodeMulti(0, cs) == Ok(Multi(2, Some(Palette(1))));
    ExtendedNotPlain("38", false, EmptyDelta);
  }

  /** `38;5;202;0`: the trailing `0` is read again and resets the colour just set. */
  lemma DecodePaletteThenZero()
    ensures DecodeItems(["38", "5", "202", "0"]) == Decoded(true, ResetDelta)
  {
    var cs := ["38", "5", "202", "0"];
    assert ParseInt("202") == Some(202) by {
      ParseDecimalString(202);
      assert DecimalString(202) == "202";
    }
    assert DecodeMulti(0, cs) == Ok(Multi(3, Some(Palette(202))));
    ExtendedNotPlain("38", false, EmptyDelta);
  }

  /** `38` and `38;5` at the end of the body index past the list. */
  lemma DecodeTruncatedRaises()
    ensures DecodeItems(["38"]) == DecodeRaised(IndexError)
    ensures DecodeItems(["48", "5"]) == DecodeRaised(IndexError)
  {
    ExtendedNotPlain("38", true, EmptyDelta);
    ExtendedNotPlain("48", false, EmptyDelta);
  }

  /** `38;7`: a selector other than 5 or 2 leaves the index where it was, for ever. */
  lemma DecodeUnknownSelectorHangs()
    ensures DecodeItems(["38", "7"]) == DecodeHangs
  {
    ExtendedNotPlain("38", false, EmptyDelta);
  }

  /**
   * `38;2;1;2;3` hands strings to the hex formatter, which raises; with only
   * two components `38;2;1;2` yields no colour and nothing else is recognised.
   */
  lemma DecodeRgb()
    ensures DecodeItems(["38", "2", "1", "2", "3"]) == DecodeRaised(ValueError)
    ensures DecodeItems(["38", "2", "1", "2"]) == Decoded(false, EmptyDelta)
  {
    ExtendedNotPlain("38", false, EmptyDelta);
    var cs := ["38", "2", "1", "2"];
    assert DecodeMulti(0, cs) == Ok(Multi(3, None));
    assert PlainItem("2", false, EmptyDelta).None?;
  }

  /** Bold brightens a later `3d` only: `1;31` gives palette[9], `31;1` palette[1]. */
  lemma DecodeBoldOrder()
    ensures DecodeItems(["1", "31"]) == Decoded(true, EmptyDelta.(bold := Set(true), fg := Set(Some(Palette(9)))))
    ensures DecodeItems(["31", "1"]) == Decoded(true, EmptyDelta.(fg := Set(Some(Palette(1))), bold := Set(true)))
  {
    ForegroundCode('1', false, EmptyDelta.(bold := Set(true)));
    ForegroundCode('1', false, EmptyDelta);
  }

  /** Codes are compared as strings: `300` lies between `30` and `37` and picks palette[0]. */
  lemma DecodeStringRange()
    ensures DecodeItems(["300"]) == Decoded(true, EmptyDelta.(fg := Set(Some(Palette(0)))))
  {
    assert InRange("300", "30", "37") by {
      assert "300"[1..] == "00" && "30"[1..] == "0" && "37"[1..] == "7";
      assert StrLe("0", "00") && StrLe("00", "7");
    }
  }

  const Esc: char := '\U{1b}'

  /** `\w` on the ASCII range: letters, digits and underscore. */
  predicate IsWordChar(c: char) {
    'a' <= c <= 'z' || 'A' <= c <= 'Z' || IsDigit(c) || c == '_'
  }

  /** `_ansi_charset_regex.sub('', t)`: removes every `ESC [ ]` and the word character after it, if any. */
  function StripCharset(t: string): (r: string)
    ensures |r| <= |t|
    ensures Esc !in t ==> r == t
    decreases |t|
  {
    if |t| >= 3 && t[0] == Esc && t[1] == '[' && t[2] == ']' then
      if |t| >= 4 && IsWordChar(t[3]) then StripCharset(t[4..]) else StripCharset(t[3..])
    else if t == [] then []
    else [t[0]] + StripCharset(t[1..])
  }

  /** `_ansi_null_regex.sub('', t)`: removes every NUL. */
  function StripNul(t: string): (r: string)
    ensures '\0' !in r
    ensures '\0' !in t ==> r == t
    ensures forall c :: c != '\0' ==> multiset(r)[c] == multiset(t)[c]
    decreases |t|
  {
    if t == [] then []
    else if t[0] == '\0' then
      assert t == [t[0]] + t[1..];
      StripNul(t[1..])
    else
      assert t == [t[0]] + t[1..];
      [t[0]] + StripNul(t[1..])
  }

  /** End of the run of parameter characters `[0-9;]` that starts at `i`. */
  function ParamRunEnd(t: string, i: nat): (j: nat)
    requires i <= |t|
    ensures i <= j <= |t|
    ensures IsParamString(t[i..j])
    ensures j == |t| || !IsParamChar(t[j])
    decreases |t| - i
  {
    if i < |t| && IsParamChar(t[i]) then
      var j := ParamRunEnd(t, i + 1);
      assert t[i..j] == [t[i]] + t[i + 1..j];
      j
    else
      i
  }

  /** One `ESC [ [0-9;]* m` (m in either case) at `p`: where it ends and its parameter string. */
  function SgrAt(t: string, p: nat): (r: Option<(nat, string)>)
    requires p <= |t|
    ensures r.Some? ==> p < r.value.0 <= |t| && IsParamString(r.value.1)
  {
    if p + 1 < |t| && t[p] == Esc && t[p + 1] == '[' then
      var q := ParamRunEnd(t, p + 2);
      if q < |t| && (t[q] == 'm' || t[q] == 'M') then Some((q + 1, t[p + 2..q])) else None
    else
      None
  }

  /**
   * The rest of `(?:ESC\[([0-9;]*)m)+\x0f?` after a first sequence ending at
   * `e`: further adjacent sequences and an optional shift-in. Returns the end
   * of the match and the parameter string of its last sequence.
   */
  function SgrRunEnd(t: string, e: nat, body: string): (r: (nat, string))
    requires e <= |t| && IsParamString(body)
    ensures e <= r.0 <= |t| && IsParamString(r.1)
    decreases |t| - e
  {
    match SgrAt(t, e)
    case Some((e', body')) => SgrRunEnd(t, e', body')
    case None => if e < |t| && t[e] == '\U{0f}' then (e + 1, body) else (e, body)
  }

  /** A match of the colour regex: its span and group 1, the last parameter string. */
  datatype SgrMatch = SgrMatch(start: nat, end: nat, body: string)

  /** `_ansi_color_regex.search(t[p:])`: the leftmost match at or after `p`. */
  function FindSgr(t: string, p: nat): (m: Option<SgrMatch>)
    requires p <= |t|
    ensures m.Some? ==> p <= m.value.start < m.value.end <= |t| && IsParamString(m.value.body)
    decreases |t| - p
  {
    if p == |t| then None
    else match SgrAt(t, p)
      case Some((e, body)) =>
        var (end, last) := SgrRunEnd(t, e, body);
        Some(SgrMatch(p, end, last))
      case None => FindSgr(t, p + 1)
  }

  /** FindSgr is a leftmost search: it stops at the first position where a colour sequence starts. */
  lemma {:induction false} FindSgrLeftmost(t: string, p: nat)
    requires p <= |t|
    ensures var m := FindSgr(t, p);
      && (m.Some? ==> SgrAt(t, m.value.start).Some?)
      && (m.Some? ==> forall q :: p <= q < m.value.start ==> SgrAt(t, q).None?)
      && (m.None? ==> forall q :: p <= q <= |t| ==> SgrAt(t, q).None?)
    decreases |t| - p
  {
    if p < |t| && SgrAt(t, p).None? {
      FindSgrLeftmost(t, p + 1);
    }
  }

  /** Text without a colour sequence is left alone by the colour regex. */
  lemma NoEscNoSgr(t: string, p: nat)
    requires p <= |t| && Esc !in t
    ensures FindSgr(t, p).None?
    decreases |t| - p
  {
    if p < |t| {
      NoEscNoSgr(t, p + 1);
    }
  }

  predicate IsUnsupportedCode(c: char) {
    c == '2' || c == '5' || c == '6' || c == '8' || c == '9'
  }

  /** Length of a match of `\x1b\[(0;)?[25689]m` (m in either case) at the start of `t`, or 0. */
  function UnsupportedLength(t: string): (n: nat)
    ensures n == 0 || n == 4 || n == 6
    ensures n <= |t|
  {
    if |t| >= 6 && t[0] == Esc && t[1] == '[' && t[2] == '0' && t[3] == ';' && IsUnsupportedCode(t[4])
       && (t[5] == 'm' || t[5] == 'M') then 6
    else if |t| >= 4 && t[0] == Esc && t[1] == '[' && IsUnsupportedCode(t[2]) && (t[3] == 'm' || t[3] == 'M') then 4
    else 0
  }

  /** `ESC[1m` */
  const BoldSgr: string := [Esc, '[', '1', 'm']

  /** `_ansi_color_unsupported_regex.sub('\x1b[1m', t)`: blink, dim, hidden and the like become bold. */
  function NormalizeUnsupported(t: string): (r: string)
    ensures Esc !in t ==> r == t
    decreases |t|
  {
    if t == [] then []
    else
      var n := UnsupportedLength(t);
      if n > 0 then BoldSgr + NormalizeUnsupported(t[n..]) else [t[0]] + NormalizeUnsupported(t[1..])
  }

  /** `ESC[5m` and `ESC[0;8m` are rewritten to `ESC[1m`. */
  lemma NormalizeExamples()
    ensures NormalizeUnsupported([Esc, '[', '5', 'm']) == BoldSgr
    ensures NormalizeUnsupported([Esc, '[', '0', ';', '8', 'M']) == BoldSgr
    ensures NormalizeUnsupported([Esc, '[', '0', 'm']) == [Esc, '[', '0', 'm']
  {
    assert NormalizeUnsupported([Esc, '[', '0', 'm']) == [Esc] + NormalizeUnsupported(['[', '0', 'm']);
  }

  /** `[text, style]`: a piece of text and the style to draw it with, or None for plain. */
  datatype Section = Section(text: string, style: Option<Style>)

  /** The outcome of `run`: `(found, sections)`, an exception from `_decode`, or a decode that never ends. */
  datatype ColorRun = Colored(found: bool, sections: seq<Section>) | ColorRaised(error: Error) | ColorHangs

  /** The persistent state of the annotator: `_style` and `_style_changed`. */
  datatype Styling = Styling(style: Style, changed: bool)

  /** `self._style.copy() if self._style_changed else None` */
  function Current(st: Styling): Option<Style> {
    if st.changed then Some(st.style) else None
  }

  /** The first two substitutions of `run`. */
  function Clean(text: string): string {
    StripNul(StripCharset(text))
  }

  /** A decoder of the parameter strings of colour sequences, as `_decode` is. */
  ghost predicate Decodes(decode: string --> Decoding) {
    forall body :: IsParamString(body) ==> decode.requires(body)
  }

  /**
   * The loop of `run` over the rest `t` of the text, with the sections `acc`
   * collected so far: text before each colour match becomes a section in the
   * live style, the match's last parameter string is decoded and, when it is
   * recognised, merged into the live style, whose flag is then recomputed.
   * The decoder is a parameter: `run` uses `DecodeSpec`, and the lemmas
   * below hold whatever the decoder answers.
   */
  function RunLoop(decode: string --> Decoding, st: Styling, t: string, acc: seq<Section>): (ColorRun, Styling)
    requires Decodes(decode)
    decreases |t|
  {
    if |t| == 0 then (Colored(true, acc), st)
    else match FindSgr(t, 0)
      case None => (Colored(true, acc + [Section(t, Current(st))]), st)
      case Some(m) =>
        var acc' := if m.start > 0 then acc + [Section(t[..m.start], Current(st))] else acc;
        match decode(m.body)
        case DecodeRaised(e) => (ColorRaised(e), st)
        case DecodeHangs => (ColorHangs, st)
        case Decoded(ret, d) =>
          if !ret then RunLoop(decode, st, t[m.end..], acc')
          else
            var s := Update(st.style, d);
            RunLoop(decode, Styling(s, s != DefaultStyle), t[m.end..], acc')
  }

  /**
   * `run(text)` from the state `st`: the new state and the outcome. Unless a
   * style is live or the cleaned text holds a colour sequence, the cleaned
   * text comes back whole as one plain section and nothing changes.
   */
  function RunSpec(st: Styling, text: string): (r: (ColorRun, Styling))
    ensures (r.0.Colored? && !r.0.found) <==> (!st.changed && FindSgr(Clean(text), 0).None?)
    ensures r.0.Colored? && !r.0.found ==> r.0.sections == [Section(Clean(text), None)] && r.1 == st
  {
    var t := Clean(text);
    if !st.changed && FindSgr(t, 0).None? then (Colored(false, [Section(t, None)]), st)
    else
      RunLoopFound(DecodeSpec, st, NormalizeUnsupported(t), []);
      RunLoop(DecodeSpec, st, NormalizeUnsupported(t), [])
  }

  lemma {:induction false} RunLoopFound(decode: string --> Decoding, st: Styling, t: string, acc: seq<Section>)
    requires Decodes(decode)
    ensures RunLoop(decode, st, t, acc).0.Colored? ==> RunLoop(decode, st, t, acc).0.found
    decreases |t|
  {
    if |t| > 0 {
      match FindSgr(t, 0)
      case None =>
      case Some(m) =>
        var acc' := if m.start > 0 then acc + [Section(t[..m.start], Current(st))] else acc;
        match decode(m.body)
        case DecodeRaised(e) =>
        case DecodeHangs =>
        case Decoded(ret, d) =>
          if !ret {
            RunLoopFound(decode, st, t[m.end..], acc');
          } else {
            var s := Update(st.style, d);
            RunLoopFound(decode, Styling(s, s != DefaultStyle), t[m.end..], acc');
          }
    }
  }

  /** The text left once every colour match is cut out. */
  function Visible(t: string): (v: string)
    ensures |v| <= |t|
    decreases |t|
  {
    match FindSgr(t, 0)
    case None => t
    case Some(m) => t[..m.start] + Visible(t[m.end..])
  }

  /** The concatenated texts of a list of sections. */
  function Texts(secs: seq<Section>): string {
    if secs == [] then [] else Texts(secs[..|secs| - 1]) + secs[|secs| - 1].text
  }

  lemma TextsAppend(acc: seq<Section>, s: Section)
    ensures Texts(acc + [s]) == Texts(acc) + s.text
  {
    assert (acc + [s])[..|acc|] == acc;
  }

  /** A match splits the visible text: the text before it, then the visible rest. */
  lemma VisibleMatch(t: string, m: SgrMatch)
    requires FindSgr(t, 0) == Some(m)
    ensures m.start <= m.end <= |t|
    ensures Visible(t) == t[..m.start] + Visible(t[m.end..])
  {
  }

  /** The text before a match joins the sections' texts; the rest is still to come. */
  lemma TextsBefore(st: Styling, t: string, acc: seq<Section>, m: SgrMatch)
    requires m.start <= m.end <= |t|
    requires Visible(t) == t[..m.start] + Visible(t[m.end..])
    ensures var acc' := if m.start > 0 then acc + [Section(t[..m.start], Current(st))] else acc;
      Texts(acc') + Visible(t[m.end..]) == Texts(acc) + Visible(t)
  {
    if m.start > 0 {
      TextsAppend(acc, Section(t[..m.start], Current(st)));
    } else {
      assert t[..m.start] == [];
    }
  }

  lemma {:induction false} RunLoopTexts(decode: string --> Decoding, st: Styling, t: string, acc: seq<Section>)
    requires Decodes(decode)
    ensures var r := RunLoop(decode, st, t, acc).0; r.Colored? ==> Texts(r.sections) == Texts(acc) + Visible(t)
    decreases |t|
  {
    if |t| > 0 {
      match FindSgr(t, 0)
      case None =>
        TextsAppend(acc, Section(t, Current(st)));
      case Some(m) =>
        var acc' := if m.start > 0 then acc + [Section(t[..m.start], Current(st))] else acc;
        VisibleMatch(t, m);
        TextsBefore(st, t, acc, m);
        match decode(m.body)
        case DecodeRaised(e) =>
        case DecodeHangs =>
        case Decoded(ret, d) =>
          if !ret {
            RunLoopTexts(decode, st, t[m.end..], acc');
          } else {
            var s := Update(st.style, d);
            RunLoopTexts(decode, Styling(s, s != DefaultStyle), t[m.end..], acc');
          }
    }
  }

  /**
   * The sections of a run, put together, are the input without NULs, without
   * `ESC[]` charset fragments and without colour sequences.
   */
  lemma RunTexts(st: Styling, text: string)
    ensures var r := RunSpec(st, text).0;
      r.Colored? ==> Texts(r.sections) == Visible(if r.found then NormalizeUnsupported(Clean(text)) else Clean(text))
  {
    var t := Clean(text);
    if !st.changed && FindSgr(t, 0).None? {
      assert Texts([Section(t, None)]) == t;
    } else {
      RunLoopTexts(DecodeSpec, st, NormalizeUnsupported(t), []);
    }
  }

  lemma {:induction false} RunLoopNonEmpty(decode: string --> Decoding, st: Styling, t: string, acc: seq<Section>)
    requires Decodes(decode)
    requires forall i :: 0 <= i < |acc| ==> acc[i].text != []
    ensures var r := RunLoop(decode, st, t, acc).0;
      r.Colored? ==> forall i :: 0 <= i < |r.sections| ==> r.sections[i].text != []
    decreases |t|
  {
    if |t| > 0 {
      match FindSgr(t, 0)
      case None =>
      case Some(m) =>
        var acc' := if m.start > 0 then acc + [Section(t[..m.start], Current(st))] else acc;
        match decode(m.body)
        case DecodeRaised(e) =>
        case DecodeHangs =>
        case Decoded(ret, d) =>
          if !ret {
            RunLoopNonEmpty(decode, st, t[m.end..], acc');
          } else {
            var s := Update(st.style, d);
            RunLoopNonEmpty(decode, Styling(s, s != DefaultStyle), t[m.end..], acc');
          }
    }
  }

  /** When colour handling is in force (the slow path), no section is empty. */
  lemma RunNonEmpty(st: Styling, text: string)
    ensures var r := RunSpec(st, text).0;
      r.Colored? && r.found ==> forall i :: 0 <= i < |r.sections| ==> r.sections[i].text != []
  {
    RunLoopNonEmpty(DecodeSpec, st, NormalizeUnsupported(Clean(text)), []);
  }

  /** `_style_changed` is exactly "the live style differs from the default". */
  predicate Exact(st: Styling) {
    st.changed == (st.style != DefaultStyle)
  }

  /** No section is drawn in the default style. */
  predicate NoDefaultSections(secs: seq<Section>) {
    forall i :: 0 <= i < |secs| ==> secs[i].style != Some(DefaultStyle)
  }

  lemma {:induction false} RunLoopExact(decode: string --> Decoding, st: Styling, t: string, acc: seq<Section>)
    requires Decodes(decode)
    requires Exact(st)
    requires NoDefaultSections(acc)
    ensures Exact(RunLoop(decode, st, t, acc).1)
    ensures var r := RunLoop(decode, st, t, acc).0; r.Colored? ==> NoDefaultSections(r.sections)
    decreases |t|
  {
    if |t| > 0 {
      match FindSgr(t, 0)
      case None =>
      case Some(m) =>
        var acc' := if m.start > 0 then acc + [Section(t[..m.start], Current(st))] else acc;
        assert Current(st) != Some(DefaultStyle);
        assert NoDefaultSections(acc') by {
          if m.start > 0 {
            forall i | 0 <= i < |acc'|
              ensures acc'[i].style != Some(DefaultStyle)
            {
              if i < |acc| {
                assert acc'[i] == acc[i];
              }
            }
          }
        }
        match decode(m.body)
        case DecodeRaised(e) =>
        case DecodeHangs =>
        case Decoded(ret, d) =>
          if !ret {
            RunLoopExact(decode, st, t[m.end..], acc');
          } else {
            var s := Update(st.style, d);
            var st' := Styling(s, s != DefaultStyle);
            RunLoopExact(decode, st', t[m.end..], acc');
          }
    }
  }

  /**
   * A run keeps the flag exact, and no section is ever drawn in the default
   * style: once a reset brings the style back, later sections are plain.
   */
  lemma RunExact(st: Styling, text: string)
    requires Exact(st)
    ensures Exact(RunSpec(st, text).1)
    ensures var r := RunSpec(st, text).0; r.Colored? ==> NoDefaultSections(r.sections)
  {
    var t := Clean(text);
    if st.changed || FindSgr(t, 0).Some? {
      assert RunSpec(st, text) == RunLoop(DecodeSpec, st, NormalizeUnsupported(t), []);
      RunLoopExact(DecodeSpec, st, NormalizeUnsupported(t), []);
    }
  }

  /** `ESC[0m` is one colour match around the parameter string `0`, and cleaning leaves it alone. */
  lemma ResetMatch()
    ensures Clean([Esc, '[', '0', 'm']) == [Esc, '[', '0', 'm']
    ensures NormalizeUnsupported([Esc, '[', '0', 'm']) == [Esc, '[', '0', 'm']
    ensures FindSgr([Esc, '[', '0', 'm'], 0) == Some(SgrMatch(0, 4, "0"))
  {
    var t := [Esc, '[', '0', 'm'];
    assert StripCharset(t) == t by {
      assert StripCharset(t) == [Esc] + StripCharset(t[1..]);
    }
    assert '\0' !in t;
    NormalizeExamples();
    assert SgrAt(t, 0) == Some((4, "0")) by {
      assert ParamRunEnd(t, 3) == 3;
      assert ParamRunEnd(t, 2) == 3;
      assert t[2..3] == "0";
    }
    assert SgrAt(t, 4).None?;
  }

  /** The parameter string `0` is a full reset. */
  lemma DecodeZero()
    ensures DecodeSpec("0") == Decoded(true, ResetDelta)
  {
    DecodeJoined(["0"]);
  }

  /** `ESC[0m` alone brings any state back to the default, with nothing to draw. */
  lemma RunReset(st: Styling)
    ensures RunSpec(st, [Esc, '[', '0', 'm']) == (Colored(true, []), Styling(DefaultStyle, false))
  {
    var t := [Esc, '[', '0', 'm'];
    ResetMatch();
    DecodeZero();
    UpdateReset(st.style);
    assert RunLoop(DecodeSpec, Styling(DefaultStyle, false), t[4..], []) == (Colored(true, []), Styling(DefaultStyle, false));
  }

  /** Text with no `ESC [ ]` in it is left alone by the charset regex. */
  lemma {:induction false} StripCharsetNone(t: string)
    requires forall i :: 0 <= i && i + 2 < |t| ==> !(t[i] == Esc && t[i + 1] == '[' && t[i + 2] == ']')
    ensures StripCharset(t) == t
    decreases |t|
  {
    if t != [] {
      assert !(|t| >= 3 && t[0] == Esc && t[1] == '[' && t[2] == ']');
      StripCharsetNone(t[1..]);
    }
  }

  /** Text in which no unsupported sequence starts is left alone by the normalisation. */
  lemma {:induction false} NormalizeNone(t: string)
    requires forall i :: 0 <= i < |t| ==> UnsupportedLength(t[i..]) == 0
    ensures NormalizeUnsupported(t) == t
    decreases |t|
  {
    if t != [] {
      assert UnsupportedLength(t[0..]) == 0;
      assert forall i :: 0 <= i < |t[1..]| ==> t[1..][i..] == t[i + 1..];
      NormalizeNone(t[1..]);
    }
  }

  /** The colour search steps over any character but ESC. */
  lemma FindSgrSkip(t: string, p: nat)
    requires p < |t| && t[p] != Esc
    ensures FindSgr(t, p) == FindSgr(t, p + 1)
  {
  }

  /** The parameter string `1` sets bold and nothing else. */
  lemma DecodeOne()
    ensures DecodeSpec("1") == Decoded(true, EmptyDelta.(bold := Set(true)))
  {
    DecodeJoined(["1"]);
  }

  /** `ESC[1mBOLD ESC[0m plain`: `BOLD` is drawn bold, ` plain` is plain, and the style ends at the default. */
  lemma BoldThenPlain()
    ensures RunSpec(Styling(DefaultStyle, false), "\U{1b}[1mBOLD\U{1b}[0m plain") ==
      (Colored(true, [Section("BOLD", Some(DefaultStyle.(bold := true))), Section(" plain", None)]),
       Styling(DefaultStyle, false))
  {
    var t := "\U{1b}[1mBOLD\U{1b}[0m plain";
    BoldPlainClean(t);
    BoldFirstMatch(t);
    DecodeOne();
    DecodeZero();
    BoldThenPlainLoop(DecodeSpec, t);
  }

  /** The loop of `run` over `ESC[1mBOLD ESC[0m plain`, for any decoder that reads `1` and `0` as `_decode` does. */
  lemma BoldThenPlainLoop(decode: string --> Decoding, t: string)
    requires Decodes(decode)
    requires decode("1") == Decoded(true, EmptyDelta.(bold := Set(true))) && decode("0") == Decoded(true, ResetDelta)
    requires t == "\U{1b}[1mBOLD\U{1b}[0m plain"
    ensures RunLoop(decode, Styling(DefaultStyle, false), t, []) ==
      (Colored(true, [Section("BOLD", Some(DefaultStyle.(bold := true))), Section(" plain", None)]),
       Styling(DefaultStyle, false))
  {
    var bold := DefaultStyle.(bold := true);
    BoldStep(decode, t);
    ResetStep(decode, "BOLD\U{1b}[0m plain");
    PlainTail(decode, " plain", [Section("BOLD", Some(bold))]);
    assert [Section("BOLD", Some(bold))] + [Section(" plain", None)] ==
      [Section("BOLD", Some(bold)), Section(" plain", None)];
  }

  /** The loop of `run` takes `ESC[1m` and goes on in bold. */
  lemma BoldStep(decode: string --> Decoding, t: string)
    requires Decodes(decode) && decode("1") == Decoded(true, EmptyDelta.(bold := Set(true)))
    requires t == "\U{1b}[1mBOLD\U{1b}[0m plain"
    ensures RunLoop(decode, Styling(DefaultStyle, false), t, []) ==
      RunLoop(decode, Styling(DefaultStyle.(bold := true), true), "BOLD\U{1b}[0m plain", [])
  {
    BoldFirstMatch(t);
    assert t[4..] == "BOLD\U{1b}[0m plain";
    assert Update(DefaultStyle, EmptyDelta.(bold := Set(true))) == DefaultStyle.(bold := true);
  }

  /** In bold, the loop of `run` draws `BOLD` bold and takes `ESC[0m` back to the default. */
  lemma ResetStep(decode: string --> Decoding, t1: string)
    requires Decodes(decode) && decode("0") == Decoded(true, ResetDelta)
    requires t1 == "BOLD\U{1b}[0m plain"
    ensures var bold := DefaultStyle.(bold := true);
      RunLoop(decode, Styling(bold, true), t1, []) ==
      RunLoop(decode, Styling(DefaultStyle, false), " plain", [Section("BOLD", Some(bold))])
  {
    assert t1[8..] == " plain";
    var bold := DefaultStyle.(bold := true);
    var st1 := Styling(bold, true);
    ResetSecondMatch(t1);
    UpdateReset(bold);
    assert t1[..4] == "BOLD";
    assert Update(st1.style, ResetDelta) == DefaultStyle;
    assert Current(st1) == Some(bold);
    assert [] + [Section(t1[..4], Current(st1))] == [Section("BOLD", Some(bold))];
  }

  /** ` plain`, without ESC, ends the loop of `run` as one last section in the live style. */
  lemma PlainTail(decode: string --> Decoding, t: string, acc: seq<Section>)
    requires Decodes(decode) && t == " plain"
    ensures RunLoop(decode, Styling(DefaultStyle, false), t, acc) ==
      (Colored(true, acc + [Section(t, None)]), Styling(DefaultStyle, false))
  {
    assert Esc !in t;
    NoEscNoSgr(t, 0);
  }

  /** Neither cleaning nor normalising changes `ESC[1mBOLD ESC[0m plain`. */
  lemma BoldPlainClean(t: string)
    requires t == "\U{1b}[1mBOLD\U{1b}[0m plain"
    ensures Clean(t) == t && NormalizeUnsupported(t) == t
  {
    BoldPlainNoCharset(t);
    BoldPlainNormal(t);
  }

  /** `ESC[1mBOLD ESC[0m plain` holds no NUL and no `ESC [ ]`. */
  lemma BoldPlainNoCharset(t: string)
    requires t == "\U{1b}[1mBOLD\U{1b}[0m plain"
    ensures Clean(t) == t
  {
    assert '\0' !in t;
    assert forall i :: 0 <= i < |t| && t[i] == Esc ==> i == 0 || i == 8;
    StripCharsetNone(t);
  }

  /** No unsupported sequence starts in `ESC[1mBOLD ESC[0m plain`. */
  lemma BoldPlainNormal(t: string)
    requires t == "\U{1b}[1mBOLD\U{1b}[0m plain"
    ensures NormalizeUnsupported(t) == t
  {
    forall i | 0 <= i < |t|
      ensures UnsupportedLength(t[i..]) == 0
    {
      if i == 0 || i == 8 {
        assert t[i..][2] == '1' || t[i..][2] == '0';
        assert t[i..][3] == 'm';
      }
    }
    NormalizeNone(t);
  }

  /** The first colour match of `ESC[1mBOLD ESC[0m plain` is `ESC[1m` alone. */
  lemma BoldFirstMatch(t: string)
    requires t == "\U{1b}[1mBOLD\U{1b}[0m plain"
    ensures FindSgr(t, 0) == Some(SgrMatch(0, 4, "1"))
  {
    assert ParamRunEnd(t, 3) == 3;
    assert ParamRunEnd(t, 2) == 3;
    assert t[2..3] == "1";
    assert SgrAt(t, 0) == Some((4, "1"));
    assert SgrAt(t, 4).None?;
    assert SgrRunEnd(t, 4, "1") == (4, "1");
  }

  /** After `ESC[1m`, the next colour match is `ESC[0m` after `BOLD`. */
  lemma ResetSecondMatch(t: string)
    requires t == "BOLD\U{1b}[0m plain"
    ensures FindSgr(t, 0) == Some(SgrMatch(4, 8, "0"))
  {
    assert ParamRunEnd(t, 7) == 7;
    assert ParamRunEnd(t, 6) == 7;
    assert t[6..7] == "0";
    assert SgrAt(t, 4) == Some((8, "0"));
    assert SgrAt(t, 8).None?;
    assert SgrRunEnd(t, 8, "0") == (8, "0");
    FindSgrSkip(t, 0);
    FindSgrSkip(t, 1);
    FindSgrSkip(t, 2);
    FindSgrSkip(t, 3);
  }

  /**
   * The colour annotator of ansi/ansi_color.py: it keeps the live style and
   * its flag from one chunk to the next.
   */
  class AnsiColor {
    var style: Style
    var styleChanged: bool

    constructor ()
      ensures style == DefaultStyle && !styleChanged
    {
      style := DefaultStyle;
      styleChanged := false;
    }

    function State(): Styling
      reads this
    {
      Styling(style, styleChanged)
    }

    /** `run(text)`: splits a chunk into sections, updating the live style. */
    method Run(text: string) returns (r: ColorRun)
      modifies this
      ensures (r, State()) == RunSpec(old(State()), text)
    {
      var t := StripCharset(text);
      t := StripNul(t);
      if !styleChanged && FindSgr(t, 0).None? {
        return Colored(false, [Section(t, None)]);
      }
      t := NormalizeUnsupported(t);
      var sections: seq<Section> := [];
      while true
        invariant RunLoop(DecodeSpec, State(), t, sections) == RunSpec(old(State()), text)
        decreases |t|
      {
        if |t| == 0 {
          break;
        }
        var found := FindSgr(t, 0);
        if found.None? {
          break;
        }
        var m := found.value;
        if m.start > 0 {
          sections := sections + [Section(t[..m.start], Current(State()))];
        }
        t := t[m.end..];
        var decoded := Decode(m.body);
        match decoded {
          case DecodeRaised(e) =>
            return ColorRaised(e);
          case DecodeHangs =>
            return ColorHangs;
          case Decoded(ret, d) =>
            if ret {
              style := Update(style, d);
              styleChanged := style != DefaultStyle;
            }
        }
      }
      if |t| > 0 {
        sections := sections + [Section(t, Current(State()))];
      }
      r := Colored(true, sections);
    }
  }
}
