/** bgraToNV12 of src/encoder/color_convert.hpp and the buffer App::onCaptureFrame gives it.

    The two output planes are defined cell by cell (YPlane, UVPlane).  A right shift by 8 is a floor
    division by 256, and products of 32-bit operands are taken modulo 2^32 as the source computes them. */
module ColorConvert {
  import opened Bits
  import opened Bytes

  function Clamp8(v: int): byte {
    if v < 0 then 0 else if v > 255 then 255 else v
  }

  function LumaOf(r: int, g: int, b: int): int { (66 * r + 129 * g + 25 * b + 128) / 256 + 16 }
  function UOf(r: int, g: int, b: int): int { (-38 * r - 74 * g + 112 * b + 128) / 256 + 128 }
  function VOf(r: int, g: int, b: int): int { (112 * r - 94 * g - 18 * b + 128) / 256 + 128 }

  /** Studio range is kept by the integer formulas alone, so the clamp never acts. */
  lemma StudioRange(r: byte, g: byte, b: byte)
    ensures 16 <= LumaOf(r, g, b) <= 235
    ensures 16 <= UOf(r, g, b) <= 240
    ensures 16 <= VOf(r, g, b) <= 240
    ensures Clamp8(LumaOf(r, g, b)) == LumaOf(r, g, b)
    ensures Clamp8(UOf(r, g, b)) == UOf(r, g, b)
    ensures Clamp8(VOf(r, g, b)) == VOf(r, g, b)
  {
  }

  lemma GreyHasNoChroma(v: byte)
    ensures UOf(v, v, v) == 128 && VOf(v, v, v) == 128
  {
  }

  /** Section 2.5 of Recommendation ITU-R BT.601-7 for 8 bits, before rounding: the luminance
      0.299 R + 0.587 G + 0.114 B scaled to 219 steps above 16, and the colour differences B - Y and R - Y,
      renormalized by 1.772 and 1.402, scaled to 224 steps around 128. */
  function ExactLuma(r: int, g: int, b: int): real {
    (299 * r + 587 * g + 114 * b) as real / 255000.0 * 219.0 + 16.0
  }

  function ExactU(r: int, g: int, b: int): real {
    (-299 * r - 587 * g + 886 * b) as real / 255000.0 / 1.772 * 224.0 + 128.0
  }

  function ExactV(r: int, g: int, b: int): real {
    (701 * r - 587 * g - 114 * b) as real / 255000.0 / 1.402 * 224.0 + 128.0
  }

  /** Is the integer result less than one step away from the exact value? */
  predicate Close(v: int, exact: real) {
    -1.0 < v as real - exact < 1.0
  }

  lemma LumaAccurate(r: byte, g: byte, b: byte)
    ensures Close(LumaOf(r, g, b), ExactLuma(r, g, b))
  {
  }

  lemma UAccurate(r: byte, g: byte, b: byte)
    ensures Close(UOf(r, g, b), ExactU(r, g, b))
  {
  }

  lemma VAccurate(r: byte, g: byte, b: byte)
    ensures Close(VOf(r, g, b), ExactV(r, g, b))
  {
  }

  // ---------- the planes ----------

  /** A BGRA image in memory: rows of stride bytes, of which the first 4 * width are pixels. */
  datatype Image = Image(bytes: seq<byte>, width: uint32, height: uint32, stride: uint32)

  predicate Convertible(im: Image) {
    && im.width % 2 == 0 && im.height % 2 == 0
    && im.width as int * 4 <= im.stride
    && im.height as int * im.stride as int < TWO_32
    && im.height as int * im.stride as int <= |im.bytes|
  }

  lemma PixelInside(im: Image, x: nat, y: nat)
    requires Convertible(im) && x < im.width && y < im.height
    ensures y * im.stride as int + 4 * x + 3 < im.height as int * im.stride as int
    ensures y * im.width as int + x < im.height as int * im.width as int <= im.height as int * im.stride as int
  {
    MulMonotone(y + 1, im.height, im.stride);
    MulMonotone(y + 1, im.height, im.width);
    assert (y + 1) * im.stride as int == y * im.stride as int + im.stride as int;
    assert (y + 1) * im.width as int == y * im.width as int + im.width as int;
    MulOrder(im.height, im.width, im.stride);
  }

  lemma MulOrder(k: nat, m: nat, n: nat)
    requires m <= n
    ensures k * m <= k * n
  {
  }

  function Channel(im: Image, x: nat, y: nat, c: nat): byte
    requires Convertible(im) && x < im.width && y < im.height && c < 4
  {
    PixelInside(im, x, y);
    im.bytes[y * im.stride as int + 4 * x + c]
  }

  function LumaAt(im: Image, x: nat, y: nat): byte
    requires Convertible(im) && x < im.width && y < im.height
  {
    Clamp8(LumaOf(Channel(im, x, y, 2), Channel(im, x, y, 1), Channel(im, x, y, 0)))
  }

  function UAt(im: Image, x: nat, y: nat): byte
    requires Convertible(im) && x < im.width && y < im.height
  {
    Clamp8(UOf(Channel(im, x, y, 2), Channel(im, x, y, 1), Channel(im, x, y, 0)))
  }

  function VAt(im: Image, x: nat, y: nat): byte
    requires Convertible(im) && x < im.width && y < im.height
  {
    Clamp8(VOf(Channel(im, x, y, 2), Channel(im, x, y, 1), Channel(im, x, y, 0)))
  }

  function Row(i: nat, w: nat): nat { if w == 0 then 0 else i / w }
  function Col(i: nat, w: nat): nat { if w == 0 then 0 else i % w }

  lemma CellInside(i: nat, w: nat, h: nat)
    requires i < w * h
    ensures Row(i, w) < h && Col(i, w) < w
  {
    if i / w >= h {
      MulMonotone(h, i / w, w);
    }
  }

  /** Cell i of the Y plane belongs to the pixel in column i % width of row i / width. */
  function YCell(im: Image, i: nat): byte
    requires Convertible(im) && i < im.width as int * im.height as int
  {
    hide Convertible, Row, Col;
    CellInside(i, im.width, im.height);
    LumaAt(im, Col(i, im.width), Row(i, im.width))
  }

  function YPlane(im: Image): (p: seq<byte>)
    requires Convertible(im)
    ensures |p| == im.width as int * im.height as int
  {
    seq(im.width as int * im.height as int, i requires 0 <= i < im.width as int * im.height as int => YCell(im, i))
  }

  /** U in even columns and V in odd ones, of the top-left pixel of the 2x2 block. */
  function BlockCell(im: Image, x: nat, row: nat): byte
    requires Convertible(im) && x < im.width && row < im.height / 2
  {
    if x % 2 == 0 then UAt(im, x, row * 2) else VAt(im, x - 1, row * 2)
  }

  /** Cell i of the interleaved plane. */
  function UVCell(im: Image, i: nat): byte
    requires Convertible(im) && i < im.width as int * (im.height / 2)
  {
    hide Convertible, Row, Col;
    CellInside(i, im.width, im.height / 2);
    BlockCell(im, Col(i, im.width), Row(i, im.width))
  }

  function UVPlane(im: Image): (p: seq<byte>)
    requires Convertible(im)
    ensures |p| == im.width as int * (im.height / 2)
  {
    seq(im.width as int * (im.height / 2), i requires 0 <= i < im.width as int * (im.height / 2) => UVCell(im, i))
  }

  lemma IndexOf(x: nat, y: nat, w: nat, h: nat)
    requires x < w && y < h
    ensures y * w + x < w * h && Row(y * w + x, w) == y && Col(y * w + x, w) == x
  {
    MulMonotone(y + 1, h, w);
    assert (y + 1) * w == y * w + w;
    DivUnique(y * w + x, w, y, x);
    assert y * w + x == (y * w + x) / w * w + (y * w + x) % w;
  }

  /** Every pixel's luma is in its own cell. */
  lemma YPlaneAt(im: Image, x: nat, y: nat)
    requires Convertible(im) && x < im.width && y < im.height
    ensures y * im.width as int + x < |YPlane(im)|
    ensures YPlane(im)[y * im.width as int + x] == LumaAt(im, x, y)
  {
    hide LumaAt, Row, Col;
    IndexOf(x, y, im.width, im.height);
  }

  lemma EvenSize(im: Image)
    requires Convertible(im)
    ensures im.width % 2 == 0 && im.height % 2 == 0
  {
  }

  /** Every 2x2 block has one U and one V cell, both of its top-left pixel. */
  lemma UVPlaneAt(im: Image, x: nat, row: nat)
    requires Convertible(im) && x < im.width && x % 2 == 0 && row < im.height / 2
    ensures row * im.width as int + x + 1 < |UVPlane(im)|
    ensures UVPlane(im)[row * im.width as int + x] == UAt(im, x, 2 * row)
    ensures UVPlane(im)[row * im.width as int + x + 1] == VAt(im, x, 2 * row)
  {
    hide UAt, VAt, Row, Col, Convertible;
    EvenSize(im);
    IndexOf(x, row, im.width, im.height / 2);
    IndexOf(x + 1, row, im.width, im.height / 2);
  }

  /** cell is the 8-bit value nearest to offset + weighted / 256, a half being rounded up. */
  predicate Nearest(cell: int, offset: int, weighted: int) {
    -128 < 256 * (cell - offset) - weighted <= 128
  }

  lemma Rounds(r: byte, g: byte, b: byte)
    ensures Nearest(Clamp8(LumaOf(r, g, b)), 16, 66 * r as int + 129 * g as int + 25 * b as int)
    ensures Nearest(Clamp8(UOf(r, g, b)), 128, -38 * r as int - 74 * g as int + 112 * b as int)
    ensures Nearest(Clamp8(VOf(r, g, b)), 128, 112 * r as int - 94 * g as int - 18 * b as int)
  {
    StudioRange(r, g, b);
  }

  lemma PixelBytes(im: Image, x: nat, y: nat, o: nat)
    requires Convertible(im) && x < im.width && y < im.height && o == y * im.stride as int + 4 * x
    ensures o + 2 < |im.bytes|
    ensures LumaAt(im, x, y) == Clamp8(LumaOf(im.bytes[o + 2], im.bytes[o + 1], im.bytes[o]))
    ensures UAt(im, x, y) == Clamp8(UOf(im.bytes[o + 2], im.bytes[o + 1], im.bytes[o]))
    ensures VAt(im, x, y) == Clamp8(VOf(im.bytes[o + 2], im.bytes[o + 1], im.bytes[o]))
  {
    hide LumaOf, UOf, VOf, Clamp8;
    PixelInside(im, x, y);
  }

  /** Cell i of the Y plane belongs to the pixel whose blue, green and red are at o. */
  lemma YFromBytes(im: Image, x: nat, y: nat, i: nat, o: nat)
    requires Convertible(im) && x < im.width && y < im.height
    requires i == y * im.width as int + x && o == y * im.stride as int + 4 * x
    ensures i < |YPlane(im)| && o + 2 < |im.bytes|
    ensures Nearest(YPlane(im)[i], 16,
                    66 * im.bytes[o + 2] as int + 129 * im.bytes[o + 1] as int + 25 * im.bytes[o] as int)
  {
    hide YPlane, Nearest, LumaOf, LumaAt, UAt, VAt, Convertible, Clamp8;
    YPlaneAt(im, x, y);
    PixelBytes(im, x, y, o);
    Rounds(im.bytes[o + 2], im.bytes[o + 1], im.bytes[o]);
  }

  /** Cells i and i + 1 of the interleaved plane belong to the block whose top-left pixel is at o. */
  lemma UVFromBytes(im: Image, x: nat, row: nat, i: nat, o: nat)
    requires Convertible(im) && x < im.width && x % 2 == 0 && row < im.height / 2
    requires i == row * im.width as int + x && o == 2 * row * im.stride as int + 4 * x
    ensures i + 1 < |UVPlane(im)| && o + 2 < |im.bytes|
    ensures var b, g, r := im.bytes[o] as int, im.bytes[o + 1] as int, im.bytes[o + 2] as int;
            && Nearest(UVPlane(im)[i], 128, -38 * r - 74 * g + 112 * b)
            && Nearest(UVPlane(im)[i + 1], 128, 112 * r - 94 * g - 18 * b)
  {
    hide UVPlane, Nearest, UOf, VOf, LumaAt, UAt, VAt, Convertible, Clamp8;
    UVPlaneAt(im, x, row);
    PixelBytes(im, x, 2 * row, o);
    Rounds(im.bytes[o + 2], im.bytes[o + 1], im.bytes[o]);
  }

  // ---------- the loops ----------

  function Mul32(a: uint32, b: uint32): uint32 { a as int * b as int % TWO_32 }

  lemma SmallProduct(a: uint32, b: uint32)
    requires a as int * b as int < TWO_32
    ensures Mul32(a, b) == a as int * b as int
  {
    SmallMod(a as int * b as int);
  }

  lemma NoOverflow(im: Image, x: nat, y: nat)
    requires Convertible(im) && x < im.width && y < im.height
    ensures Mul32(y, im.stride) == y * im.stride as int
    ensures Mul32(y, im.width) == y * im.width as int
    ensures Mul32(y / 2, im.width) == y / 2 * im.width as int
  {
    hide Mul32;
    PixelInside(im, x, y);
    MulMonotone(y / 2, y, im.width);
    SmallProduct(y, im.stride);
    SmallProduct(y, im.width);
    SmallProduct(y / 2, im.width);
  }

  /** A destination whose first n cells from o on have been filled from a plane. */
  function Filled(was: seq<byte>, o: nat, plane: seq<byte>, n: nat): seq<byte>
    requires n <= |plane| && o + |plane| <= |was|
  {
    Splice(was, o, plane[..n])
  }

  lemma FillEnds(was: seq<byte>, o: nat, plane: seq<byte>)
    requires o + |plane| <= |was|
    ensures Filled(was, o, plane, 0) == was
    ensures Filled(was, o, plane, |plane|) == Splice(was, o, plane)
  {
    assert plane[..|plane|] == plane;
  }

  lemma FillOne(was: seq<byte>, o: nat, plane: seq<byte>, n: nat)
    requires n < |plane| && o + |plane| <= |was|
    ensures |Filled(was, o, plane, n)| == |was|
    ensures Filled(was, o, plane, n)[o + n := plane[n]] == Filled(was, o, plane, n + 1)
  {
  }

  /** The indices from o on, n of them. */
  function Cells(o: nat, n: nat): (cells: seq<nat>)
    ensures |cells| == n
  {
    seq(n, i => o + i)
  }

  lemma OneMore(o: nat, n: nat)
    ensures Cells(o, 0) == []
    ensures Cells(o, n) + [o + n] == Cells(o, n + 1)
  {
  }

  /** Every write of the converter: log records where they went, in order. */
  method WriteCell(dst: array<byte>, i: nat, v: byte, ghost log: seq<nat>) returns (ghost log': seq<nat>)
    requires i < dst.Length
    modifies dst
    ensures dst[..] == old(dst[..])[i := v]
    ensures log' == log + [i]
  {
    dst[i] := v;
    log' := log + [i];
  }

  method ReadLuma(im: Image, x: uint32, y: uint32) returns (luma: byte)
    requires Convertible(im) && x < im.width && y < im.height
    ensures luma == LumaAt(im, x, y)
  {
    PixelInside(im, x, y);
    NoOverflow(im, x, y);
    var row := Mul32(y, im.stride);
    var b, g, r := im.bytes[row + x * 4], im.bytes[row + x * 4 + 1], im.bytes[row + x * 4 + 2];
    luma := Clamp8((66 * r as int + 129 * g as int + 25 * b as int + 128) / 256 + 16);
  }

  method ReadChroma(im: Image, x: uint32, y: uint32) returns (u: byte, v: byte)
    requires Convertible(im) && x < im.width && y < im.height
    ensures u == UAt(im, x, y) && v == VAt(im, x, y)
  {
    PixelInside(im, x, y);
    NoOverflow(im, x, y);
    var row := Mul32(y, im.stride);
    var b, g, r := im.bytes[row + x * 4], im.bytes[row + x * 4 + 1], im.bytes[row + x * 4 + 2];
    u := Clamp8((-38 * r as int - 74 * g as int + 112 * b as int + 128) / 256 + 128);
    v := Clamp8((112 * r as int - 94 * g as int - 18 * b as int + 128) / 256 + 128);
  }

  /** The index of the first cell of a row. */
  function RowStart(im: Image, row: nat): nat { row * im.width as int }

  lemma NextRow(im: Image, row: nat)
    ensures RowStart(im, row + 1) == RowStart(im, row) + im.width as int
  {
  }

  lemma RowEnds(im: Image)
    requires Convertible(im)
    ensures RowStart(im, 0) == 0
    ensures RowStart(im, im.height) == |YPlane(im)|
    ensures RowStart(im, im.height / 2) == |UVPlane(im)|
  {
  }

  method ConvertLumaRow(im: Image, dst: array<byte>, yAt: nat, y: uint32, ghost was: seq<byte>, ghost log: seq<nat>)
    returns (ghost log': seq<nat>)
    requires Convertible(im) && y < im.height
    requires |was| == dst.Length && yAt + |YPlane(im)| <= dst.Length
    requires RowStart(im, y) <= |YPlane(im)|
    requires dst[..] == Filled(was, yAt, YPlane(im), RowStart(im, y))
    requires log == Cells(yAt, RowStart(im, y))
    modifies dst
    ensures RowStart(im, y + 1) <= |YPlane(im)|
    ensures dst[..] == Filled(was, yAt, YPlane(im), RowStart(im, y + 1))
    ensures log' == Cells(yAt, RowStart(im, y + 1))
  {
    hide LumaAt, YPlane, Convertible, Mul32, Filled, Cells;
    ghost var n := RowStart(im, y);
    NextRow(im, y);
    log' := log;
    var x := 0;
    while x < im.width
      invariant 0 <= x <= im.width && n + x <= |YPlane(im)|
      invariant dst[..] == Filled(was, yAt, YPlane(im), n + x)
      invariant log' == Cells(yAt, n + x)
    {
      NoOverflow(im, x, y);
      YPlaneAt(im, x, y);
      FillOne(was, yAt, YPlane(im), n + x);
      OneMore(yAt, n + x);
      var luma := ReadLuma(im, x, y);
      log' := WriteCell(dst, yAt + Mul32(y, im.width) + x, luma, log');
      x := x + 1;
    }
  }

  /** The luma loop. */
  method ConvertLuma(im: Image, dst: array<byte>, yAt: nat) returns (ghost log: seq<nat>)
    requires Convertible(im)
    requires yAt + im.width as int * im.height as int <= dst.Length
    modifies dst
    ensures dst[..] == Splice(old(dst[..]), yAt, YPlane(im))
    ensures log == Cells(yAt, |YPlane(im)|)
  {
    hide YPlane, Convertible, Filled, Splice, RowStart, Cells;
    RowEnds(im);
    ghost var was := dst[..];
    FillEnds(was, yAt, YPlane(im));
    OneMore(yAt, 0);
    log := [];
    var y := 0;
    while y < im.height
      invariant 0 <= y <= im.height && RowStart(im, y) <= |YPlane(im)|
      invariant dst[..] == Filled(was, yAt, YPlane(im), RowStart(im, y))
      invariant log == Cells(yAt, RowStart(im, y))
    {
      log := ConvertLumaRow(im, dst, yAt, y, was, log);
      y := y + 1;
    }
  }

  /** One 2x2 block: the next two cells of the interleaved plane. */
  method ConvertBlock(im: Image, dst: array<byte>, uvAt: nat, x: uint32, y: uint32,
                      ghost row: nat, ghost n: nat, ghost was: seq<byte>, ghost log: seq<nat>)
    returns (ghost log': seq<nat>)
    requires Convertible(im) && x < im.width && x % 2 == 0 && y < im.height && y == 2 * row
    requires |was| == dst.Length && uvAt + |UVPlane(im)| <= dst.Length
    requires n == RowStart(im, row) + x && n <= |UVPlane(im)|
    requires dst[..] == Filled(was, uvAt, UVPlane(im), n)
    requires log == Cells(uvAt, n)
    modifies dst
    ensures n + 2 <= |UVPlane(im)|
    ensures dst[..] == Filled(was, uvAt, UVPlane(im), n + 2)
    ensures log' == Cells(uvAt, n + 2)
  {
    hide UAt, VAt, UVPlane, Convertible, Mul32, Filled, Cells;
    EvenSize(im);
    assert y / 2 == row;
    NoOverflow(im, x, y);
    UVPlaneAt(im, x, row);
    FillOne(was, uvAt, UVPlane(im), n);
    FillOne(was, uvAt, UVPlane(im), n + 1);
    OneMore(uvAt, n);
    OneMore(uvAt, n + 1);
    var u, v := ReadChroma(im, x, y);
    var uv := uvAt + Mul32(y / 2, im.width);
    log' := WriteCell(dst, uv + x, u, log);
    log' := WriteCell(dst, uv + x + 1, v, log');
  }

  method ConvertChromaRow(im: Image, dst: array<byte>, uvAt: nat, y: uint32,
                          ghost row: nat, ghost was: seq<byte>, ghost log: seq<nat>)
    returns (ghost log': seq<nat>)
    requires Convertible(im) && y < im.height && y == 2 * row
    requires |was| == dst.Length && uvAt + |UVPlane(im)| <= dst.Length
    requires RowStart(im, row) <= |UVPlane(im)|
    requires dst[..] == Filled(was, uvAt, UVPlane(im), RowStart(im, row))
    requires log == Cells(uvAt, RowStart(im, row))
    modifies dst
    ensures RowStart(im, row + 1) <= |UVPlane(im)|
    ensures dst[..] == Filled(was, uvAt, UVPlane(im), RowStart(im, row + 1))
    ensures log' == Cells(uvAt, RowStart(im, row + 1))
  {
    hide UVPlane, Convertible, Filled, Cells;
    EvenSize(im);
    ghost var n := RowStart(im, row);
    NextRow(im, row);
    log' := log;
    var x := 0;
    while x < im.width
      invariant 0 <= x <= im.width && x % 2 == 0 && n + x <= |UVPlane(im)|
      invariant dst[..] == Filled(was, uvAt, UVPlane(im), n + x)
      invariant log' == Cells(uvAt, n + x)
    {
      log' := ConvertBlock(im, dst, uvAt, x, y, row, n + x, was, log');
      x := x + 2;
    }
  }

  /** The chroma loop over 2x2 blocks. */
  method ConvertChroma(im: Image, dst: array<byte>, uvAt: nat) returns (ghost log: seq<nat>)
    requires Convertible(im)
    requires uvAt + im.width as int * (im.height / 2) <= dst.Length
    modifies dst
    ensures dst[..] == Splice(old(dst[..]), uvAt, UVPlane(im))
    ensures log == Cells(uvAt, |UVPlane(im)|)
  {
    hide UVPlane, Convertible, Filled, Splice, RowStart, Cells;
    RowEnds(im);
    EvenSize(im);
    ghost var was := dst[..];
    FillEnds(was, uvAt, UVPlane(im));
    OneMore(uvAt, 0);
    log := [];
    ghost var row := 0;
    var y := 0;
    while y < im.height
      invariant 0 <= y <= im.height && y == 2 * row
      invariant RowStart(im, row) <= |UVPlane(im)|
      invariant dst[..] == Filled(was, uvAt, UVPlane(im), RowStart(im, row))
      invariant log == Cells(uvAt, RowStart(im, row))
    {
      log := ConvertChromaRow(im, dst, uvAt, y, row, was, log);
      row := row + 1;
      y := y + 2;
    }
    assert row == im.height / 2;
  }

  /** Both loops: every cell of both planes is written once, in order, with its value, and nothing else in
      memory changes. */
  method BgraToNV12(im: Image, dst: array<byte>, yAt: nat, uvAt: nat) returns (ghost log: seq<nat>)
    requires Convertible(im)
    requires yAt + im.width as int * im.height as int <= uvAt
    requires uvAt + im.width as int * (im.height / 2) <= dst.Length
    modifies dst
    ensures dst[..] == Splice(Splice(old(dst[..]), yAt, YPlane(im)), uvAt, UVPlane(im))
    ensures log == Cells(yAt, |YPlane(im)|) + Cells(uvAt, |UVPlane(im)|)
    ensures WritesEach(log, yAt, |YPlane(im)|, uvAt, |UVPlane(im)|)
  {
    log := ConvertLuma(im, dst, yAt);
    ghost var log' := ConvertChroma(im, dst, uvAt);
    log := log + log';
    EachCellOnce(yAt, |YPlane(im)|, uvAt, |UVPlane(im)|);
  }

  /** Is every cell of two areas written exactly once, and no other cell? */
  ghost predicate WritesEach(log: seq<nat>, o: nat, n: nat, p: nat, m: nat) {
    forall cell: nat :: multiset(log)[cell] == if o <= cell < o + n || p <= cell < p + m then 1 else 0
  }

  lemma {:induction false} CellsOnce(o: nat, n: nat, cell: nat)
    ensures multiset(Cells(o, n))[cell] == if o <= cell < o + n then 1 else 0
  {
    if n > 0 {
      CellsOnce(o, n - 1, cell);
      OneMore(o, n - 1);
    }
  }

  lemma EachCellOnce(o: nat, n: nat, p: nat, m: nat)
    requires o + n <= p
    ensures WritesEach(Cells(o, n) + Cells(p, m), o, n, p, m)
  {
    forall cell: nat
      ensures multiset(Cells(o, n) + Cells(p, m))[cell] == if o <= cell < o + n || p <= cell < p + m then 1 else 0
    {
      CellsOnce(o, n, cell);
      CellsOnce(p, m, cell);
    }
  }

  lemma HalfProduct(w: nat, h: nat)
    requires h % 2 == 0
    ensures w * h / 2 == w * (h / 2)
  {
    assert w * h == w * (h / 2) * 2;
  }

  /** App::onCaptureFrame: the planes tile the width * height * 3 / 2 bytes of the encoder's buffer. */
  method Nv12Frame(im: Image) returns (nv12: array<byte>)
    requires Convertible(im)
    ensures nv12.Length == im.width as int * im.height as int + im.width as int * im.height as int / 2
    ensures nv12[..] == YPlane(im) + UVPlane(im)
  {
    var ySize := im.width as int * im.height as int;
    HalfProduct(im.width, im.height);
    nv12 := new byte[ySize + ySize / 2];
    ghost var was := nv12[..];
    ghost var log := BgraToNV12(im, nv12, 0, ySize);
    Tiled(was, YPlane(im), UVPlane(im));
  }

  lemma Tiled(was: seq<byte>, p: seq<byte>, q: seq<byte>)
    requires |was| == |p| + |q|
    ensures Splice(Splice(was, 0, p), |p|, q) == p + q
  {
    assert Splice(was, 0, p)[..|p|] == p;
  }
}
