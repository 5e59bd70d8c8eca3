/** Double buffering of the frontend's framebuffer. */
module PageFlip {
  // Which page is drawn, which one is visible, and what happens when panning fails.


  /** What the kernel reports about the framebuffer. */
  datatype Geometry = Geometry(
    xres: nat,
    yres: nat,
    yresVirtual: nat,
    xoffset: nat,
    yoffset: nat,
    bitsPerPixel: nat,
    lineLength: nat,
    smemLength: nat)

  function BytesPerPixel(g: Geometry): nat {
    (g.bitsPerPixel + 7) / 8
  }

  function MapSize(g: Geometry): nat {
    if g.smemLength != 0 then g.smemLength else g.lineLength * g.yresVirtual
  }

  function FrameBytes(g: Geometry): nat {
    g.lineLength * g.yres
  }

  function Offset(g: Geometry, yoffset: nat): nat {
    yoffset * g.lineLength
  }

  function StartOffset(g: Geometry): nat {
    g.yoffset * g.lineLength + g.xoffset * BytesPerPixel(g)
  }

  /** The checks of `renderer_init`. */
  predicate Usable(g: Geometry) {
    && BytesPerPixel(g) in {2, 3, 4}
    && g.lineLength != 0 && g.xres != 0 && g.yres != 0
    && MapSize(g) > 0 && StartOffset(g) + FrameBytes(g) <= MapSize(g)
  }

  /** `frame_offset_valid` */
  predicate InMap(g: Geometry, offset: nat) {
    FrameBytes(g) > 0 && offset + FrameBytes(g) <= MapSize(g)
  }

  function OtherPage(g: Geometry, yoffset: nat): nat {
    if yoffset < g.yres then g.yres else 0
  }

  /** Double buffering is switched on at the start. */
  predicate StartsDouble(g: Geometry, allowed: bool) {
    && allowed
    && g.yresVirtual >= g.yres * 2 && g.yoffset + g.yres <= g.yresVirtual
    && InMap(g, Offset(g, OtherPage(g, g.yoffset))) && OtherPage(g, g.yoffset) + g.yres <= g.yresVirtual
  }

  /** A row of pixels fits the line length. */
  predicate RowsFit(g: Geometry) {
    g.xres * BytesPerPixel(g) <= g.lineLength
  }

  predicate Disjoint(g: Geometry, a: nat, b: nat) {
    a + FrameBytes(g) <= b || b + FrameBytes(g) <= a
  }

  /** A start position whose page the first drawing page does not touch. */
  predicate AlignedStart(g: Geometry) {
    || g.yoffset >= g.yres
    || (g.yoffset == 0 && g.xoffset == 0)
    || StartOffset(g) >= 2 * FrameBytes(g)
  }

  /** The first drawing page is apart from the visible one exactly for an aligned start. */
  lemma {:induction false} StartDisjoint(g: Geometry)
    requires Usable(g)
    ensures Disjoint(g, Offset(g, OtherPage(g, g.yoffset)), StartOffset(g)) <==> AlignedStart(g)
  {
    FrameNotEmpty(g);
    if g.yoffset >= g.yres {
      MulMonotone(g.yres, g.yoffset, g.lineLength);
    } else if g.yoffset > 0 {
      MulMonotone(1, g.yoffset, g.lineLength);
    } else if g.xoffset > 0 {
      MulMonotone(1, g.xoffset, BytesPerPixel(g));
    }
  }

  /** The byte of a pixel, relative to its page; `rotated` turns the screen by 180 degrees. */
  function PixelOffset(g: Geometry, rotated: bool, x: nat, y: nat): nat
    requires x < g.xres && y < g.yres
  {
    if rotated then RowColumn(g, g.xres - 1 - x, g.yres - 1 - y) else RowColumn(g, x, y)
  }

  function RowColumn(g: Geometry, x: nat, y: nat): nat {
    y * g.lineLength + x * BytesPerPixel(g)
  }

  lemma {:induction false} MulMonotone(a: nat, b: nat, l: nat)
    requires a <= b
    ensures a * l <= b * l
  {
  }

  function Page(g: Geometry, bytes: seq<int>, offset: nat): seq<int>
    requires offset + FrameBytes(g) <= |bytes|
  {
    bytes[offset..offset + FrameBytes(g)]
  }

  predicate SameOutside(g: Geometry, before: seq<int>, after: seq<int>, page: nat) {
    && |after| == |before|
    && forall i :: 0 <= i < |before| && !(page <= i < page + FrameBytes(g)) ==> after[i] == before[i]
  }

  /** The `n` bytes at `p` hold the colour, lowest byte first, and the others are as before. */
  predicate Painted(before: seq<int>, after: seq<int>, p: nat, n: nat, color: nat) {
    && |after| == |before| && p + n <= |before|
    && (forall k :: 0 <= k < n ==> after[p + k] == ColorByte(color, k))
    && (forall i :: 0 <= i < |before| && !(p <= i < p + n) ==> after[i] == before[i])
  }

  method StoreColor(mem: array<int>, p: nat, n: nat, color: nat)
    requires p + n <= mem.Length
    modifies mem
    ensures Painted(old(mem[..]), mem[..], p, n, color)
  {
    for k := 0 to n
      invariant Painted(old(mem[..]), mem[..], p, k, color)
    {
      mem[p + k] := ColorByte(color, k);
    }
  }

  lemma {:induction false} PaintStays(g: Geometry, before: seq<int>, after: seq<int>, page: nat, p: nat, color: nat)
    requires Painted(before, after, page + p, BytesPerPixel(g), color)
    requires p + BytesPerPixel(g) <= FrameBytes(g)
    ensures SameOutside(g, before, after, page)
  {
  }

  lemma {:induction false} OutsideKeepsPage(g: Geometry, before: seq<int>, after: seq<int>, page: nat, other: nat)
    requires SameOutside(g, before, after, page) && Disjoint(g, page, other)
    requires other + FrameBytes(g) <= |before|
    ensures Page(g, after, other) == Page(g, before, other)
  {
  }

  method CopyPage(g: Geometry, mem: array<int>, to: nat, from: nat)
    requires to + FrameBytes(g) <= mem.Length && from + FrameBytes(g) <= mem.Length
    modifies mem
    ensures Page(g, mem[..], to) == Page(g, old(mem[..]), from)
    ensures SameOutside(g, old(mem[..]), mem[..], to)
  {
    forall i | 0 <= i < FrameBytes(g) {
      mem[to + i] := mem[from + i];
    }
    forall i | 0 <= i < FrameBytes(g)
      ensures Page(g, mem[..], to)[i] == Page(g, old(mem[..]), from)[i]
    {
      assert mem[to + i] == old(mem[from + i]);
    }
  }

  class Renderer {
    const g: Geometry
    const mem: array<int>
    var visibleYoffset: nat
    var visibleOffset: nat
    var activeOffset: nat
    var drawYoffset: nat
    var doubleBuffer: bool
    var rotation180: bool
    /** Where the panel reads its picture from: the kernel's own offsets, not the renderer's. */
    ghost var scanout: nat

    /** Both pages lie in the mapping, and the renderer knows which one is shown. */
    ghost predicate Valid()
      reads this
    {
      && Usable(g)
      && mem.Length == MapSize(g)
      && InMap(g, visibleOffset) && InMap(g, activeOffset)
      && scanout == visibleOffset
      && (doubleBuffer ==>
            && g.yresVirtual >= g.yres * 2 && MapSize(g) >= 2 * FrameBytes(g)
            && drawYoffset in {0, g.yres}
            && activeOffset == Offset(g, drawYoffset))
    }

    /** What is drawn does not show: the two pages share no byte. */
    ghost predicate Separate()
      reads this
    {
      doubleBuffer ==> Disjoint(g, activeOffset, scanout)
    }

    /** `renderer_init` on a framebuffer that passed its checks. */
    constructor (g: Geometry, mem: array<int>, allowed: bool, rotation180: bool)
      requires Usable(g) && mem.Length == MapSize(g)
      ensures Separate() <==> (StartsDouble(g, allowed) ==> AlignedStart(g))
      ensures Valid() && this.g == g && this.mem == mem
      ensures doubleBuffer == StartsDouble(g, allowed)
      ensures scanout == StartOffset(g)
      ensures activeOffset == if doubleBuffer then Offset(g, OtherPage(g, g.yoffset)) else StartOffset(g)
    {
      StartDisjoint(g);
      FrameNotEmpty(g);
      this.g := g;
      this.mem := mem;
      this.rotation180 := rotation180;
      scanout := StartOffset(g);
      visibleYoffset := g.yoffset;
      visibleOffset := g.yoffset * g.lineLength + g.xoffset * BytesPerPixel(g);
      activeOffset := g.yoffset * g.lineLength + g.xoffset * BytesPerPixel(g);
      drawYoffset := g.yoffset;
      doubleBuffer := false;
      if allowed && g.yresVirtual >= g.yres * 2 && g.yoffset + g.yres <= g.yresVirtual {
        var yoffset := if g.yoffset < g.yres then g.yres else 0;
        if InMap(g, Offset(g, yoffset)) && yoffset + g.yres <= g.yresVirtual {
          drawYoffset := yoffset;
          activeOffset := Offset(g, yoffset);
          doubleBuffer := true;
        }
      }
    }

    /**
     `put_pixel`: a pixel on the screen sets its bytes when they lie in the mapping, any other call
     does nothing. Rows that fit the line length keep every pixel of the screen inside the drawing
     page, so with separate pages nothing shows.
     */
    method PutPixel(x: int, y: int, color: nat)
      requires Valid()
      modifies mem
      ensures if 0 <= x < g.xres && 0 <= y < g.yres
                 && activeOffset + PixelOffset(g, rotation180, x, y) + BytesPerPixel(g) <= mem.Length
              then Painted(old(mem[..]), mem[..], activeOffset + PixelOffset(g, rotation180, x, y), BytesPerPixel(g),
                           color)
              else mem[..] == old(mem[..])
      ensures RowsFit(g) ==>
                && (0 <= x < g.xres && 0 <= y < g.yres ==>
                      activeOffset + PixelOffset(g, rotation180, x, y) + BytesPerPixel(g) <= mem.Length)
                && SameOutside(g, old(mem[..]), mem[..], activeOffset)
                && (doubleBuffer && Separate() ==> Page(g, mem[..], scanout) == Page(g, old(mem[..]), scanout))
    {
      if x < 0 || y < 0 || x >= g.xres || y >= g.yres {
        return;
      }
      var px, py := x, y;
      if rotation180 {
        px, py := g.xres - 1 - x, g.yres - 1 - y;
      }
      if RowsFit(g) {
        PixelInPage(g, px, py);
      }
      var offset := activeOffset + RowColumn(g, px, py);
      if offset + BytesPerPixel(g) > mem.Length {
        return;
      }
      StoreColor(mem, offset, BytesPerPixel(g), color);
      if RowsFit(g) {
        PaintStays(g, old(mem[..]), mem[..], activeOffset, RowColumn(g, px, py), color);
        if doubleBuffer && Separate() {
          OutsideKeepsPage(g, old(mem[..]), mem[..], activeOffset, scanout);
        }
      }
    }

    /**
     `present`, with the kernel's answer to the pan request. A successful pan shows the drawn page
     and turns to the other one; a failed pan copies the drawn page to the visible one and ends
     double buffering, which nothing else ever does. Either way the panel then shows what was drawn.
     */
    method Present(panWorks: bool) returns (ok: bool)
      requires Valid()
      modifies this`visibleYoffset, this`visibleOffset, this`activeOffset, this`drawYoffset, this`doubleBuffer,
               this`scanout, mem
      ensures Valid()
      ensures ok <==> !old(doubleBuffer) || panWorks
      ensures doubleBuffer <==> old(doubleBuffer) && panWorks
      ensures Page(g, mem[..], scanout) == Page(g, old(mem[..]), old(activeOffset)) || !old(doubleBuffer)
      ensures ok ==> mem[..] == old(mem[..])
      ensures !ok ==>
                && activeOffset == scanout == old(scanout)
                && SameOutside(g, old(mem[..]), mem[..], scanout)
      ensures doubleBuffer ==>
                && scanout == old(activeOffset)
                && activeOffset == Offset(g, if old(drawYoffset) == 0 then g.yres else 0)
      ensures Separate()
      ensures !old(doubleBuffer) ==> scanout == old(scanout) && activeOffset == old(activeOffset)
    {
      if !doubleBuffer {
        return true;
      }
      if !panWorks {
        if InMap(g, visibleOffset) && visibleOffset != activeOffset {
          CopyPage(g, mem, visibleOffset, activeOffset);
          activeOffset := visibleOffset;
        }
        doubleBuffer := false;
        return false;
      }
      FrameNotEmpty(g);
      scanout := Offset(g, drawYoffset);
      visibleYoffset := drawYoffset;
      visibleOffset := activeOffset;
      var nextYoffset := if visibleYoffset == 0 then g.yres else 0;
      var nextOffset := Offset(g, nextYoffset);
      if !InMap(g, nextOffset) || nextYoffset + g.yres > g.yresVirtual {
        // Falling back to one page here never happens: the start already made room for both.
        assert false;
      }
      drawYoffset := nextYoffset;
      activeOffset := nextOffset;
      return true;
    }
  }

  function ColorByte(color: nat, k: nat): nat {
    if k == 0 then color % 0x100
    else if k == 1 then color / 0x100 % 0x100
    else if k == 2 then color / 0x10000 % 0x100
    else color / 0x1000000 % 0x100
  }

  lemma {:induction false} FrameNotEmpty(g: Geometry)
    requires Usable(g)
    ensures FrameBytes(g) > 0
    ensures Offset(g, g.yres) == FrameBytes(g) && Offset(g, 0) == 0
  {
    MulMonotone(1, g.yres, g.lineLength);
  }

  /** A pixel's bytes are within its page when a row fits the line length. */
  lemma {:induction false} PixelInPage(g: Geometry, x: nat, y: nat)
    requires Usable(g) && x < g.xres && y < g.yres && RowsFit(g)
    ensures y * g.lineLength + x * BytesPerPixel(g) + BytesPerPixel(g) <= FrameBytes(g)
  {
    MulMonotone(x + 1, g.xres, BytesPerPixel(g));
    MulMonotone(y + 1, g.yres, g.lineLength);
    assert (x + 1) * BytesPerPixel(g) == x * BytesPerPixel(g) + BytesPerPixel(g);
    assert (y + 1) * g.lineLength == y * g.lineLength + g.lineLength;
    assert g.yres * g.lineLength == FrameBytes(g);
  }

  // ----- what the geometry means -----

  /** The checks let exactly those framebuffers through whose shown page lies in the memory, with 9 to 32 bits. */
  lemma {:induction false} UsableMeans(g: Geometry)
    ensures Usable(g) <==>
            && 9 <= g.bitsPerPixel <= 32 && g.lineLength > 0 && g.xres > 0 && g.yres > 0
            && g.yoffset * g.lineLength + g.xoffset * ((g.bitsPerPixel + 7) / 8) + g.lineLength * g.yres <=
               (if g.smemLength > 0 then g.smemLength else g.lineLength * g.yresVirtual)
  {
    if g.lineLength > 0 && g.yres > 0 {
      MulMonotone(1, g.yres, g.lineLength);
      assert g.lineLength * g.yres == g.yres * g.lineLength;
    }
  }

  /**
   Both pages are used exactly when the lines make room for two pages, the shown one ends within them
   and, where the second page would be drawn first, the memory reaches to its end.
   */
  lemma {:induction false} StartsDoubleMeans(g: Geometry, allowed: bool)
    requires Usable(g)
    ensures StartsDouble(g, allowed) <==>
            && allowed && 2 * g.yres <= g.yresVirtual && g.yoffset + g.yres <= g.yresVirtual
            && (g.yoffset < g.yres ==>
                  2 * (g.lineLength * g.yres) <=
                  (if g.smemLength > 0 then g.smemLength else g.lineLength * g.yresVirtual))
  {
    FrameNotEmpty(g);
    assert g.yres * g.lineLength == g.lineLength * g.yres;
  }

  /** A framebuffer of two full pages that starts at its first line: both pages are used, and pixels stay in theirs. */
  lemma {:induction false} TwoFullPages(g: Geometry)
    requires g.bitsPerPixel in {16, 24, 32} && g.lineLength == g.xres * (g.bitsPerPixel / 8)
    requires g.xres > 0 && g.yres > 0 && g.yresVirtual >= 2 * g.yres && g.xoffset == 0 && g.yoffset == 0
    requires g.smemLength == 0 || g.smemLength >= g.lineLength * g.yresVirtual
    ensures Usable(g) && RowsFit(g) && AlignedStart(g)
    ensures StartsDouble(g, true) && !StartsDouble(g, false)
  {
    assert BytesPerPixel(g) == g.bitsPerPixel / 8;
    MulMonotone(1, g.xres, g.bitsPerPixel / 8);
    MulMonotone(2 * g.yres, g.yresVirtual, g.lineLength);
    TwoPages(g.lineLength, g.yres, g.yresVirtual);
  }

  lemma {:induction false} TwoPages(line: nat, rows: nat, all: nat)
    requires line > 0 && rows > 0 && 2 * rows * line <= all * line
    ensures 0 < line * rows && rows * line + line * rows <= line * all && 0 * line == 0
  {
    MulMonotone(1, rows, line);
    assert line * rows == rows * line && line * all == all * line;
    assert 2 * rows * line == rows * line + rows * line;
  }

  /** Bytes as a number, lowest first. */
  function LittleEndian(bytes: seq<int>): int {
    if bytes == [] then 0 else bytes[0] + 0x100 * LittleEndian(bytes[1..])
  }

  /** The painted bytes are the colour, and nothing else changes. */
  lemma {:induction false} PaintedReads(before: seq<int>, after: seq<int>, p: nat, n: nat, color: nat)
    requires Painted(before, after, p, n, color) && n in {2, 3, 4}
    ensures LittleEndian(after[p..p + n]) ==
            (if n == 2 then color % 0x10000 else if n == 3 then color % 0x1000000 else color % 0x1_0000_0000)
    ensures forall i :: p <= i < p + n ==> 0 <= after[i] < 0x100
    ensures after[..p] == before[..p] && after[p + n..] == before[p + n..]
  {
    var bytes := after[p..p + n];
    forall k | 0 <= k < n
      ensures bytes[k] == ColorByte(color, k)
    {
      assert bytes[k] == after[p + k];
    }
    assert forall i :: p <= i < p + n ==> after[i] == bytes[i - p];
    ReadsPair(bytes);
    if n > 2 {
      ReadsPair(bytes[2..]);
    }
    ColorParts(color);
  }

  lemma {:induction false} ColorParts(color: nat)
    ensures color % 0x10000 == ColorByte(color, 0) + 0x100 * ColorByte(color, 1)
    ensures color % 0x1000000 == color % 0x10000 + 0x10000 * ColorByte(color, 2)
    ensures color % 0x1_0000_0000 == color % 0x1000000 + 0x1000000 * ColorByte(color, 3)
  {
    var (c0, c1, c2, c3) := (color / 0x100, color / 0x10000, color / 0x1000000, color / 0x1_0000_0000);
    Digits256(color, c0);
    Digits256(c0, c1);
    Digits256(c1, c2);
    Digits256(c2, c3);
    Remainder(0x10000, c1, color % 0x100 + 0x100 * (c0 % 0x100));
    Remainder(0x1000000, c2, color % 0x100 + 0x100 * (c0 % 0x100) + 0x10000 * (c1 % 0x100));
    Remainder(0x1_0000_0000, c3,
              color % 0x100 + 0x100 * (c0 % 0x100) + 0x10000 * (c1 % 0x100) + 0x1000000 * (c2 % 0x100));
  }

  lemma {:induction false} Digits256(n: nat, rest: nat)
    requires rest == n / 0x100
    ensures n == 0x100 * rest + n % 0x100 && n % 0x100 < 0x100
  {
  }

  lemma {:induction false} Remainder(n: nat, q: nat, r: nat)
    requires r < n
    ensures (n * q + r) % n == r
  {
    var a, b := (n * q + r) / n, (n * q + r) % n;
    assert n * q + r == n * a + b;
    if a < q {
      MulMonotone(a + 1, q, n);
    } else if q < a {
      MulMonotone(q + 1, a, n);
    }
  }

  /** The first two bytes of a number. */
  lemma {:induction false} ReadsPair(bytes: seq<int>)
    requires bytes != []
    ensures LittleEndian(bytes) == bytes[0] + if |bytes| == 1 then 0
                                              else 0x100 * bytes[1] + 0x10000 * LittleEndian(bytes[2..])
  {
    if |bytes| > 1 {
      assert bytes[1..][1..] == bytes[2..];
    }
  }

  /** Pixels follow one another along a row, and rows at the distance of the line length. */
  lemma {:induction false} PixelSteps(g: Geometry, x: nat, y: nat)
    requires x < g.xres && y < g.yres
    ensures x == 0 && y == 0 ==> PixelOffset(g, false, x, y) == 0
    ensures x + 1 < g.xres ==> PixelOffset(g, false, x + 1, y) == PixelOffset(g, false, x, y) + (g.bitsPerPixel + 7) / 8
    ensures y + 1 < g.yres ==> PixelOffset(g, false, x, y + 1) == PixelOffset(g, false, x, y) + g.lineLength
  {
    assert (x + 1) * BytesPerPixel(g) == x * BytesPerPixel(g) + BytesPerPixel(g);
    assert (y + 1) * g.lineLength == y * g.lineLength + g.lineLength;
  }

  /** Turned by 180 degrees, each pixel is as far from the last one as it was from the first. */
  lemma {:induction false} TurnedPixel(g: Geometry, x: nat, y: nat)
    requires x < g.xres && y < g.yres
    ensures PixelOffset(g, true, x, y) + PixelOffset(g, false, x, y) == PixelOffset(g, false, g.xres - 1, g.yres - 1)
  {
    Complement(x, g.xres - 1, BytesPerPixel(g));
    Complement(y, g.yres - 1, g.lineLength);
  }

  lemma {:induction false} Complement(a: nat, b: nat, l: nat)
    requires a <= b
    ensures (b - a) * l + a * l == b * l
  {
  }
}
