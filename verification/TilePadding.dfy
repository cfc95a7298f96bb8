// Filling the part of a tile that lies outside the padded frame, and the image a tile should show:
// the frame extended by clamping or by a constant.

module TilePadding {
  import opened Dma
  import opened Grids
  import opened TileGeometry

  // Byte `i` of a run of padding: a 16-bit splat for even pixel widths, a byte splat for odd ones.
  function PadByte(padding: Padding, paddingVal: nat, pixWidth: nat, i: int): byte {
    if !padding.ConstantPadding? then 0
    else if pixWidth % 2 == 0 && i % 2 == 1 then paddingVal / 256 % 256
    else paddingVal % 256
  }

  function Clamp(v: int, lo: int, hi: int): int { if v < lo then lo else if v > hi then hi else v }

  // Byte `k` of pixel (y, x) of the frame extended over the whole plane.
  function Reference(m: seq<byte>, f: Frame, y: int, x: int, k: int): byte {
    var yy, xx := Clamp(y, 0 - f.padTop, f.height - 1 + f.padBottom), Clamp(x, 0 - f.padLeft, f.width - 1 + f.padRight);
    if f.HasPixel(y, x) || f.padding.EdgePadding? then ByteAt(m, FramePx(f, yy, xx, k))
    else PadByte(f.padding, f.paddingVal, f.pixWidth, k)
  }

  function ByteAt(m: seq<byte>, a: int): byte { if 0 <= a < |m| then m[a] else 0 }

  function FramePx(f: Frame, y: int, x: int, k: int): int { f.Grid().At(0, y, f.Col(x) + k) }

  function Px(p: Place, y: int, x: int, k: int): int { p.Grid().At(0, y, p.frame.Col(x) + k) }

  predicate HasPx(p: Place, y: int, x: int, k: int) {
    p.Y0() <= y <= p.Y1() && p.X0() <= x <= p.X1() && 0 <= k < p.frame.pixWidth
  }

  predicate InClip(p: Place, y: int, x: int) { p.YSpan().a <= y <= p.YSpan().b && p.XSpan().a <= x <= p.XSpan().b }

  function RowAddr(base: int, pitch: int, r: int): int { base + Times(r, pitch) }

  function RowStart(p: Place, y: int): int { RowAddr(p.EdgePtr(), p.pitch, y - p.Y0()) }

  function RowWidth(p: Place): int { p.frame.Col(p.width + p.edgeLeft + p.edgeRight) }

  predicate InRow(p: Place, y: int, a: int) { RowStart(p, y) <= a < RowStart(p, y) + RowWidth(p) }

  // Address `a` holds no byte of the tile.
  ghost predicate OffTile(p: Place, a: int) {
    forall y :: p.Y0() <= y <= p.Y1() ==> !InRow(p, y, a)
  }

  // The part of the tile inside the padded frame holds the frame's pixels.
  ghost predicate Loaded(m: seq<byte>, p: Place) {
    forall y, x, k :: HasPx(p, y, x, k) && InClip(p, y, x) ==>
      ByteAt(m, Px(p, y, x, k)) == ByteAt(m, FramePx(p.frame, y, x, k))
  }

  // Every byte of the tile is that of the extended frame.
  ghost predicate Shows(m: seq<byte>, p: Place) {
    forall y, x, k :: HasPx(p, y, x, k) ==> ByteAt(m, Px(p, y, x, k)) == Reference(m, p.frame, y, x, k)
  }

  // The byte padding puts at place k of a pixel, in numbers: zero; or the constant, whose low byte fills pixels of an
  // odd size and whose low and high byte alternate in the others.
  predicate IsPadding(padding: Padding, paddingVal: nat, pixWidth: nat, k: int, b: byte) {
    && (padding.ZeroPadding? ==> b == 0)
    && (padding.ConstantPadding? && pixWidth % 2 == 1 ==> b == paddingVal % 256)
    && (padding.ConstantPadding? && pixWidth % 2 == 0 && k % 2 == 0 ==> b == paddingVal % 256)
    && (padding.ConstantPadding? && pixWidth % 2 == 0 && k % 2 == 1 ==> b == paddingVal / 256 % 256)
  }

  // Every byte of the tile outside the padded frame is padding.
  ghost predicate PaddedOutside(m: seq<byte>, p: Place) {
    forall y, x, k :: HasPx(p, y, x, k) && !p.frame.HasPixel(y, x) ==>
      IsPadding(p.frame.padding, p.frame.paddingVal, p.frame.pixWidth, k, ByteAt(m, Px(p, y, x, k)))
  }

  /** A tile that shows the extended frame is zero, or the constant, outside the padded frame. */
  lemma ShowsPadding(m: seq<byte>, p: Place)
    requires Shows(m, p) && !p.frame.padding.EdgePadding?
    ensures PaddedOutside(m, p)
  {
    hide Px, FramePx;
    forall y, x, k | HasPx(p, y, x, k) && !p.frame.HasPixel(y, x)
      ensures IsPadding(p.frame.padding, p.frame.paddingVal, p.frame.pixWidth, k, ByteAt(m, Px(p, y, x, k)))
    {
      assert ByteAt(m, Px(p, y, x, k)) == Reference(m, p.frame, y, x, k);
    }
  }

  // A place whose tile and frame are not empty and whose tile fits its buffer.
  predicate Sound(p: Place) {
    p.Consistent() && p.width > 0 && p.height > 0 && p.frame.width > 0 && p.frame.height > 0 && p.frame.pixWidth > 0
  }

  // Rows lie inside the buffer, one after the other.
  lemma RowsAreLaid(p: Place, y: int)
    requires Sound(p) && p.Y0() <= y <= p.Y1()
    ensures 0 <= RowWidth(p) && p.bufLo <= RowStart(p, y) && RowStart(p, y) + RowWidth(p) <= p.bufHi
    ensures forall y' :: y < y' <= p.Y1() ==> RowStart(p, y) + RowWidth(p) <= RowStart(p, y')
  {
    ColOrder(p.frame, 0, p.width + p.edgeLeft + p.edgeRight);
    if p.Y0() < y { TimesMonotone(0, y - p.Y0(), p.pitch); }
    TimesMonotone(y - p.Y0(), p.Y1() - p.Y0() + 1, p.pitch);
    TimesAdd(p.edgeTop, p.height + p.edgeBottom, p.pitch);
    forall y' | y < y' <= p.Y1() ensures RowStart(p, y) + RowWidth(p) <= RowStart(p, y') {
      TimesMonotone(y - p.Y0(), y' - p.Y0(), p.pitch);
    }
  }

  // Pixels lie in their row in order.
  lemma PxInRow(p: Place, y: int, x: int, k: int)
    requires HasPx(p, y, x, k)
    ensures Px(p, y, x, k) == RowStart(p, y) + p.frame.Col(x - p.X0()) + k
    ensures 0 <= p.frame.Col(x - p.X0()) && p.frame.Col(x - p.X0()) + p.frame.pixWidth <= RowWidth(p)
    ensures InRow(p, y, Px(p, y, x, k))
  {
    TileAddress(p, y, x);
    ColOrder(p.frame, 0, x - p.X0());
    ColOrder(p.frame, x - p.X0() + 1, p.X1() - p.X0() + 1);
    TimesAdd(x - p.X0(), 1, p.frame.pixWidth);
  }

  lemma PxInBuffer(p: Place, y: int, x: int, k: int)
    requires Sound(p) && HasPx(p, y, x, k)
    ensures p.bufLo <= Px(p, y, x, k) < p.bufHi
  {
    RowsAreLaid(p, y);
    PxInRow(p, y, x, k);
  }

  // ---- the padding writers ----

  /** Bytes stored at consecutive addresses from `dst`. */
  datatype Fill = Fill(dst: int, bytes: seq<byte>) {
    predicate Has(a: int) { dst <= a < dst + |bytes| }
  }

  function Write(m: seq<byte>, w: Fill): (m': seq<byte>)
    ensures |m'| == |m|
  {
    seq(|m|, a requires 0 <= a < |m| => if w.Has(a) then w.bytes[a - w.dst] else m[a])
  }

  function WriteAll(m: seq<byte>, ws: seq<Fill>): (m': seq<byte>)
    ensures |m'| == |m|
  {
    if ws == [] then m else Write(WriteAll(m, ws[..|ws| - 1]), ws[|ws| - 1])
  }

  lemma {:induction false} WriteAllOutside(m: seq<byte>, ws: seq<Fill>, a: int)
    requires 0 <= a < |m| && forall i :: 0 <= i < |ws| ==> !ws[i].Has(a)
    ensures WriteAll(m, ws)[a] == m[a]
  {
    if ws != [] { WriteAllOutside(m, ws[..|ws| - 1], a); }
  }

  lemma {:induction false} WriteAllInside(m: seq<byte>, ws: seq<Fill>, i: nat, a: int)
    requires 0 <= a < |m| && i < |ws| && ws[i].Has(a)
    requires forall j :: 0 <= j < |ws| && j != i ==> !ws[j].Has(a)
    ensures WriteAll(m, ws)[a] == ws[i].bytes[a - ws[i].dst]
  {
    if i < |ws| - 1 { WriteAllInside(m, ws[..|ws| - 1], i, a); }
  }

  /** Arguments shared by the two edge writers. */
  datatype Pad = Pad(pixWidth: nat, pitch: int, padding: Padding, paddingVal: nat)

  // One row of `n` bytes: a copy of the row at `src`, or the padding pattern.
  function RowBytes(m: seq<byte>, pad: Pad, src: int, n: nat): seq<byte> {
    seq(n, i => if pad.padding.EdgePadding? then ByteAt(m, src + i)
        else PadByte(pad.padding, pad.paddingVal, pad.pixWidth, i))
  }

  function Repeat(pixel: seq<byte>, n: nat): (s: seq<byte>)
    ensures |s| == Times(n, |pixel|)
  {
    if n == 0 then [] else Repeat(pixel, n - 1) + pixel
  }

  lemma {:induction false} RepeatAt(pixel: seq<byte>, n: nat, j: nat, k: nat)
    requires j < n && k < |pixel|
    ensures 0 <= Times(j, |pixel|) + k < |Repeat(pixel, n)| && Repeat(pixel, n)[Times(j, |pixel|) + k] == pixel[k]
  {
    if j > 0 { TimesMonotone(0, j, |pixel|); }
    if j < n - 1 { RepeatAt(pixel, n - 1, j, k); }
  }

  function Pixel(m: seq<byte>, src: int, n: nat): seq<byte> { seq<byte>(n, i => ByteAt(m, src + i)) }

  // One row of `width` pixels: the pixel at `src` over and over, or the padding pattern.
  function PixelBytes(m: seq<byte>, pad: Pad, src: int, width: nat): (s: seq<byte>)
    ensures |s| == Times(width, pad.pixWidth)
  {
    var row := Repeat(Pixel(m, src, pad.pixWidth), width);
    if pad.padding.EdgePadding? then row else seq(|row|, i => PadByte(pad.padding, pad.paddingVal, pad.pixWidth, i))
  }

  function RowFills(m: seq<byte>, pad: Pad, src: int, dst: int, widthBytes: nat, height: nat): seq<Fill> {
    seq(height, r => Fill(RowAddr(dst, pad.pitch, r), RowBytes(m, pad, src, widthBytes)))
  }

  function PixelFills(m: seq<byte>, pad: Pad, src: int, dst: int, width: nat, height: nat): seq<Fill> {
    seq(height, r => Fill(RowAddr(dst, pad.pitch, r), PixelBytes(m, pad, RowAddr(src, pad.pitch, r), width)))
  }

  // Every byte stored is padding.
  ghost predicate ArePadding(pad: Pad, ws: seq<Fill>) {
    forall r, i :: 0 <= r < |ws| && 0 <= i < |ws[r].bytes| ==>
      IsPadding(pad.padding, pad.paddingVal, pad.pixWidth, i, ws[r].bytes[i])
  }

  /** What the two writers store when they do not copy. */
  lemma FillsArePadding(m: seq<byte>, pad: Pad, src: int, dst: int, n: nat, height: nat)
    requires !pad.padding.EdgePadding?
    ensures ArePadding(pad, RowFills(m, pad, src, dst, n, height))
    ensures ArePadding(pad, PixelFills(m, pad, src, dst, n, height))
  {
    hide Repeat, Pixel, Times, RowAddr;
  }

  method Store(mem: array<byte>, dst: int, bytes: seq<byte>)
    requires Fits(mem.Length, dst, |bytes|)
    modifies mem
    ensures mem[..] == Write(old(mem[..]), Fill(dst, bytes))
  {
    for b := 0 to |bytes|
      invariant forall a :: 0 <= a < mem.Length ==> mem[a] == if dst <= a < dst + b then bytes[a - dst] else old(mem[a])
    {
      mem[dst + b] := bytes[b];
    }
  }

  // Bytes no earlier row has touched read the same as before the first row.
  lemma Untouched(m: seq<byte>, ws: seq<Fill>, lo: int, hi: int)
    requires 0 <= lo <= hi <= |m|
    requires forall i, a :: 0 <= i < |ws| && lo <= a < hi ==> !ws[i].Has(a)
    ensures forall a :: lo <= a < hi ==> WriteAll(m, ws)[a] == m[a]
  {
    forall a | lo <= a < hi ensures WriteAll(m, ws)[a] == m[a] { WriteAllOutside(m, ws, a); }
  }

  lemma SameRowBytes(m: seq<byte>, m': seq<byte>, pad: Pad, src: int, n: nat)
    requires |m'| == |m|
             && (pad.padding.EdgePadding? ==> Fits(|m|, src, n) && forall a :: src <= a < src + n ==> m'[a] == m[a])
    ensures RowBytes(m', pad, src, n) == RowBytes(m, pad, src, n)
  {
    var row, row' := RowBytes(m, pad, src, n), RowBytes(m', pad, src, n);
    assert |row| == |row'| == n;
    forall i | 0 <= i < n ensures row'[i] == row[i] {
      if pad.padding.EdgePadding? {
        assert row[i] == ByteAt(m, src + i) && row'[i] == ByteAt(m', src + i);
        assert m'[src + i] == m[src + i];
      }
    }
  }

  lemma SamePixelBytes(m: seq<byte>, m': seq<byte>, pad: Pad, src: int, width: nat)
    requires |m'| == |m|
    requires pad.padding.EdgePadding? ==> Fits(|m|, src, pad.pixWidth) && forall a :: src <= a < src + pad.pixWidth ==>
               m'[a] == m[a]
    ensures PixelBytes(m', pad, src, width) == PixelBytes(m, pad, src, width)
  {
    var pixel, pixel' := Pixel(m, src, pad.pixWidth), Pixel(m', src, pad.pixWidth);
    if pad.padding.EdgePadding? {
      forall i | 0 <= i < pad.pixWidth ensures pixel'[i] == pixel[i] {
        assert pixel[i] == ByteAt(m, src + i) && pixel'[i] == ByteAt(m', src + i);
        assert m'[src + i] == m[src + i];
      }
      assert pixel' == pixel;
    } else {
      assert |Repeat(pixel, width)| == |Repeat(pixel', width)|;
    }
  }

  method CopyBufferEdgeDataH(mem: array<byte>, pad: Pad, src: int, dst: int, widthBytes: nat, height: nat)
    requires forall r :: 0 <= r < height ==> Fits(mem.Length, RowAddr(dst, pad.pitch, r), widthBytes)
    requires pad.padding.EdgePadding? ==> Fits(mem.Length, src, widthBytes)
    requires pad.padding.EdgePadding? ==> forall r :: 0 <= r < height ==>
               Apart(RowAddr(dst, pad.pitch, r), src, widthBytes)
    modifies mem
    ensures mem[..] == WriteAll(old(mem[..]), RowFills(old(mem[..]), pad, src, dst, widthBytes, height))
    ensures !pad.padding.EdgePadding? ==> ArePadding(pad, RowFills(old(mem[..]), pad, src, dst, widthBytes, height))
  {
    if !pad.padding.EdgePadding? { FillsArePadding(mem[..], pad, src, dst, widthBytes, height); }
    hide ArePadding;
    ghost var all := RowFills(mem[..], pad, src, dst, widthBytes, height);
    var dstPtr := dst;
    for indy := 0 to height
      invariant dstPtr == RowAddr(dst, pad.pitch, indy)
      invariant mem[..] == WriteAll(old(mem[..]), all[..indy])
    {
      if pad.padding.EdgePadding? { Untouched(old(mem[..]), all[..indy], src, src + widthBytes); }
      SameRowBytes(old(mem[..]), mem[..], pad, src, widthBytes);
      Store(mem, dstPtr, RowBytes(mem[..], pad, src, widthBytes));
      assert all[..indy + 1][..indy] == all[..indy];
      dstPtr := dstPtr + pad.pitch;
    }
    assert all[..height] == all;
  }

  lemma FirstRowAddr(base: int, pitch: int)
    ensures RowAddr(base, pitch, 0) == base
  {
  }

  lemma NextRowAddr(base: int, pitch: int, r: nat)
    ensures RowAddr(base, pitch, r + 1) == RowAddr(base, pitch, r) + pitch
  {
  }

  lemma NextWrite(m: seq<byte>, ws: seq<Fill>, i: nat)
    requires i < |ws|
    ensures WriteAll(m, ws[..i + 1]) == Write(WriteAll(m, ws[..i]), ws[i])
  {
    assert ws[..i + 1][..i] == ws[..i];
  }

  // The pixel a row repeats is the one that was there before the rows before it were written.
  lemma PixelRowKept(m: seq<byte>, pad: Pad, src: int, dst: int, width: nat, height: nat, r: nat)
    requires r < height
    requires pad.padding.EdgePadding? ==> Fits(|m|, RowAddr(src, pad.pitch, r), pad.pixWidth)
    requires pad.padding.EdgePadding? ==> forall r, r' :: 0 <= r < height && 0 <= r' < height ==>
      (RowAddr(dst, pad.pitch, r) + Times(width, pad.pixWidth) <= RowAddr(src, pad.pitch, r')
       || RowAddr(src, pad.pitch, r') + pad.pixWidth <= RowAddr(dst, pad.pitch, r))
    ensures var all := PixelFills(m, pad, src, dst, width, height);
            && |all| == height
            && all[r] == Fill(RowAddr(dst, pad.pitch, r), PixelBytes(m, pad, RowAddr(src, pad.pitch, r), width))
            && PixelBytes(WriteAll(m, all[..r]), pad, RowAddr(src, pad.pitch, r), width) ==
              PixelBytes(m, pad, RowAddr(src, pad.pitch, r), width)
  {
    var all, srcPtr := PixelFills(m, pad, src, dst, width, height), RowAddr(src, pad.pitch, r);
    hide WriteAll, PixelBytes, Times, RowAddr;
    if pad.padding.EdgePadding? { Untouched(m, all[..r], srcPtr, srcPtr + pad.pixWidth); }
    SamePixelBytes(m, WriteAll(m, all[..r]), pad, srcPtr, width);
  }

  method CopyBufferEdgeDataV(mem: array<byte>, pad: Pad, src: int, dst: int, width: nat, height: nat)
    requires forall r :: 0 <= r < height ==> 0 <= RowAddr(dst, pad.pitch, r) <= mem.Length - Times(width, pad.pixWidth)
    requires pad.padding.EdgePadding? ==> forall r :: 0 <= r < height ==>
               Fits(mem.Length, RowAddr(src, pad.pitch, r), pad.pixWidth)
    requires pad.padding.EdgePadding? ==> forall r, r' :: 0 <= r < height && 0 <= r' < height ==>
      (RowAddr(dst, pad.pitch, r) + Times(width, pad.pixWidth) <= RowAddr(src, pad.pitch, r')
       || RowAddr(src, pad.pitch, r') + pad.pixWidth <= RowAddr(dst, pad.pitch, r))
    modifies mem
    ensures mem[..] == WriteAll(old(mem[..]), PixelFills(old(mem[..]), pad, src, dst, width, height))
    ensures !pad.padding.EdgePadding? ==> ArePadding(pad, PixelFills(old(mem[..]), pad, src, dst, width, height))
  {
    if !pad.padding.EdgePadding? { FillsArePadding(mem[..], pad, src, dst, width, height); }
    ghost var all := PixelFills(mem[..], pad, src, dst, width, height);
    hide ArePadding, WriteAll, Write, PixelBytes, Times, RowAddr;
    var dstPtr, srcPtr := dst, src;
    assert dstPtr == RowAddr(dst, pad.pitch, 0)
           && srcPtr == RowAddr(src, pad.pitch, 0) by { FirstRowAddr(dst, pad.pitch); FirstRowAddr(src, pad.pitch); }
    for indy := 0 to height
      invariant dstPtr == RowAddr(dst, pad.pitch, indy) && srcPtr == RowAddr(src, pad.pitch, indy)
      invariant mem[..] == WriteAll(old(mem[..]), all[..indy])
    {
      PixelRowKept(old(mem[..]), pad, src, dst, width, height, indy);
      Store(mem, dstPtr, PixelBytes(mem[..], pad, srcPtr, width));
      NextWrite(old(mem[..]), all, indy);
      NextRowAddr(dst, pad.pitch, indy);
      NextRowAddr(src, pad.pitch, indy);
      dstPtr, srcPtr := dstPtr + pad.pitch, srcPtr + pad.pitch;
    }
    assert all[..height] == all;
  }

  // ---- what the writers do to a tile ----

  // Bytes of rows ya..yb are those of row `from`, or padding; no other byte changes.
  ghost predicate RowsPadded(p: Place, m: seq<byte>, m': seq<byte>, ya: int, yb: int, from: int) {
    && |m'| == |m|
    && (forall y, x, k :: HasPx(p, y, x, k) ==>
          ByteAt(m', Px(p, y, x, k)) ==
            if !(ya <= y < yb) then ByteAt(m, Px(p, y, x, k)) else PadValue(p, ByteAt(m, Px(p, from, x, k)), k))
    && (forall a :: 0 <= a < |m| && OffTile(p, a) ==> m'[a] == m[a])
  }

  // Bytes of columns xa..xb are those of column `from`, or padding; no other byte changes.
  ghost predicate ColumnsPadded(p: Place, m: seq<byte>, m': seq<byte>, xa: int, xb: int, from: int) {
    && |m'| == |m|
    && (forall y, x, k :: HasPx(p, y, x, k) ==>
          ByteAt(m', Px(p, y, x, k)) ==
            if !(xa <= x < xb) then ByteAt(m, Px(p, y, x, k)) else PadValue(p, ByteAt(m, Px(p, y, from, k)), k))
    && (forall a :: 0 <= a < |m| && OffTile(p, a) ==> m'[a] == m[a])
  }

  function PadValue(p: Place, edge: byte, k: int): byte {
    if p.frame.padding.EdgePadding? then edge else PadByte(p.frame.padding, p.frame.paddingVal, p.frame.pixWidth, k)
  }

  function PadOf(p: Place): Pad { Pad(p.frame.pixWidth, p.pitch, p.frame.padding, p.frame.paddingVal) }

  lemma {:induction false} EvenCol(n: int, pixWidth: nat, k: int)
    requires pixWidth % 2 == 0
    ensures (Times(n, pixWidth) + k) % 2 == k % 2
    decreases if n < 0 then -n else n
  {
    if n > 0 { EvenCol(n - 1, pixWidth, k); } else if n < 0 { EvenCol(n + 1, pixWidth, k); }
  }

  lemma PadByteInRow(p: Place, x: int, k: int)
    ensures PadByte(p.frame.padding, p.frame.paddingVal, p.frame.pixWidth, p.frame.Col(x) + k) ==
              PadByte(p.frame.padding, p.frame.paddingVal, p.frame.pixWidth, k)
  {
    if p.frame.pixWidth % 2 == 0 { EvenCol(x, p.frame.pixWidth, k); }
  }

  // Writes of equal size at equal offsets in consecutive rows.
  lemma StackedFills(p: Place, m: seq<byte>, ws: seq<Fill>, ya: int, off: int, n: nat)
    requires Sound(p) && 0 <= p.bufLo && p.bufHi <= |m|
    requires p.Y0() <= ya && ya + |ws| <= p.Y1() + 1 && 0 <= off && off + n <= RowWidth(p)
    requires forall i :: 0 <= i < |ws| ==> ws[i].dst == RowStart(p, ya + i) + off && |ws[i].bytes| == n
    ensures forall a :: 0 <= a < |m| && OffTile(p, a) ==> WriteAll(m, ws)[a] == m[a]
    ensures forall y, a :: p.Y0() <= y <= p.Y1() && InRow(p, y, a) ==>
              0 <= a < |m| && WriteAll(m, ws)[a] ==
                if ya <= y < ya + |ws| && ws[y - ya].Has(a) then ws[y - ya].bytes[a - ws[y - ya].dst] else m[a]
  {
    hide WriteAll, RowStart, RowWidth;
    forall a | 0 <= a < |m| && OffTile(p, a) ensures WriteAll(m, ws)[a] == m[a] {
      forall i | 0 <= i < |ws| ensures !ws[i].Has(a) { assert !InRow(p, ya + i, a); }
      WriteAllOutside(m, ws, a);
    }
    forall y, a | p.Y0() <= y <= p.Y1() && InRow(p, y, a)
      ensures 0 <= a < |m| && WriteAll(m, ws)[a] ==
                if ya <= y < ya + |ws| && ws[y - ya].Has(a) then ws[y - ya].bytes[a - ws[y - ya].dst] else m[a]
    {
      RowsAreLaid(p, y);
      forall i | 0 <= i < |ws| && ya + i != y ensures !ws[i].Has(a) { RowsAreLaid(p, ya + i); }
      if ya <= y < ya + |ws| && ws[y - ya].Has(a) {
        WriteAllInside(m, ws, y - ya, a);
      } else {
        WriteAllOutside(m, ws, a);
      }
    }
  }

  lemma RowFillsPad(p: Place, m: seq<byte>, ya: int, yb: int, from: int)
    requires Sound(p) && 0 <= p.bufLo && p.bufHi <= |m|
    requires p.Y0() <= ya <= yb <= p.Y1() + 1 && p.Y0() <= from <= p.Y1() && 0 <= RowWidth(p)
    ensures RowsPadded(p, m,
                       WriteAll(m, RowFills(m, PadOf(p), RowStart(p, from), RowStart(p, ya), RowWidth(p), yb - ya)),
                         ya, yb, from)
  {
    hide Px, Times, WriteAll, PadByte, Place.Consistent;
    var ws := RowFills(m, PadOf(p), RowStart(p, from), RowStart(p, ya), RowWidth(p), yb - ya);
    forall i | 0 <= i < |ws| ensures ws[i].dst == RowStart(p, ya + i) && |ws[i].bytes| == RowWidth(p) {
      TimesAdd(ya - p.Y0(), i, p.pitch);
    }
    StackedFills(p, m, ws, ya, 0, RowWidth(p));
    hide RowWidth, RowStart, OffTile, RowBytes;
    forall y, x, k | HasPx(p, y, x, k)
      ensures ByteAt(WriteAll(m, ws), Px(p, y, x, k)) ==
                if !(ya <= y < yb) then ByteAt(m, Px(p, y, x, k)) else PadValue(p, ByteAt(m, Px(p, from, x, k)), k)
    {
      PxInRow(p, y, x, k);
      if ya <= y < yb {
        var w := ws[y - ya];
        RowByteIs(p, m, from, x, k);
        assert w.Has(Px(p, y, x, k));
      }
    }
  }

  // The byte of a pixel in the row written.
  lemma RowByteIs(p: Place, m: seq<byte>, from: int, x: int, k: int)
    requires HasPx(p, from, x, k) && 0 <= RowWidth(p)
    ensures var j := p.frame.Col(x - p.X0()) + k;
            && 0 <= j < |RowBytes(m, PadOf(p), RowStart(p, from), RowWidth(p))|
            && RowBytes(m, PadOf(p), RowStart(p, from), RowWidth(p))[j] == PadValue(p, ByteAt(m, Px(p, from, x, k)), k)
  {
    PxInRow(p, from, x, k);
    PadByteInRow(p, x - p.X0(), k);
    hide Px, Times, PadByte, RowStart;
  }

  // The bytes of pixel column `x` inside a run of columns that starts at xa.
  lemma ColumnBytes(p: Place, m: seq<byte>, src: int, xa: int, xb: int, x: int, k: int)
    requires xa <= x < xb && 0 <= k < p.frame.pixWidth
    ensures 0 <= p.frame.Col(x - xa) + k < |PixelBytes(m, PadOf(p), src, xb - xa)|
    ensures PixelBytes(m, PadOf(p), src, xb - xa)[p.frame.Col(x - xa) + k] == PadValue(p, ByteAt(m, src + k), k)
  {
    RepeatAt(Pixel(m, src, p.frame.pixWidth), xb - xa, x - xa, k);
    PadByteInRow(p, x - xa, k);
  }

  // Columns xa..xb take the bytes from `off`, before and after them lie the other columns.
  lemma RunOfColumns(p: Place, xa: int, xb: int, x: int)
    requires p.X0() <= xa <= xb && p.X0() <= x
    ensures var off, n := p.frame.Col(xa - p.X0()), p.frame.Col(xb - xa);
            && (xa <= x < xb ==>
                  p.frame.Col(x - p.X0()) == off + p.frame.Col(x - xa)
                    && 0 <= p.frame.Col(x - xa) <= n - p.frame.pixWidth)
            && (x < xa ==> p.frame.Col(x - p.X0()) + p.frame.pixWidth <= off)
            && (xb <= x ==> off + n <= p.frame.Col(x - p.X0()))
  {
    var f := p.frame;
    TimesAdd(xa - p.X0(), xb - xa, f.pixWidth);
    TimesAdd(xa - p.X0(), x - xa, f.pixWidth);
    if x < xa {
      TimesMonotone(x - p.X0(), xa - p.X0(), f.pixWidth);
    } else if x < xb {
      ColOrder(f, 0, x - xa);
      TimesMonotone(x - xa, xb - xa, f.pixWidth);
    } else {
      ColOrder(f, xb - p.X0(), x - p.X0());
    }
  }

  lemma PixelFillsAt(p: Place, m: seq<byte>, ws: seq<Fill>, xa: int, xb: int, from: int)
    requires Sound(p) && 0 <= p.bufLo && p.bufHi <= |m|
    requires p.X0() <= xa <= xb <= p.X1() + 1 && p.X0() <= from <= p.X1()
    requires ws ==
               PixelFills(m, PadOf(p), p.EdgePtr() + p.frame.Col(from - p.X0()),
                          p.EdgePtr() + p.frame.Col(xa - p.X0()), xb - xa, p.Y1() - p.Y0() + 1)
    ensures forall a :: 0 <= a < |m| && OffTile(p, a) ==> WriteAll(m, ws)[a] == m[a]
    ensures forall y, a :: p.Y0() <= y <= p.Y1() && InRow(p, y, a) ==>
              0 <= a < |m| && WriteAll(m, ws)[a] ==
                if ws[y - p.Y0()].Has(a) then ws[y - p.Y0()].bytes[a - ws[y - p.Y0()].dst] else m[a]
  {
    hide PixelBytes, Times, WriteAll, Px;
    WidthOfRun(p, xa);
    WidthOfRun(p, xb);
    TimesAdd(xa - p.X0(), xb - xa, p.frame.pixWidth);
    ColOrder(p.frame, 0, xb - xa);
    StackedFills(p, m, ws, p.Y0(), p.frame.Col(xa - p.X0()), p.frame.Col(xb - xa));
  }

  lemma PixelFillsPad(p: Place, m: seq<byte>, ws: seq<Fill>, xa: int, xb: int, from: int)
    requires Sound(p) && 0 <= p.bufLo && p.bufHi <= |m|
    requires p.X0() <= xa <= xb <= p.X1() + 1 && p.X0() <= from <= p.X1()
    requires ws ==
               PixelFills(m, PadOf(p), p.EdgePtr() + p.frame.Col(from - p.X0()),
                          p.EdgePtr() + p.frame.Col(xa - p.X0()), xb - xa, p.Y1() - p.Y0() + 1)
    ensures ColumnsPadded(p, m, WriteAll(m, ws), xa, xb, from)
  {
    hide Px, Times, WriteAll, PadByte, PixelBytes, RowWidth, PadValue;
    PixelFillsAt(p, m, ws, xa, xb, from);
    forall y, x, k | HasPx(p, y, x, k)
      ensures ByteAt(WriteAll(m, ws), Px(p, y, x, k)) ==
                if !(xa <= x < xb) then ByteAt(m, Px(p, y, x, k)) else PadValue(p, ByteAt(m, Px(p, y, from, k)), k)
    {
      PxInRow(p, y, x, k);
      PxInRow(p, y, from, k);
      RunOfColumns(p, xa, xb, x);
      if xa <= x < xb { ColumnBytes(p, m, RowStart(p, y) + p.frame.Col(from - p.X0()), xa, xb, x, k); }
    }
  }

  lemma WidthOfRun(p: Place, xb: int)
    requires p.X0() <= xb <= p.X1() + 1
    ensures 0 <= p.frame.Col(xb - p.X0()) <= RowWidth(p)
  {
    ColOrder(p.frame, 0, xb - p.X0());
    ColOrder(p.frame, xb - p.X0(), p.width + p.edgeLeft + p.edgeRight);
  }

  // ---- padding a loaded tile ----

  function Cell(p: Place, y: int, c: int): int { p.Grid().At(0, y, c) }

  function FrameCell(f: Frame, y: int, c: int): int { f.Grid().At(0, y, c) }

  // The padded frame is in memory above every tile buffer.
  ghost predicate InSystem(f: Frame, lo: int, len: nat) {
    forall y, c :: f.Extent().Has(0, y, c) ==> lo <= FrameCell(f, y, c) < len
  }

  lemma FramePxInExtent(f: Frame, y: int, x: int, k: int)
    requires f.HasPixel(y, x) && 0 <= k < f.pixWidth
    ensures f.Extent().Has(0, y, f.Col(x) + k) && FramePx(f, y, x, k) == FrameCell(f, y, f.Col(x) + k)
  {
    ColOrder(f, 0 - f.padLeft, x);
    TimesMonotone(x, f.width + f.padRight, f.pixWidth);
  }

  ghost predicate Safe(p: Place, lo: int, len: nat) {
    Sound(p) && 0 <= p.bufLo && p.bufHi <= lo <= len && InSystem(p.frame, lo, len)
  }

  lemma OutsideBuffer(p: Place, a: int)
    requires Sound(p) && !(p.bufLo <= a < p.bufHi)
    ensures OffTile(p, a)
  {
    forall y | p.Y0() <= y <= p.Y1() ensures !InRow(p, y, a) { RowsAreLaid(p, y); }
  }

  lemma SourceIgnored(m: seq<byte>, pad: Pad, src: int, src': int, dst: int, widthBytes: nat, height: nat)
    requires !pad.padding.EdgePadding?
    ensures RowFills(m, pad, src, dst, widthBytes, height) == RowFills(m, pad, src', dst, widthBytes, height)
  {
    assert RowBytes(m, pad, src, widthBytes) == RowBytes(m, pad, src', widthBytes);
  }

  method PadRows(mem: array<byte>, p: Place, src: int, dst: int, widthBytes: nat, ghost ya: int, ghost yb: int,
                 ghost from: int, height: nat)
    requires Sound(p) && 0 <= p.bufLo && p.bufHi <= mem.Length
    requires p.Y0() <= ya <= yb <= p.Y1() + 1 && p.Y0() <= from <= p.Y1()
    requires dst == RowStart(p, ya) && widthBytes == RowWidth(p) && height == yb - ya
    requires p.frame.padding.EdgePadding? ==> !(ya <= from < yb) && src == RowStart(p, from)
    modifies mem
    ensures RowsPadded(p, old(mem[..]), mem[..], ya, yb, from)
  {
    RowsFit(p, mem.Length, src, dst, ya, yb, from, widthBytes, height);
    hide *;
    CopyBufferEdgeDataH(mem, PadOf(p), src, dst, widthBytes, height);
    if !p.frame.padding.EdgePadding? {
      SourceIgnored(old(mem[..]), PadOf(p), src, RowStart(p, from), dst, widthBytes, height);
    }
    RowFillsPad(p, old(mem[..]), ya, yb, from);
  }

  lemma RowsFit(p: Place, len: nat, src: int, dst: int, ya: int, yb: int, from: int, widthBytes: nat, height: nat)
    requires Sound(p) && 0 <= p.bufLo && p.bufHi <= len
    requires p.Y0() <= ya <= yb <= p.Y1() + 1 && p.Y0() <= from <= p.Y1()
    requires dst == RowStart(p, ya) && widthBytes == RowWidth(p) && height == yb - ya
    requires p.frame.padding.EdgePadding? ==> !(ya <= from < yb) && src == RowStart(p, from)
    ensures PadOf(p).padding == p.frame.padding && 0 <= RowWidth(p)
    ensures forall r :: 0 <= r < height ==> Fits(len, RowAddr(dst, PadOf(p).pitch, r), widthBytes)
    ensures p.frame.padding.EdgePadding? ==> Fits(len, src, widthBytes) && forall r :: 0 <= r < height ==>
              Apart(RowAddr(dst, PadOf(p).pitch, r), src, widthBytes)
  {
    forall r | 0 <= r < height
      ensures RowAddr(dst, p.pitch, r) == RowStart(p, ya + r) && Fits(len, RowStart(p, ya + r), widthBytes)
      ensures p.frame.padding.EdgePadding? ==> Apart(RowStart(p, ya + r), src, widthBytes)
    {
      TimesAdd(ya - p.Y0(), r, p.pitch);
      RowsAreLaid(p, ya + r);
      RowsAreLaid(p, from);
    }
    RowsAreLaid(p, from);
  }

  lemma ColumnsFit(p: Place, len: nat, src: int, dst: int, xa: int, xb: int, from: int)
    requires Sound(p) && 0 <= p.bufLo && p.bufHi <= len
    requires p.X0() <= xa <= xb <= p.X1() + 1 && p.X0() <= from <= p.X1() && !(xa <= from < xb)
    requires src == p.EdgePtr() + p.frame.Col(from - p.X0()) && dst == p.EdgePtr() + p.frame.Col(xa - p.X0())
    ensures forall r :: 0 <= r <= p.Y1() - p.Y0() ==>
              0 <= RowAddr(dst, p.pitch, r) <= len - Times(xb - xa, p.frame.pixWidth)
                && Fits(len, RowAddr(src, p.pitch, r), p.frame.pixWidth)
    ensures forall r, r' :: 0 <= r <= p.Y1() - p.Y0() && 0 <= r' <= p.Y1() - p.Y0() ==>
              (RowAddr(dst, p.pitch, r) + Times(xb - xa, p.frame.pixWidth) <= RowAddr(src, p.pitch, r')
               || RowAddr(src, p.pitch, r') + p.frame.pixWidth <= RowAddr(dst, p.pitch, r))
  {
    hide Times, RowWidth;
    var n, w, s, d :=
      Times(xb - xa, p.frame.pixWidth), p.frame.pixWidth, p.frame.Col(from - p.X0()), p.frame.Col(xa - p.X0());
    assert 0 <= d && d + n <= RowWidth(p) && 0 <= s && s + w <= RowWidth(p) && (d + n <= s || s + w <= d) by {
      WidthOfRun(p, xa); WidthOfRun(p, xb); WidthOfRun(p, from); WidthOfRun(p, from + 1);
      RunOfColumns(p, xa, xb, from);
      TimesAdd(xa - p.X0(), xb - xa, w); TimesAdd(from - p.X0(), 1, w);
      TimesIsProduct(1, w);
    }
    forall r | 0 <= r <= p.Y1() - p.Y0()
      ensures 0 <= RowAddr(dst, p.pitch, r) <= len - n && Fits(len, RowAddr(src, p.pitch, r), w)
    {
      RowsAreLaid(p, p.Y0() + r);
    }
    forall r, r' | 0 <= r <= p.Y1() - p.Y0() && 0 <= r' <= p.Y1() - p.Y0()
      ensures RowAddr(dst, p.pitch, r) + n <= RowAddr(src, p.pitch, r')
              || RowAddr(src, p.pitch, r') + w <= RowAddr(dst, p.pitch, r)
    {
      RowsAreLaid(p, p.Y0() + r);
      RowsAreLaid(p, p.Y0() + r');
      assert r < r' ==> RowStart(p, p.Y0() + r) + RowWidth(p) <= RowStart(p, p.Y0() + r');
      assert r' < r ==> RowStart(p, p.Y0() + r') + RowWidth(p) <= RowStart(p, p.Y0() + r);
    }
  }

  method PadColumns(mem: array<byte>, p: Place, src: int, dst: int, ghost xa: int, ghost xb: int, ghost from: int,
                    width: nat, height: nat)
    requires Sound(p) && 0 <= p.bufLo && p.bufHi <= mem.Length
    requires p.X0() <= xa <= xb <= p.X1() + 1 && p.X0() <= from <= p.X1() && !(xa <= from < xb)
    requires src == p.EdgePtr() + p.frame.Col(from - p.X0()) && dst == p.EdgePtr() + p.frame.Col(xa - p.X0())
    requires width == xb - xa && height == p.Y1() - p.Y0() + 1
    modifies mem
    ensures ColumnsPadded(p, old(mem[..]), mem[..], xa, xb, from)
  {
    hide Times, Place.Consistent, ColumnsPadded, WriteAll, PixelFills, RowAddr, Place.EdgePtr, Sound;
    ColumnsFit(p, mem.Length, src, dst, xa, xb, from);
    CopyBufferEdgeDataV(mem, PadOf(p), src, dst, width, height);
    PixelFillsPad(p, old(mem[..]), PixelFills(old(mem[..]), PadOf(p), src, dst, width, height), xa, xb, from);
  }

  ghost predicate Stages(p: Place, y1: int, y2: int, x1: int, x2: int, m0: seq<byte>, m1: seq<byte>, m2: seq<byte>,
                         m3: seq<byte>, m4: seq<byte>) {
    && RowsPadded(p, m0, m1, p.Y0(), y1, y1)
    && RowsPadded(p, m1, m2, y2 + 1, p.Y1() + 1, y2)
    && ColumnsPadded(p, m2, m3, p.X0(), x1, x1)
    && ColumnsPadded(p, m3, m4, x2 + 1, p.X1() + 1, x2)
  }

  // Corners come out right because the columns are taken from rows that are already padded.
  lemma StagesAt(p: Place, y1: int, y2: int, x1: int, x2: int, m0: seq<byte>, m1: seq<byte>, m2: seq<byte>,
                 m3: seq<byte>, m4: seq<byte>,
                 y: int, x: int, k: int)
    requires Stages(p, y1, y2, x1, x2, m0, m1, m2, m3, m4) && HasPx(p, y, x, k)
    requires p.Y0() <= y1 <= y2 <= p.Y1() && p.X0() <= x1 <= x2 <= p.X1()
    ensures ByteAt(m4, Px(p, y, x, k)) ==
            if y1 <= y <= y2 && x1 <= x <= x2 then ByteAt(m0, Px(p, y, x, k))
            else PadValue(p, ByteAt(m0, Px(p, Clamp(y, y1, y2), Clamp(x, x1, x2), k)), k)
  {
    hide Px, PadByte;
    assert HasPx(p, y, Clamp(x, x1, x2), k) && HasPx(p, Clamp(y, y1, y2), x, k)
           && HasPx(p, Clamp(y, y1, y2), Clamp(x, x1, x2), k);
  }

  // Top, bottom, left, right, in this order, turn a loaded tile into the extended frame.
  lemma PaddingCompletes(p: Place, lo: int, m0: seq<byte>, m1: seq<byte>, m2: seq<byte>, m3: seq<byte>, m4: seq<byte>)
    requires Safe(p, lo, |m0|) && p.Meets()
    requires Stages(p, p.YSpan().a, p.YSpan().b, p.XSpan().a, p.XSpan().b, m0, m1, m2, m3, m4)
    ensures |m4| == |m0| && forall a :: 0 <= a < |m0| && OffTile(p, a) ==> m4[a] == m0[a]
    ensures forall y, x, k :: HasPx(p, y, x, k) && InClip(p, y, x) ==>
              ByteAt(m4, Px(p, y, x, k)) == ByteAt(m0, Px(p, y, x, k))
    ensures Loaded(m0, p) ==> Shows(m4, p)
  {
    hide Px, FramePx, Clip, PadByte, OffTile;
    var f, y1, y2, x1, x2 := p.frame, p.YSpan().a, p.YSpan().b, p.XSpan().a, p.XSpan().b;
    ClipIsIntersection(p.X0(), p.X1(), f.padLeft, f.width, f.padRight, x1);
    ClipIsIntersection(p.Y0(), p.Y1(), f.padTop, f.height, f.padBottom, y1);
    forall y, x, k | f.HasPixel(y, x) && 0 <= k < f.pixWidth
      ensures ByteAt(m4, FramePx(f, y, x, k)) == ByteAt(m0, FramePx(f, y, x, k))
    {
      FramePxInExtent(f, y, x, k);
      OutsideBuffer(p, FramePx(f, y, x, k));
    }
    forall y, x, k | HasPx(p, y, x, k)
      ensures InClip(p, y, x) ==> ByteAt(m4, Px(p, y, x, k)) == ByteAt(m0, Px(p, y, x, k))
      ensures Loaded(m0, p) ==> ByteAt(m4, Px(p, y, x, k)) == Reference(m4, f, y, x, k)
    {
      StagesAt(p, y1, y2, x1, x2, m0, m1, m2, m3, m4, y, x, k);
      PaddedByte(p, m0, m4, y, x, k);
    }
  }

  // The byte the four stages leave is the reference's, when they started from a loaded tile.
  lemma PaddedByte(p: Place, m0: seq<byte>, m4: seq<byte>, y: int, x: int, k: int)
    requires Sound(p) && p.Meets() && HasPx(p, y, x, k)
    requires var y1, y2, x1, x2 := p.YSpan().a, p.YSpan().b, p.XSpan().a, p.XSpan().b;
             ByteAt(m4, Px(p, y, x, k)) ==
             if y1 <= y <= y2 && x1 <= x <= x2 then ByteAt(m0, Px(p, y, x, k))
             else PadValue(p, ByteAt(m0, Px(p, Clamp(y, y1, y2), Clamp(x, x1, x2), k)), k)
    requires forall y, x, k :: p.frame.HasPixel(y, x) && 0 <= k < p.frame.pixWidth ==>
               ByteAt(m4, FramePx(p.frame, y, x, k)) == ByteAt(m0, FramePx(p.frame, y, x, k))
    ensures Loaded(m0, p) ==> ByteAt(m4, Px(p, y, x, k)) == Reference(m4, p.frame, y, x, k)
  {
    var f, x1, y1 := p.frame, p.XSpan().a, p.YSpan().a;
    var yy, xx := Clamp(y, y1, p.YSpan().b), Clamp(x, x1, p.XSpan().b);
    NearestPixel(p, y, x, yy, xx);
    hide Px, FramePx, Clip, PadByte, Place.Consistent, Frame.HasPixel, InClip, Place.Meets, Place.X0, Place.X1,
      Place.Y0, Place.Y1;
    assert HasPx(p, yy, xx, k) && InClip(p, yy, xx);
  }

  // The nearest pixel of the clipped rectangle is the nearest one of the padded frame.
  lemma NearestPixel(p: Place, y: int, x: int, yy: int, xx: int)
    requires Sound(p) && p.Meets() && p.Y0() <= y <= p.Y1() && p.X0() <= x <= p.X1()
    requires yy == Clamp(y, p.YSpan().a, p.YSpan().b) && xx == Clamp(x, p.XSpan().a, p.XSpan().b)
    ensures var f := p.frame;
            && yy == Clamp(y, 0 - f.padTop, f.height - 1 + f.padBottom)
            && xx == Clamp(x, 0 - f.padLeft, f.width - 1 + f.padRight)
            && InClip(p, yy, xx) && f.HasPixel(yy, xx) && p.Y0() <= yy <= p.Y1() && p.X0() <= xx <= p.X1()
            && (InClip(p, y, x) <==> f.HasPixel(y, x)) && (InClip(p, y, x) ==> yy == y && xx == x)
  {
    var f := p.frame;
    ClipIsIntersection(p.X0(), p.X1(), f.padLeft, f.width, f.padRight, x);
    ClipIsIntersection(p.Y0(), p.Y1(), f.padTop, f.height, f.padBottom, y);
  }
}
