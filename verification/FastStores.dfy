// The stores of xvPadEdges as they run, against the values FastPath describes.

module FastStores {
  import opened Dma
  import opened Grids
  import opened TileGeometry
  import opened TilePadding
  import opened FastPath
  import opened TileRuns
  import opened TileManagers

  // One side of an edge-padded tile: in every row one vector store of the row's pixel. The last pixel stays in the
  // register.
  method PadSide(mem: array<byte>, p: Place, xa: int, xb: int, from: int, vec: nat) returns (last: seq<byte>)
    requires Sound(p) && 0 <= p.bufLo && p.bufHi <= mem.Length
    requires p.X0() <= xa <= xb <= p.X1() + 1 && p.X0() <= from <= p.X1() && !(xa <= from < xb)
    modifies mem
    ensures mem[..] == WriteAll(old(mem[..]), SideFills(p, xa, xb - xa, vec, SourcePixels(p, old(mem[..]), from)))
    ensures last == SourcePixel(p, old(mem[..]), from, p.Y1() - p.Y0())
  {
    ghost var m, all := mem[..], SideFills(p, xa, xb - xa, vec, SourcePixels(p, mem[..], from));
    assert |all| == Rows(p);
    last := [];
    hide WriteAll, Times, RowWidth, Place.Consistent, RowStart, SideFills, SourcePixels, SourcePixel, VectorBytes,
      Pixel;
    for indy := 0 to Rows(p)
      invariant mem[..] == WriteAll(m, all[..indy])
      invariant indy > 0 ==> last == SourcePixel(p, m, from, indy - 1)
    {
      var src := RowStart(p, p.Y0() + indy) + p.frame.Col(from - p.X0());
      SideFillAt(p, m, xa, xb, from, vec, all, indy);
      SourceKept(p, m, xa, xb, from, vec, all, indy, src, mem[..]);
      StoreFits(p, m, xa, xb, vec, SourcePixel(p, m, from, indy), indy);
      last := Pixel(mem[..], src, p.frame.pixWidth);
      Store(mem, RowStart(p, p.Y0() + indy) + p.frame.Col(xa - p.X0()), VectorBytes(last, xb - xa, vec));
      NextWrite(m, all, indy);
    }
    assert all[..Rows(p)] == all;
  }

  // The right side of four-byte pixels: every row stores the register, whatever its own pixel is.
  method PadRightWords(mem: array<byte>, p: Place, xa: int, xb: int, vec: nat, register: seq<byte>)
    requires Sound(p) && 0 <= p.bufLo && p.bufHi <= mem.Length && p.X0() <= xa <= xb <= p.X1() + 1
             && |register| == p.frame.pixWidth
    modifies mem
    ensures mem[..] == WriteAll(old(mem[..]), SideFills(p, xa, xb - xa, vec, seq(Rows(p), _ => register)))
  {
    ghost var m, all := mem[..], SideFills(p, xa, xb - xa, vec, seq(Rows(p), _ => register));
    assert |all| == Rows(p);
    hide WriteAll, Times, RowWidth, Place.Consistent, RowStart, VectorBytes, SideFills;
    for indy := 0 to Rows(p)
      invariant mem[..] == WriteAll(m, all[..indy])
    {
      WordFillAt(p, xa, xb, vec, register, indy);
      StoreFits(p, m, xa, xb, vec, register, indy);
      Store(mem, RowStart(p, p.Y0() + indy) + p.frame.Col(xa - p.X0()), VectorBytes(register, xb - xa, vec));
      NextWrite(m, all, indy);
    }
    assert all[..Rows(p)] == all;
  }

  lemma WordFillAt(p: Place, xa: int, xb: int, vec: nat, register: seq<byte>, r: nat)
    requires xa <= xb && r < Rows(p)
    ensures SideFills(p, xa, xb - xa, vec, seq(Rows(p), _ => register))[r] ==
            Fill(RowStart(p, p.Y0() + r) + p.frame.Col(xa - p.X0()), VectorBytes(register, xb - xa, vec))
  {
    hide RowStart, Times, VectorBytes;
  }

  function Splat(f: Frame, n: nat): seq<byte> { seq<byte>(n, i => FastByte(f, i)) }

  // A run of the constant, a vector at a time: each vector starts the splat afresh.
  method StoreRun(mem: array<byte>, f: Frame, dst: int, n: nat, vec: nat)
    requires Fits(mem.Length, dst, n) && f.pixWidth in {1, 2, 4} && vec > 0 && vec % 4 == 0
    modifies mem
    ensures mem[..] == Write(old(mem[..]), Fill(dst, Splat(f, n)))
  {
    var wb := n;
    while wb > 0
      invariant 0 <= wb <= n && (wb > 0 ==> (n - wb) % 4 == 0)
      invariant mem[..] == Write(old(mem[..]), Fill(dst, Splat(f, n - wb)))
    {
      var size := if wb < vec then wb else vec;
      SplatExtends(old(mem[..]), f, dst, n - wb, size);
      Store(mem, dst + (n - wb), Splat(f, size));
      wb := wb - size;
    }
  }

  lemma SplatExtends(m: seq<byte>, f: Frame, dst: int, done: nat, size: nat)
    requires f.pixWidth in {1, 2, 4} && done % 4 == 0
    ensures Write(Write(m, Fill(dst, Splat(f, done))), Fill(dst + done, Splat(f, size))) ==
              Write(m, Fill(dst, Splat(f, done + size)))
  {
    forall i: nat ensures FastByte(f, done + i) == FastByte(f, i) {}
    hide FastByte;
  }

  // The constant over a rectangle of the tile, row by row.
  method StoreRect(mem: array<byte>, p: Place, ya: int, yb: int, xa: int, xb: int, vec: nat)
    requires Sound(p) && 0 <= p.bufLo && p.bufHi <= mem.Length && p.frame.pixWidth in {1, 2, 4} && vec > 0
             && vec % 4 == 0
    requires p.Y0() <= ya <= yb <= p.Y1() + 1 && p.X0() <= xa <= xb <= p.X1() + 1
    modifies mem
    ensures mem[..] == StoreConstant(p, old(mem[..]), ya, yb, xa, xb)
  {
    ghost var m, all := mem[..], ConstantFills(p, ya, yb, xa, xb);
    hide WriteAll, Times, RowWidth, Place.Consistent, RowStart, FastByte, Splat;
    for indy := 0 to yb - ya
      invariant mem[..] == WriteAll(m, all[..indy])
    {
      RunFits(p, |m|, ya + indy, xa, xb);
      ConstantRowIs(p, ya + indy, xa, xb);
      StoreRun(mem, p.frame, RowStart(p, ya + indy) + p.frame.Col(xa - p.X0()), p.frame.Col(xb - xa), vec);
      NextWrite(m, all, indy);
    }
    assert all[..yb - ya] == all;
  }

  lemma ConstantRowIs(p: Place, y: int, xa: int, xb: int)
    requires p.frame.Col(xb - xa) >= 0
    ensures ConstantRow(p, y, xa, xb) ==
              Fill(RowStart(p, y) + p.frame.Col(xa - p.X0()), Splat(p.frame, p.frame.Col(xb - xa)))
  {
  }

  lemma RunFits(p: Place, len: nat, y: int, xa: int, xb: int)
    requires Sound(p) && 0 <= p.bufLo && p.bufHi <= len && p.Y0() <= y <= p.Y1() && p.X0() <= xa <= xb <= p.X1() + 1
    ensures p.frame.Col(xb - xa) >= 0 && Fits(len, RowStart(p, y) + p.frame.Col(xa - p.X0()), p.frame.Col(xb - xa))
  {
    RowsAreLaid(p, y);
    WidthOfRun(p, xa);
    WidthOfRun(p, xb);
    TimesAdd(xa - p.X0(), xb - xa, p.frame.pixWidth);
    ColOrder(p.frame, 0, xb - xa);
  }

  // A store of no columns, or of no rows, is not made.
  lemma NoConstantStored(p: Place, m: seq<byte>, ya: int, yb: int, xa: int, xb: int)
    requires xa == xb || ya == yb
    ensures StoreConstant(p, m, ya, yb, xa, xb) == m
  {
    var ws := ConstantFills(p, ya, yb, xa, xb);
    assert p.frame.Col(0) == 0;
    forall i | 0 <= i < |ws| ensures ws[i].bytes == [] { assert ws[i] == ConstantRow(p, ya + i, xa, xb); }
    EmptyFills(m, ws);
  }

  lemma {:induction false} EmptyFills(m: seq<byte>, ws: seq<Fill>)
    requires forall i :: 0 <= i < |ws| ==> ws[i].bytes == []
    ensures WriteAll(m, ws) == m
  {
    if ws != [] { EmptyFills(m, ws[..|ws| - 1]); }
  }

  // One side, if its bit is set.
  method StoreSide(mem: array<byte>, p: Place, needed: bool, ya: int, yb: int, xa: int, xb: int, vec: nat)
    requires Sound(p) && 0 <= p.bufLo && p.bufHi <= mem.Length && p.frame.pixWidth in {1, 2, 4} && vec > 0
             && vec % 4 == 0
    requires p.Y0() <= ya <= yb <= p.Y1() + 1 && p.X0() <= xa <= xb <= p.X1() + 1 && (needed || xa == xb || ya == yb)
    modifies mem
    ensures mem[..] == StoreConstant(p, old(mem[..]), ya, yb, xa, xb)
  {
    hide *;
    if needed { StoreRect(mem, p, ya, yb, xa, xb, vec); } else { NoConstantStored(p, mem[..], ya, yb, xa, xb); }
  }

  // The four rectangles outside the frame, corners twice.
  method PadConstantEdges(mem: array<byte>, p: Place, vec: nat)
    requires Sound(p) && p.Meets() && 0 <= p.bufLo && p.bufHi <= mem.Length && p.frame.pixWidth in {1, 2, 4} && vec > 0
             && vec % 4 == 0
    modifies mem
    ensures mem[..] == PadConstant(p, old(mem[..]))
  {
    var x, y := p.XSpan(), p.YSpan();
    Spans(p);
    hide Clip, StoreConstant, Place.Consistent, Place.X0, Place.X1, Place.Y0, Place.Y1, Sound, Place.Meets,
      Place.XSpan, Place.YSpan;
    StoreSide(mem, p, x.extraLo > 0, p.Y0(), p.Y1() + 1, p.X0(), x.a, vec);
    StoreSide(mem, p, x.extraHi > 0, p.Y0(), p.Y1() + 1, x.b + 1, p.X1() + 1, vec);
    StoreSide(mem, p, y.extraLo > 0, p.Y0(), y.a, p.X0(), p.X1() + 1, vec);
    StoreSide(mem, p, y.extraHi > 0, y.b + 1, p.Y1() + 1, p.X0(), p.X1() + 1, vec);
  }

  method PadLeftSide(mem: array<byte>, p: Place, ghost lo: int, vec: nat,
                     stale: seq<byte>) returns (register: seq<byte>)
    requires Safe(p, lo, mem.Length) && p.Meets() && |stale| == 4
    modifies mem
    ensures mem[..] == PadEdgeLeft(p, old(mem[..]), vec)
    ensures p.frame.pixWidth == 4 ==> |register| == 4 && register == Register(p, mem[..], stale)
  {
    register := stale;
    Spans(p);
    hide Clip, Place.Consistent, InSystem, WriteAll, SideFills, SourcePixels, SourcePixel;
    if p.XSpan().extraLo > 0 {
      ghost var m := mem[..];
      register := PadSide(mem, p, p.X0(), p.XSpan().a, p.XSpan().a, vec);
      RegisterKept(p, lo, m, vec);
    }
  }

  method PadRightSide(mem: array<byte>, p: Place, ghost lo: int, vec: nat, ghost stale: seq<byte>, register: seq<byte>)
    requires Safe(p, lo, mem.Length) && p.Meets()
    requires p.frame.pixWidth == 4 ==> |register| == 4 && register == Register(p, mem[..], stale)
    modifies mem
    ensures mem[..] == PadEdgeRight(p, old(mem[..]), vec, stale)
  {
    Spans(p);
    hide Clip, Place.Consistent, InSystem, WriteAll, SideFills, SourcePixels, SourcePixel, Register;
    var x := p.XSpan();
    if x.extraHi > 0 {
      if p.frame.pixWidth == 4 {
        PadRightWords(mem, p, x.b + 1, p.X1() + 1, vec, register);
      } else {
        var _ := PadSide(mem, p, x.b + 1, p.X1() + 1, x.b, vec);
      }
    }
  }

  // The left stores leave the pixel they read.
  lemma RegisterKept(p: Place, lo: int, m: seq<byte>, vec: nat)
    requires Safe(p, lo, |m|) && p.Meets()
    ensures var r := p.Y1() - p.Y0();
            && |SourcePixel(p, m, p.XSpan().a, r)| == p.frame.pixWidth
            && SourcePixel(p, PadEdgeLeft(p, m, vec), p.XSpan().a, r) == SourcePixel(p, m, p.XSpan().a, r)
  {
    Spans(p);
    var r, a, m' := p.Y1() - p.Y0(), p.XSpan().a, PadEdgeLeft(p, m, vec);
    hide Clip, Times, Place.Consistent, InSystem, PadEdgeLeft, RowStart, Px, RowWidth;
    forall k | 0 <= k < p.frame.pixWidth ensures SourcePixel(p, m', a, r)[k] == SourcePixel(p, m, a, r)[k] {
      PxInRow(p, p.Y1(), a, k);
      LeftKeepsInside(p, lo, m, vec, p.Y1(), a, k);
    }
  }

  /** xvPadEdges on a loaded tile that meets the frame leaves memory as FastTile says; a tile outside the frame, unless
      the mode is edge padding, becomes the extended frame, and nothing else changes. */
  method XvPadEdges(mem: array<byte>, p: Place, ghost lo: int, vec: nat, stale: seq<byte>, ghost m: seq<byte>)
    requires Safe(p, lo, mem.Length) && Simple(p.frame) && |stale| == 4 && vec > 0 && vec % 4 == 0
    requires p.Meets() || !p.frame.padding.EdgePadding?
    requires p.Meets() ==> mem[..] == FastLoaded(p, m)
    modifies mem
    ensures p.Meets() ==> mem[..] == FastTile(p, m, vec, stale)
    ensures !p.Meets() ==> Shows(mem[..], p) && forall a :: 0 <= a < mem.Length && OffTile(p, a) ==>
              mem[a] == old(mem[a])
  {
    if !p.Meets() {
      OutsideIsLoaded(p, mem[..]);
      PadWhole(mem, p, lo);
      return;
    }
    hide FastLoaded, PadEdgeLeft, PadEdgeRight, PadConstant, Register, Clip, Place.Consistent;
    if p.frame.padding.EdgePadding? {
      // A four-byte right side finds in the register what the left side loaded last.
      var register := PadLeftSide(mem, p, lo, vec, stale);
      PadRightSide(mem, p, lo, vec, stale, register);
    } else {
      PadConstantEdges(mem, p, vec);
    }
  }

  // Nothing is to be loaded outside the frame.
  lemma OutsideIsLoaded(p: Place, m: seq<byte>)
    requires Sound(p) && !p.Meets()
    ensures Loaded(m, p)
  {
    hide Clip, Px, FramePx;
  }

  // The pixel a row repeats has not been written by the rows before.
  lemma SourceKept(p: Place, m: seq<byte>, xa: int, xb: int, from: int, vec: nat, all: seq<Fill>, r: nat, src: int,
                   m': seq<byte>)
    requires Sound(p) && 0 <= p.bufLo && p.bufHi <= |m| && r < Rows(p)
    requires p.X0() <= xa <= xb <= p.X1() + 1 && p.X0() <= from <= p.X1()
    requires |all| == Rows(p) && all == SideFills(p, xa, xb - xa, vec, SourcePixels(p, m, from))
    requires src == RowStart(p, p.Y0() + r) + p.frame.Col(from - p.X0()) && m' == WriteAll(m, all[..r])
    ensures Pixel(m', src, p.frame.pixWidth) == SourcePixel(p, m, from, r)
    ensures |SourcePixel(p, m, from, r)| == p.frame.pixWidth
  {
    assert SourcePixel(p, m, from, r) == Pixel(m, src, p.frame.pixWidth)
           && |Pixel(m, src, p.frame.pixWidth)| == p.frame.pixWidth;
    hide *;
    forall a | src <= a < src + p.frame.pixWidth ensures ByteAt(m', a) == ByteAt(m, a) {
      SourceByteKept(p, m, xa, xb, from, vec, all, r, src, a);
    }
    SamePixel(m, m', src, p.frame.pixWidth);
  }

  lemma SourceByteKept(p: Place, m: seq<byte>, xa: int, xb: int, from: int, vec: nat, all: seq<Fill>, r: nat, src: int,
                       a: int)
    requires Sound(p) && 0 <= p.bufLo && p.bufHi <= |m| && r < Rows(p)
    requires p.X0() <= xa <= xb <= p.X1() + 1 && p.X0() <= from <= p.X1()
    requires |all| == Rows(p) && all == SideFills(p, xa, xb - xa, vec, SourcePixels(p, m, from))
    requires src == RowStart(p, p.Y0() + r) + p.frame.Col(from - p.X0()) && src <= a < src + p.frame.pixWidth
    ensures ByteAt(WriteAll(m, all[..r]), a) == ByteAt(m, a)
  {
    hide WriteAll, RowStart, Times, RowWidth, Place.Consistent, SideFills, SourcePixels;
    PxInRow(p, p.Y0() + r, from, a - src);
    EarlierRows(p, m, xa, xb, from, vec, all, r, a);
    if 0 <= a < |m| { WriteAllOutside(m, all[..r], a); }
  }

  lemma SamePixel(m: seq<byte>, m': seq<byte>, src: int, n: nat)
    requires forall a :: src <= a < src + n ==> ByteAt(m', a) == ByteAt(m, a)
    ensures Pixel(m', src, n) == Pixel(m, src, n)
  {
    forall k | 0 <= k < n ensures Pixel(m', src, n)[k] == Pixel(m, src, n)[k] {}
  }

  lemma SideFillAt(p: Place, m: seq<byte>, xa: int, xb: int, from: int, vec: nat, all: seq<Fill>, r: nat)
    requires xa <= xb && r < Rows(p) && all == SideFills(p, xa, xb - xa, vec, SourcePixels(p, m, from))
    ensures |all| == Rows(p)
            && all[r] ==
              Fill(RowStart(p, p.Y0() + r) + p.frame.Col(xa - p.X0()),
                   VectorBytes(SourcePixel(p, m, from, r), xb - xa, vec))
  {
    hide RowStart, Times, VectorBytes, SourcePixel;
  }

  // The stores into earlier rows miss a byte of row r.
  lemma EarlierRows(p: Place, m: seq<byte>, xa: int, xb: int, from: int, vec: nat, all: seq<Fill>, r: nat, a: int)
    requires Sound(p) && 0 <= p.bufLo && p.bufHi <= |m| && r < Rows(p) && p.X0() <= xa <= xb <= p.X1() + 1
    requires all == SideFills(p, xa, xb - xa, vec, SourcePixels(p, m, from)) && |all| == Rows(p)
             && InRow(p, p.Y0() + r, a)
    ensures forall i :: 0 <= i < |all[..r]| ==> !all[..r][i].Has(a)
  {
    hide Times, RowWidth, Place.Consistent, VectorBytes, RowStart;
    forall i | 0 <= i < r ensures !all[i].Has(a) {
      SideFillAt(p, m, xa, xb, from, vec, all, i);
      StoreFits(p, m, xa, xb, vec, SourcePixel(p, m, from, i), i);
      RowsAreLaid(p, p.Y0() + i);
    }
  }

  lemma StoreFits(p: Place, m: seq<byte>, xa: int, xb: int, vec: nat, pixel: seq<byte>, r: nat)
    requires Sound(p) && 0 <= p.bufLo && p.bufHi <= |m| && r < Rows(p) && p.X0() <= xa <= xb <= p.X1() + 1
             && |pixel| == p.frame.pixWidth
    ensures var off, n := p.frame.Col(xa - p.X0()), |VectorBytes(pixel, xb - xa, vec)|;
            0 <= off && off + n <= RowWidth(p) && Fits(|m|, RowStart(p, p.Y0() + r) + off, n)
  {
    RowsAreLaid(p, p.Y0() + r);
    WidthOfRun(p, xa);
    WidthOfRun(p, xb);
    TimesAdd(xa - p.X0(), xb - xa, p.frame.pixWidth);
  }
}
