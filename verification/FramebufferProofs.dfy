// Blits as copies of rectangles of pixels, and exactly when they panic.
module GraphicsProofs {
  import opened Bytes
  import opened Graphics

  /** No buffer of a process reaches 2^56 bytes, the address space of 5-level paging. */
  const LIMIT: nat := 0x100_0000_0000_0000

  // ---- One row ----

  /** What the wrapping arithmetic of a row amounts to. */
  function ExactRow(s: nat, srcLen: nat, d: nat, dstLen: nat, bytes: nat): RowCopy {
    if srcLen < s then
      if d == dstLen && dstLen < s - srcLen then Skip else Panic
    else
      var n := Min(bytes, srcLen - s);
      if n == 0 || d == dstLen then Skip
      else if dstLen < d then Panic
      else Copy(d, s, Min(n, dstLen - d))
  }

  lemma AddSmall(a: nat, b: nat)
    requires a + b < U64
    ensures Add64(a, b) == a + b
  {
  }

  lemma AddWraps(a: nat, b: nat)
    requires a < U64 && b < U64 && U64 <= a + b
    ensures Add64(a, b) == a + b - U64
  {
  }

  lemma SubSmall(a: nat, b: nat)
    requires b <= a < U64
    ensures Sub64(a, b) == a - b
  {
  }

  lemma SubWraps(a: nat, b: nat)
    requires a < b < U64
    ensures Sub64(a, b) == U64 - (b - a)
  {
  }

  // The source row starts inside the source.
  lemma ReachingRow(s: nat, srcLen: nat, d: nat, dstLen: nat, bytes: nat)
    requires s <= srcLen < LIMIT && dstLen < LIMIT && d < U64 && bytes < 4 * U32
    ensures PlanRow(s, srcLen, d, dstLen, bytes) == ExactRow(s, srcLen, d, dstLen, bytes)
  {
    hide Add64, Sub64;
    AddSmall(s, bytes);
    var available := Min(s + bytes, srcLen) - s;
    SubSmall(s + available, s);
    if available > 0 {
      DstPart(d, dstLen, available);
      if d < dstLen {
        AddSmall(s, Min(available, dstLen - d));
      }
    }
  }

  // How far a short copy reaches into the destination.
  lemma DstPart(d: nat, dstLen: nat, available: nat)
    requires 0 < available < 2 * LIMIT && dstLen < LIMIT && d < U64
    ensures var n := Sub64(Min(Add64(d, available), dstLen), d);
      && (d <= dstLen ==> n == Min(available, dstLen - d) && Add64(d, n) == d + n)
      && (dstLen < d ==> n > 0 && Add64(d, n) < d)
  {
    hide Add64, Sub64;
    if d <= dstLen {
      AddSmall(d, available);
      var end := Min(d + available, dstLen);
      SubSmall(end, d);
      AddSmall(d, end - d);
    } else {
      if d + available < U64 { AddSmall(d, available); } else { AddWraps(d, available); }
      var end := Min(Add64(d, available), dstLen);
      SubWraps(end, d);
      AddWraps(d, U64 - (d - end));
    }
  }

  // The source row starts past the end of the source: the length left over is negative and wraps.
  lemma ShortRow(s: nat, srcLen: nat, d: nat, dstLen: nat, bytes: nat)
    requires srcLen < s < U64 && srcLen < LIMIT && dstLen < LIMIT && d < U64 && bytes < 4 * U32
    requires s < 4 * LIMIT || d < 4 * LIMIT
    ensures PlanRow(s, srcLen, d, dstLen, bytes) == ExactRow(s, srcLen, d, dstLen, bytes)
  {
    hide Add64, Sub64;
    if s + bytes < U64 { AddSmall(s, bytes); } else { AddWraps(s, bytes); }
    var end := Min(Add64(s, bytes), srcLen);
    SubWraps(end, s);
    var lack := s - end;
    if lack <= d { AddWraps(d, U64 - lack); } else { AddSmall(d, U64 - lack); }
    var dstEnd := Min(Add64(d, U64 - lack), dstLen);
    if d <= dstEnd {
      SubSmall(dstEnd, d);
      var n := dstEnd - d;
      AddSmall(d, n);
      if s + n < U64 { AddSmall(s, n); } else { AddWraps(s, n); }
    } else {
      SubWraps(dstEnd, d);
      AddWraps(d, U64 - (d - dstEnd));
    }
  }

  lemma PlanExact(s: nat, srcLen: nat, d: nat, dstLen: nat, bytes: nat)
    requires s < U64 && d < U64 && srcLen < LIMIT && dstLen < LIMIT && bytes < 4 * U32
    requires s < 4 * LIMIT || d < 4 * LIMIT
    ensures PlanRow(s, srcLen, d, dstLen, bytes) == ExactRow(s, srcLen, d, dstLen, bytes)
  {
    hide PlanRow, ExactRow;
    if s <= srcLen { ReachingRow(s, srcLen, d, dstLen, bytes); } else { ShortRow(s, srcLen, d, dstLen, bytes); }
  }

  // ---- All rows ----

  /** A blit panics exactly when one of its rows does. */
  lemma {:induction false} OkIff(dst: seq<byte>, src: seq<byte>, l: Layout, rows: nat)
    ensures CopyRows(dst, src, l, rows).1 <==> forall r: nat :: r < rows ==> !RowPlan(l, |dst|, |src|, r).Panic?
    decreases rows
  {
    hide RowPlan;
    if rows > 0 { OkIff(dst, src, l, rows - 1); }
  }

  ghost predicate Hits(p: RowCopy, i: nat) {
    p.Copy? && p.dst <= i < p.dst + p.n
  }

  /** A byte that no row copies to keeps its value, panic or not. */
  lemma {:induction false} RowsUntouched(dst: seq<byte>, src: seq<byte>, l: Layout, rows: nat, i: nat)
    requires i < |dst| && forall r: nat :: r < rows ==> !Hits(RowPlan(l, |dst|, |src|, r), i)
    ensures CopyRows(dst, src, l, rows).0[i] == dst[i]
    decreases rows
  {
    hide RowPlan;
    if rows > 0 {
      RowsUntouched(dst, src, l, rows - 1, i);
      PlanFits(l, |dst|, |src|, rows - 1);
    }
  }

  /** A byte ends as what the last row that copies to it brings, if the blit comes through. */
  lemma {:induction false} RowsCopied(dst: seq<byte>, src: seq<byte>, l: Layout, rows: nat, r: nat, i: nat)
    requires r < rows && CopyRows(dst, src, l, rows).1 && i < |dst| && Hits(RowPlan(l, |dst|, |src|, r), i)
    requires forall q: nat :: r < q < rows ==> !Hits(RowPlan(l, |dst|, |src|, q), i)
    ensures var p := RowPlan(l, |dst|, |src|, r);
      p.src + (i - p.dst) < |src| && CopyRows(dst, src, l, rows).0[i] == src[p.src + (i - p.dst)]
    decreases rows
  {
    hide RowPlan;
    PlanFits(l, |dst|, |src|, rows - 1);
    if r < rows - 1 {
      RowsCopied(dst, src, l, rows - 1, r, i);
    } else {
      var p := RowPlan(l, |dst|, |src|, r);
      assert src[p.src..p.src + p.n][i - p.dst] == src[p.src + (i - p.dst)];
    }
  }

  lemma {:induction false} StaysOne(dst: seq<byte>, src: seq<byte>, l: Layout, k: nat, rows: nat, i: nat)
    requires k <= rows && i < |dst| && CopyRows(dst, src, l, k).0[i] == 1
    requires forall j :: 0 <= j < |src| ==> src[j] == 1
    ensures CopyRows(dst, src, l, rows).0[i] == 1
    decreases rows
  {
    hide RowPlan;
    if k < rows {
      StaysOne(dst, src, l, k, rows - 1, i);
      PlanFits(l, |dst|, |src|, rows - 1);
    }
  }

  /** Copying ones shows a row that copies, unless the blit panics. */
  lemma CopyShows(dst: seq<byte>, src: seq<byte>, l: Layout, rows: nat, r: nat)
    requires r < rows && RowPlan(l, |dst|, |src|, r).Copy? && RowPlan(l, |dst|, |src|, r).n > 0
    requires forall j :: 0 <= j < |src| ==> src[j] == 1
    ensures var i := RowPlan(l, |dst|, |src|, r).dst;
      i < |dst| && (!CopyRows(dst, src, l, rows).1 || CopyRows(dst, src, l, rows).0[i] == 1)
  {
    PlanFits(l, |dst|, |src|, r);
    hide RowPlan;
    var i := RowPlan(l, |dst|, |src|, r).dst;
    if CopyRows(dst, src, l, rows).1 {
      OkIff(dst, src, l, rows);
      OkIff(dst, src, l, r + 1);
      RowsCopied(dst, src, l, r + 1, r, i);
      StaysOne(dst, src, l, r + 1, rows, i);
    }
  }

  // ---- Rows of the screen ----

  function ByteOf(width: nat, px: nat, py: nat, k: nat): nat {
    (py * width + px) * 4 + k
  }

  function Size(g: Blit): nat {
    g.width * g.height * 4
  }

  /** A framebuffer whose stride fits 32 bits, and 32-bit arguments. */
  ghost predicate OnScreen(g: Blit) {
    && g.width * 4 < U32 && g.height < U32 && Size(g) < LIMIT
    && g.stride < U32 && g.x < U32 && g.y < U32 && g.w < U32 && g.h < U32
  }

  /** Where row `r` of the rectangle starts in the framebuffer. */
  function Start(g: Blit, r: nat): nat {
    ByteOf(g.width, g.x, g.y + r, 0)
  }

  /** Bytes per row of the rectangle; past the right border the subtraction wraps and nothing is clipped. */
  function Wide(g: Blit): nat {
    if g.x <= g.width then Min(g.w, g.width - g.x) * 4 else g.w * 4
  }

  ghost predicate InRectangle(g: Blit, px: nat, py: nat) {
    g.x <= px < g.x + g.w && g.y <= py < g.y + g.h
  }

  lemma {:induction false} RowGap(width: nat, a: nat, b: nat)
    requires a < b
    ensures a * width + width <= b * width
    decreases b
  {
    if a + 1 < b { RowGap(width, a, b - 1); }
    assert b * width == (b - 1) * width + width;
  }

  lemma PixelInScreen(width: nat, height: nat, px: nat, py: nat, k: nat)
    requires px < width && py < height && k < 4
    ensures ByteOf(width, px, py, k) < width * height * 4
  {
    RowGap(width, py, height);
  }

  /** The byte where a row of the rectangle starts, and how far it is from the end of the screen. */
  lemma StartIs(g: Blit, r: nat)
    requires OnScreen(g) && r < VisibleRows(g)
    ensures ScreenAt(Stride(g.width), g.y + r, g.x) == Start(g, r) < 4 * LIMIT
    ensures g.x <= g.width ==> Start(g, r) + Wide(g) <= Size(g)
  {
    var a := (g.y + r) * g.width;
    RowGap(g.width, g.y + r, g.height);
    assert g.width * g.height == g.height * g.width;
    assert Stride(g.width) == g.width * 4;
    assert (g.y + r) * (g.width * 4) == a * 4;
    AddSmall(a * 4, g.x * 4);
  }

  lemma WideIs(g: Blit)
    requires OnScreen(g)
    ensures RowBytes(g.width, g.x, g.w) == Wide(g) < 4 * U32
  {
    hide Sub64;
    if g.x <= g.width { SubSmall(g.width, g.x); } else { SubWraps(g.width, g.x); }
  }

  /** Row `r` of a blit from a buffer of `len` bytes. */
  function FromRow(g: Blit, len: nat, r: nat): RowCopy {
    ExactRow(RowAt(g.stride, r), len, Start(g, r), Size(g), Wide(g))
  }

  /** Row `r` of a blit to a buffer of `len` bytes. */
  function ToRow(g: Blit, len: nat, r: nat): RowCopy {
    ExactRow(Start(g, r), Size(g), RowAt(g.stride, r), len, Wide(g))
  }

  lemma FromRowIs(g: Blit, len: nat, r: nat)
    requires OnScreen(g) && len < LIMIT && r < VisibleRows(g)
    ensures RowPlan(FromLayout(g), Size(g), len, r) == FromRow(g, len, r)
  {
    hide PlanRow, ExactRow, RowPlan, FromLayout, Start, Wide, Size, Stride, ScreenAt, RowAt, RowBytes;
    FromStarts(g, r, Size(g), len);
    StartIs(g, r);
    WideIs(g);
    PlanExact(RowAt(g.stride, r), len, Start(g, r), Size(g), Wide(g));
  }

  lemma ToRowIs(g: Blit, len: nat, r: nat)
    requires OnScreen(g) && len < LIMIT && r < VisibleRows(g)
    ensures RowPlan(ToLayout(g), len, Size(g), r) == ToRow(g, len, r)
  {
    hide PlanRow, ExactRow, RowPlan, ToLayout, Start, Wide, Size, Stride, ScreenAt, RowAt, RowBytes;
    ToStarts(g, r, len, Size(g));
    StartIs(g, r);
    WideIs(g);
    PlanExact(Start(g, r), Size(g), RowAt(g.stride, r), len, Wide(g));
  }

  // ---- Panics ----

  /**
   * Row `r` of a blit from a buffer of `len` bytes panics: it starts past the end of the source, unless it
   * also starts exactly at the end of the screen and lacks more than the whole screen; or it has bytes to
   * copy and starts past the end of the screen, which needs a left edge past the right border.
   */
  ghost predicate FromRowPanics(g: Blit, len: nat, r: nat) {
    if len < RowAt(g.stride, r) then !(Start(g, r) == Size(g) && Size(g) < RowAt(g.stride, r) - len)
    else g.w > 0 && RowAt(g.stride, r) < len && Size(g) < Start(g, r)
  }

  /** `blit_from` panics exactly when one of its visible rows does, for every source length and left edge. */
  lemma BlitFromPanicsIff(pixels: seq<byte>, src: seq<byte>, g: Blit)
    requires OnScreen(g) && |pixels| == Size(g) && |src| < LIMIT
    ensures !BlittedFrom(pixels, src, g).1 <==> exists r: nat :: r < VisibleRows(g) && FromRowPanics(g, |src|, r)
  {
    hide CopyRows, RowPlan, FromLayout, Size, FromRowPanics;
    OkIff(pixels, src, FromLayout(g), VisibleRows(g));
    forall r: nat | r < VisibleRows(g)
      ensures RowPlan(FromLayout(g), Size(g), |src|, r).Panic? <==> FromRowPanics(g, |src|, r)
    {
      FromRowIs(g, |src|, r);
      FromRowPanicsIs(g, |src|, r);
    }
  }

  lemma FromRowPanicsIs(g: Blit, len: nat, r: nat)
    requires OnScreen(g) && r < VisibleRows(g)
    ensures FromRow(g, len, r).Panic? <==> FromRowPanics(g, len, r)
    ensures FromRowPanics(g, len, r) ==> len < RowAt(g.stride, r) || g.width < g.x
  {
    hide Size, Start, RowAt;
    StartIs(g, r);
  }

  /**
   * Row `r` of a blit to a buffer of `len` bytes panics: it has bytes to copy and starts past the end of the
   * buffer; or, with a left edge past the right border, it starts past the end of the screen, unless it also
   * starts exactly at the end of a buffer shorter than the overshoot.
   */
  ghost predicate ToRowPanics(g: Blit, len: nat, r: nat) {
    if Size(g) < Start(g, r) then !(RowAt(g.stride, r) == len && len < Start(g, r) - Size(g))
    else Wide(g) > 0 && Start(g, r) < Size(g) && len < RowAt(g.stride, r)
  }

  lemma BlitToPanicsIff(pixels: seq<byte>, dst: seq<byte>, g: Blit)
    requires OnScreen(g) && |pixels| == Size(g) && |dst| < LIMIT
    ensures !BlittedTo(pixels, dst, g).1 <==> exists r: nat :: r < VisibleRows(g) && ToRowPanics(g, |dst|, r)
  {
    hide CopyRows, RowPlan, ToLayout, Size, ToRowPanics;
    OkIff(dst, pixels, ToLayout(g), VisibleRows(g));
    forall r: nat | r < VisibleRows(g)
      ensures RowPlan(ToLayout(g), |dst|, Size(g), r).Panic? <==> ToRowPanics(g, |dst|, r)
    {
      ToRowIs(g, |dst|, r);
      ToRowPanicsIs(g, |dst|, r);
    }
  }

  lemma ToRowPanicsIs(g: Blit, len: nat, r: nat)
    requires OnScreen(g) && r < VisibleRows(g)
    ensures ToRow(g, len, r).Panic? <==> ToRowPanics(g, len, r)
    ensures ToRowPanics(g, len, r) ==> len < RowAt(g.stride, r) || g.width < g.x
  {
    hide Size, Start, RowAt;
    StartIs(g, r);
  }

  // A 1x2 screen, and a buffer that ends before its second row.
  const TWO_ROWS := Blit(1, 2, 4, 0, 0, 1, 2)

  /** Both blits panic on an empty buffer, with the whole rectangle on the screen. */
  lemma ShortBufferPanics(pixels: seq<byte>)
    requires |pixels| == 8
    ensures !BlittedFrom(pixels, [], TWO_ROWS).1 && !BlittedTo(pixels, [], TWO_ROWS).1
  {
    TwoRows();
    hide BlittedFrom, BlittedTo, FromRowPanics, ToRowPanics, Size;
    BlitFromPanicsIff(pixels, [], TWO_ROWS);
    BlitToPanicsIff(pixels, [], TWO_ROWS);
  }

  lemma TwoRows()
    ensures OnScreen(TWO_ROWS) && Size(TWO_ROWS) == 8 && VisibleRows(TWO_ROWS) == 2
    ensures FromRowPanics(TWO_ROWS, 0, 1) && ToRowPanics(TWO_ROWS, 0, 1)
  {
    assert RowAt(4, 1) == 4 && Start(TWO_ROWS, 1) == 4 && Wide(TWO_ROWS) == 4;
  }

  // ---- Pixels ----

  // Rows of a screen are disjoint ranges of bytes.
  lemma PixelRow(width: nat, px: nat, py: nat, sy: nat, lo: nat, hi: nat, k: nat)
    requires px < width && hi <= width && k < 4
    requires ByteOf(width, lo, sy, 0) <= ByteOf(width, px, py, k) < ByteOf(width, hi, sy, 0)
    ensures py == sy && lo <= px < hi
  {
    if py < sy {
      RowGap(width, py, sy);
    } else if sy < py {
      RowGap(width, sy, py);
    }
  }

  /** A row copies into a pixel only if the pixel is on that row of the rectangle. */
  lemma HitIsInRectangle(g: Blit, len: nat, r: nat, px: nat, py: nat, k: nat)
    requires OnScreen(g) && g.x <= g.width && r < VisibleRows(g) && px < g.width && k < 4
    requires Hits(FromRow(g, len, r), ByteOf(g.width, px, py, k))
    ensures py == g.y + r && InRectangle(g, px, py)
    ensures RowAt(g.stride, r) + (px - g.x) * 4 + k < len
  {
    hide RowAt, Size;
    PixelRow(g.width, px, py, g.y + r, g.x, g.x + Min(g.w, g.width - g.x), k);
    assert ByteOf(g.width, px, py, k) == Start(g, r) + (px - g.x) * 4 + k;
  }

  /** The row of a pixel of the rectangle copies into it, as far as the source reaches. */
  lemma PixelIsHit(g: Blit, len: nat, px: nat, py: nat, k: nat)
    requires OnScreen(g) && px < g.width && py < g.height && k < 4 && InRectangle(g, px, py)
    requires RowAt(g.stride, py - g.y) + (px - g.x) * 4 + k < len
    ensures py - g.y < VisibleRows(g)
    ensures var p, i := FromRow(g, len, py - g.y), ByteOf(g.width, px, py, k);
      Hits(p, i) && p.src + (i - p.dst) == RowAt(g.stride, py - g.y) + (px - g.x) * 4 + k
  {
    hide RowAt, Size;
    StartIs(g, py - g.y);
    assert ByteOf(g.width, px, py, k) == Start(g, py - g.y) + (px - g.x) * 4 + k;
    assert (px - g.x) * 4 + k < Wide(g);
  }

  /** Byte `k` of the pixel in column `q` of row `r` of a buffer. */
  function BufferAt(stride: nat, r: nat, q: nat, k: nat): nat {
    RowAt(stride, r) + q * 4 + k
  }

  /** The source byte of byte `k` of a pixel of the rectangle. */
  function SourceAt(g: Blit, px: nat, py: nat, k: nat): nat
    requires InRectangle(g, px, py)
  {
    BufferAt(g.stride, py - g.y, px - g.x, k)
  }

  // Which rows of the whole blit copy into a pixel.
  lemma PixelHits(g: Blit, len: nat, r: nat, px: nat, py: nat, k: nat)
    requires OnScreen(g) && len < LIMIT && g.x <= g.width && r < VisibleRows(g)
    requires px < g.width && py < g.height && k < 4
    ensures var p, i := RowPlan(FromLayout(g), Size(g), len, r), ByteOf(g.width, px, py, k);
      && (Hits(p, i) <==> InRectangle(g, px, py) && r == py - g.y && SourceAt(g, px, py, k) < len)
      && (Hits(p, i) ==> p.src + (i - p.dst) == SourceAt(g, px, py, k))
  {
    hide RowPlan, FromLayout, FromRow, Size, RowAt, ByteOf, Hits;
    FromRowIs(g, len, r);
    if Hits(FromRow(g, len, r), ByteOf(g.width, px, py, k)) {
      HitIsInRectangle(g, len, r, px, py, k);
    }
    if InRectangle(g, px, py) && SourceAt(g, px, py, k) < len {
      PixelIsHit(g, len, px, py, k);
    }
  }

  /**
   * `blit_from` with its left edge on the screen changes no pixel outside the rectangle, panic or not. If it
   * comes through, each byte of a pixel in the clipped rectangle is its source byte as far as the source reaches.
   */
  lemma BlitFromIsClipped(pixels: seq<byte>, src: seq<byte>, g: Blit, px: nat, py: nat, k: nat)
    requires OnScreen(g) && |pixels| == Size(g) && |src| < LIMIT && g.x <= g.width
    requires px < g.width && py < g.height && k < 4
    ensures var (after, ok) := BlittedFrom(pixels, src, g);
      var i := ByteOf(g.width, px, py, k);
      var reached := InRectangle(g, px, py) && SourceAt(g, px, py, k) < |src|;
      && i < |pixels| && |after| == |pixels|
      && (!reached ==> after[i] == pixels[i])
      && (reached && ok ==> after[i] == src[SourceAt(g, px, py, k)])
  {
    assert ByteOf(g.width, px, py, k) < Size(g) by { PixelInScreen(g.width, g.height, px, py, k); }
    hide CopyRows, RowPlan, FromLayout, Size, ByteOf, SourceAt, Hits, OnScreen;
    var l, rows, i := FromLayout(g), VisibleRows(g), ByteOf(g.width, px, py, k);
    forall r: nat | r < rows
      ensures Hits(RowPlan(l, |pixels|, |src|, r), i) <==>
        InRectangle(g, px, py) && r == py - g.y && SourceAt(g, px, py, k) < |src|
    {
      PixelHits(g, |src|, r, px, py, k);
    }
    if InRectangle(g, px, py) && SourceAt(g, px, py, k) < |src| {
      PixelHits(g, |src|, py - g.y, px, py, k);
      if CopyRows(pixels, src, l, rows).1 {
        RowsCopied(pixels, src, l, rows, py - g.y, i);
      }
    } else {
      RowsUntouched(pixels, src, l, rows, i);
    }
  }

  /** Byte `j` of the buffer lies in row `r` of what `blit_to` copies out. */
  ghost predicate InSlot(g: Blit, r: nat, j: nat) {
    RowAt(g.stride, r) <= j < RowAt(g.stride, r) + Wide(g)
  }

  /** Row `r` is the last visible row whose slot holds byte `j`. */
  ghost predicate LastSlot(g: Blit, r: nat, j: nat) {
    r < VisibleRows(g) && InSlot(g, r, j) && forall q: nat :: r < q < VisibleRows(g) ==> !InSlot(g, q, j)
  }

  lemma SlotIsHit(g: Blit, len: nat, r: nat, j: nat)
    requires OnScreen(g) && g.x <= g.width && r < VisibleRows(g) && j < len
    ensures Hits(ToRow(g, len, r), j) <==> InSlot(g, r, j)
    ensures Hits(ToRow(g, len, r), j) ==>
      ToRow(g, len, r).src + (j - ToRow(g, len, r).dst) == Start(g, r) + (j - RowAt(g.stride, r)) < Size(g)
  {
    hide Start, Size, RowAt;
    StartIs(g, r);
  }

  /**
   * `blit_to` with its left edge on the screen changes no byte of the buffer outside the row slots, panic or
   * not. If it comes through, each byte in a slot is the screen byte at its distance into the row; where slots
   * overlap, the last row wins.
   */
  lemma BlitToReads(pixels: seq<byte>, dst: seq<byte>, g: Blit, r: nat, j: nat)
    requires OnScreen(g) && |pixels| == Size(g) && |dst| < LIMIT && g.x <= g.width && j < |dst|
    ensures var (after, ok) := BlittedTo(pixels, dst, g);
      && |after| == |dst|
      && ((forall q: nat :: q < VisibleRows(g) ==> !InSlot(g, q, j)) ==> after[j] == dst[j])
      && (ok && LastSlot(g, r, j) ==>
            Start(g, r) + (j - RowAt(g.stride, r)) < |pixels|
            && after[j] == pixels[Start(g, r) + (j - RowAt(g.stride, r))])
  {
    hide CopyRows, RowPlan, ToLayout, ToRow, Size, RowAt, Start, InSlot;
    var l, rows := ToLayout(g), VisibleRows(g);
    forall q: nat | q < rows
      ensures Hits(RowPlan(l, |dst|, |pixels|, q), j) <==> InSlot(g, q, j)
    {
      ToRowIs(g, |dst|, q);
      SlotIsHit(g, |dst|, q, j);
    }
    if forall q: nat :: q < rows ==> !InSlot(g, q, j) {
      RowsUntouched(dst, pixels, l, rows, j);
    }
    if CopyRows(dst, pixels, l, rows).1 && LastSlot(g, r, j) {
      ToRowIs(g, |dst|, r);
      SlotIsHit(g, |dst|, r, j);
      RowsCopied(dst, pixels, l, rows, r, j);
    }
  }

  /** Blitting a rectangle in and back out, when both come through, returns the source bytes of its visible part. */
  lemma BlitRoundTrip(pixels: seq<byte>, src: seq<byte>, dst: seq<byte>, g: Blit, out: Blit, r: nat, q: nat, k: nat)
    requires OnScreen(g) && OnScreen(out) && out == g.(stride := out.stride)
    requires |pixels| == Size(g) && |src| < LIMIT && |dst| < LIMIT
    requires q < g.w && g.x + q < g.width && r < VisibleRows(g) && k < 4
    requires BufferAt(g.stride, r, q, k) < |src| && BufferAt(out.stride, r, q, k) < |dst|
    requires forall s: nat :: r < s < VisibleRows(g) ==> !InSlot(out, s, BufferAt(out.stride, r, q, k))
    ensures var shown := BlittedFrom(pixels, src, g);
      var back := BlittedTo(shown.0, dst, out);
      && |shown.0| == |pixels| && |back.0| == |dst|
      && (shown.1 && back.1 ==> back.0[BufferAt(out.stride, r, q, k)] == src[BufferAt(g.stride, r, q, k)])
  {
    PixelInSlot(g, out, r, q, k);
    assert |pixels| == Size(out) && VisibleRows(out) == VisibleRows(g);
    assert SourceAt(g, g.x + q, g.y + r, k) == BufferAt(g.stride, r, q, k);
    hide BlittedFrom, BlittedTo, RowAt, Size, InSlot, Start, ByteOf, OnScreen, BufferAt, SourceAt;
    BlitFromIsClipped(pixels, src, g, g.x + q, g.y + r, k);
    BlitToReads(BlittedFrom(pixels, src, g).0, dst, out, r, BufferAt(out.stride, r, q, k));
  }

  lemma PixelInSlot(g: Blit, out: Blit, r: nat, q: nat, k: nat)
    requires out == g.(stride := out.stride) && q < g.w && g.x + q < g.width && k < 4
    ensures var j := BufferAt(out.stride, r, q, k);
      InSlot(out, r, j) && Start(out, r) + (j - RowAt(out.stride, r)) == ByteOf(g.width, g.x + q, g.y + r, k)
  {
    hide RowAt;
    assert Start(out, r) == Start(g, r);
    assert q + 1 <= Min(g.w, g.width - g.x);
  }

  // ---- When the clamping holds ----

  /** The blit comes through and changes no pixel outside its rectangle. */
  ghost predicate KeepsOutside(pixels: seq<byte>, src: seq<byte>, g: Blit) {
    var (after, ok) := BlittedFrom(pixels, src, g);
    ok && forall px: nat, py: nat, k: nat ::
      px < g.width && py < g.height && k < 4 && !InRectangle(g, px, py) && ByteOf(g.width, px, py, k) < |pixels|
      ==> after[ByteOf(g.width, px, py, k)] == pixels[ByteOf(g.width, px, py, k)]
  }

  /** It does so whatever the pixels and the source hold. */
  ghost predicate Clamps(g: Blit, len: nat) {
    forall pixels: seq<byte>, src: seq<byte> :: |pixels| == Size(g) && |src| == len ==> KeepsOutside(pixels, src, g)
  }

  /**
   * Row `r` is safe: when its source start is past the end of the source, it must start exactly at the end of the
   * screen and lack more than the screen; otherwise its left edge must be on the screen, or there must be nothing
   * to copy, or it must start exactly at the end of the screen.
   */
  ghost predicate RowSafe(g: Blit, len: nat, r: nat) {
    if len < RowAt(g.stride, r) then Start(g, r) == Size(g) && Size(g) < RowAt(g.stride, r) - len
    else g.x <= g.width || g.w == 0 || RowAt(g.stride, r) == len || Start(g, r) == Size(g)
  }

  /** The clamping that `blit_from` promises holds exactly when every visible row is safe, whatever the arguments. */
  lemma ClampsIff(g: Blit, len: nat)
    requires OnScreen(g) && len < LIMIT
    ensures Clamps(g, len) <==> forall r: nat :: r < VisibleRows(g) ==> RowSafe(g, len, r)
  {
    hide BlittedFrom, KeepsOutside, RowSafe, Size;
    if forall r: nat :: r < VisibleRows(g) ==> RowSafe(g, len, r) {
      forall pixels: seq<byte>, src: seq<byte> | |pixels| == Size(g) && |src| == len
        ensures KeepsOutside(pixels, src, g)
      {
        SafeKeeps(pixels, src, g);
      }
    } else {
      var r: nat :| r < VisibleRows(g) && !RowSafe(g, len, r);
      var pixels: seq<byte> := seq(Size(g), _ => 0);
      var src: seq<byte> := seq(len, _ => 1);
      UnsafeBreaks(pixels, src, g, r);
    }
  }

  lemma SafeKeeps(pixels: seq<byte>, src: seq<byte>, g: Blit)
    requires OnScreen(g) && |pixels| == Size(g) && |src| < LIMIT
    requires forall r: nat :: r < VisibleRows(g) ==> RowSafe(g, |src|, r)
    ensures KeepsOutside(pixels, src, g)
  {
    hide RowSafe, FromRowPanics, Size, BlittedFrom, ByteOf, InRectangle;
    BlitFromPanicsIff(pixels, src, g);
    forall r: nat | r < VisibleRows(g) ensures !FromRowPanics(g, |src|, r) { SafeRow(g, |src|, r); }
    forall px: nat, py: nat, k: nat |
      px < g.width && py < g.height && k < 4 && !InRectangle(g, px, py) && ByteOf(g.width, px, py, k) < |pixels|
      ensures |BlittedFrom(pixels, src, g).0| == |pixels|
      ensures BlittedFrom(pixels, src, g).0[ByteOf(g.width, px, py, k)] == pixels[ByteOf(g.width, px, py, k)]
    {
      if g.x <= g.width {
        BlitFromIsClipped(pixels, src, g, px, py, k);
      } else {
        NothingCopied(pixels, src, g, ByteOf(g.width, px, py, k));
      }
    }
  }

  lemma SafeRow(g: Blit, len: nat, r: nat)
    requires OnScreen(g) && len < LIMIT && r < VisibleRows(g) && RowSafe(g, len, r)
    ensures !FromRowPanics(g, len, r)
    ensures g.width < g.x ==> FromRow(g, len, r) == Skip
  {
    hide RowAt, Start, Size;
    StartIs(g, r);
  }

  lemma NothingCopied(pixels: seq<byte>, src: seq<byte>, g: Blit, i: nat)
    requires OnScreen(g) && |pixels| == Size(g) && |src| < LIMIT && g.width < g.x && i < |pixels|
    requires forall r: nat :: r < VisibleRows(g) ==> RowSafe(g, |src|, r)
    ensures |BlittedFrom(pixels, src, g).0| == |pixels| && BlittedFrom(pixels, src, g).0[i] == pixels[i]
  {
    hide RowSafe, CopyRows, RowPlan, FromLayout, FromRow, Size;
    forall r: nat | r < VisibleRows(g) ensures !Hits(RowPlan(FromLayout(g), |pixels|, |src|, r), i) {
      SafeRow(g, |src|, r);
      FromRowIs(g, |src|, r);
    }
    RowsUntouched(pixels, src, FromLayout(g), VisibleRows(g), i);
  }

  /** An unsafe row panics, or copies into a pixel outside the rectangle. */
  lemma UnsafeBreaks(pixels: seq<byte>, src: seq<byte>, g: Blit, r: nat)
    requires OnScreen(g) && |pixels| == Size(g) && |src| < LIMIT && r < VisibleRows(g) && !RowSafe(g, |src|, r)
    requires (forall i :: 0 <= i < |pixels| ==> pixels[i] == 0) && (forall i :: 0 <= i < |src| ==> src[i] == 1)
    ensures !KeepsOutside(pixels, src, g)
  {
    hide RowSafe, CopyRows, RowPlan, FromLayout, FromRow, Size, ByteOf, FromRowPanics;
    UnsafeRow(g, |src|, r);
    BlitFromPanicsIff(pixels, src, g);
    if !FromRowPanics(g, |src|, r) {
      FromRowIs(g, |src|, r);
      CopyShows(pixels, src, FromLayout(g), VisibleRows(g), r);
      var px, py := OutsidePixel(g, r);
      assert ByteOf(g.width, px, py, 0) == FromRow(g, |src|, r).dst;
    }
  }

  lemma UnsafeRow(g: Blit, len: nat, r: nat)
    requires OnScreen(g) && len < LIMIT && r < VisibleRows(g) && !RowSafe(g, len, r)
    ensures FromRowPanics(g, len, r) || (FromRow(g, len, r).Copy? && FromRow(g, len, r).n > 0
              && FromRow(g, len, r).dst == Start(g, r) < Size(g) && g.width < g.x)
  {
    hide RowAt, Start, Size;
    StartIs(g, r);
  }

  // Past the right border a row starts at a pixel of a later row, left of the rectangle.
  lemma OutsidePixel(g: Blit, r: nat) returns (px: nat, py: nat)
    requires OnScreen(g) && g.width < g.x && Start(g, r) < Size(g)
    ensures px < g.width && py < g.height && ByteOf(g.width, px, py, 0) == Start(g, r) && !InRectangle(g, px, py)
  {
    var p := (g.y + r) * g.width + g.x;
    PixelOf(g.width, g.height, p);
    px, py := p % g.width, p / g.width;
  }

  lemma PixelOf(width: nat, height: nat, p: nat)
    requires p * 4 < width * height * 4
    ensures width > 0 && p % width < width && p / width < height && (p / width) * width + p % width == p
  {
    assert width > 0;
    if height <= p / width { RowsUpTo(width, height, p / width); }
  }

  lemma {:induction false} RowsUpTo(width: nat, a: nat, b: nat)
    requires a <= b
    ensures a * width <= b * width
  {
    if a < b { RowGap(width, a, b); }
  }

  // ---- The same for the copy out ----

  /** The blit comes through and changes no byte of the buffer outside the slots of visible rows. */
  ghost predicate KeepsBuffer(pixels: seq<byte>, dst: seq<byte>, g: Blit) {
    var (after, ok) := BlittedTo(pixels, dst, g);
    ok && forall j: nat :: j < |dst| && !(g.x <= g.width && InSomeSlot(g, j)) ==> after[j] == dst[j]
  }

  ghost predicate InSomeSlot(g: Blit, j: nat) {
    exists r: nat :: r < VisibleRows(g) && InSlot(g, r, j)
  }

  ghost predicate ToClamps(g: Blit, len: nat) {
    forall pixels: seq<byte>, dst: seq<byte> :: |pixels| == Size(g) && |dst| == len ==> KeepsBuffer(pixels, dst, g)
  }

  /** As `RowSafe`, with the buffer as the destination: it must also reach the start of a row with bytes to copy. */
  ghost predicate ToRowSafe(g: Blit, len: nat, r: nat) {
    if Size(g) < Start(g, r) then RowAt(g.stride, r) == len && len < Start(g, r) - Size(g)
    else (
      || Wide(g) == 0 || Start(g, r) == Size(g) || RowAt(g.stride, r) == len
      || (g.x <= g.width && RowAt(g.stride, r) < len))
  }

  lemma ToClampsIff(g: Blit, len: nat)
    requires OnScreen(g) && len < LIMIT
    ensures ToClamps(g, len) <==> forall r: nat :: r < VisibleRows(g) ==> ToRowSafe(g, len, r)
  {
    hide BlittedTo, KeepsBuffer, ToRowSafe, Size;
    if forall r: nat :: r < VisibleRows(g) ==> ToRowSafe(g, len, r) {
      forall pixels: seq<byte>, dst: seq<byte> | |pixels| == Size(g) && |dst| == len
        ensures KeepsBuffer(pixels, dst, g)
      {
        ToSafeKeeps(pixels, dst, g);
      }
    } else {
      var r: nat :| r < VisibleRows(g) && !ToRowSafe(g, len, r);
      var pixels: seq<byte> := seq(Size(g), _ => 1);
      var dst: seq<byte> := seq(len, _ => 0);
      ToUnsafeBreaks(pixels, dst, g, r);
    }
  }

  lemma ToSafeKeeps(pixels: seq<byte>, dst: seq<byte>, g: Blit)
    requires OnScreen(g) && |pixels| == Size(g) && |dst| < LIMIT
    requires forall r: nat :: r < VisibleRows(g) ==> ToRowSafe(g, |dst|, r)
    ensures KeepsBuffer(pixels, dst, g)
  {
    hide ToRowSafe, ToRowPanics, Size, BlittedTo, InSlot;
    BlitToPanicsIff(pixels, dst, g);
    forall r: nat | r < VisibleRows(g) ensures !ToRowPanics(g, |dst|, r) { ToSafeRow(g, |dst|, r); }
    forall j: nat | j < |dst| && !(g.x <= g.width && InSomeSlot(g, j))
      ensures |BlittedTo(pixels, dst, g).0| == |dst| && BlittedTo(pixels, dst, g).0[j] == dst[j]
    {
      if g.x <= g.width {
        BlitToReads(pixels, dst, g, 0, j);
      } else {
        ToNothingCopied(pixels, dst, g, j);
      }
    }
  }

  lemma ToSafeRow(g: Blit, len: nat, r: nat)
    requires OnScreen(g) && len < LIMIT && r < VisibleRows(g) && ToRowSafe(g, len, r)
    ensures !ToRowPanics(g, len, r)
    ensures g.width < g.x ==> ToRow(g, len, r) == Skip
  {
    hide RowAt, Start, Size;
    StartIs(g, r);
  }

  lemma ToNothingCopied(pixels: seq<byte>, dst: seq<byte>, g: Blit, j: nat)
    requires OnScreen(g) && |pixels| == Size(g) && |dst| < LIMIT && g.width < g.x && j < |dst|
    requires forall r: nat :: r < VisibleRows(g) ==> ToRowSafe(g, |dst|, r)
    ensures |BlittedTo(pixels, dst, g).0| == |dst| && BlittedTo(pixels, dst, g).0[j] == dst[j]
  {
    hide ToRowSafe, CopyRows, RowPlan, ToLayout, ToRow, Size;
    forall r: nat | r < VisibleRows(g) ensures !Hits(RowPlan(ToLayout(g), |dst|, |pixels|, r), j) {
      ToSafeRow(g, |dst|, r);
      ToRowIs(g, |dst|, r);
    }
    RowsUntouched(dst, pixels, ToLayout(g), VisibleRows(g), j);
  }

  lemma ToUnsafeBreaks(pixels: seq<byte>, dst: seq<byte>, g: Blit, r: nat)
    requires OnScreen(g) && |pixels| == Size(g) && |dst| < LIMIT && r < VisibleRows(g) && !ToRowSafe(g, |dst|, r)
    requires (forall i :: 0 <= i < |dst| ==> dst[i] == 0) && (forall i :: 0 <= i < |pixels| ==> pixels[i] == 1)
    ensures !KeepsBuffer(pixels, dst, g)
  {
    hide ToRowSafe, CopyRows, RowPlan, ToLayout, ToRow, Size, ToRowPanics, InSomeSlot;
    ToUnsafeRow(g, |dst|, r);
    BlitToPanicsIff(pixels, dst, g);
    if !ToRowPanics(g, |dst|, r) {
      ToRowIs(g, |dst|, r);
      CopyShows(dst, pixels, ToLayout(g), VisibleRows(g), r);
    }
  }

  lemma ToUnsafeRow(g: Blit, len: nat, r: nat)
    requires OnScreen(g) && len < LIMIT && r < VisibleRows(g) && !ToRowSafe(g, len, r)
    ensures ToRowPanics(g, len, r)
      || (ToRow(g, len, r).Copy? && ToRow(g, len, r).n > 0 && ToRow(g, len, r).dst < len && g.width < g.x)
  {
    hide RowAt, Start, Size;
    StartIs(g, r);
  }
}
