// RGBA framebuffer with clipped row copies in both directions (crates/graphics).
// Sizes are 64-bit and wrap, as in the release profile; a slice that runs
// backwards or past its buffer panics.
module Graphics {
  import opened Bytes

  function Min(a: nat, b: nat): nat {
    if a < b then a else b
  }

  /** What one row of a blit does. */
  datatype RowCopy = Skip | Copy(dst: nat, src: nat, n: nat) | Panic

  /** The row arithmetic of both blits: `bytes` clipped to what is left of the source, then of the destination. */
  function PlanRow(srcStart: nat, srcLen: nat, dstStart: nat, dstLen: nat, bytes: nat): RowCopy {
    var available := Sub64(Min(Add64(srcStart, bytes), srcLen), srcStart);
    if available == 0 then Skip else
    var n := Sub64(Min(Add64(dstStart, available), dstLen), dstStart);
    if n == 0 then Skip
    else if dstStart <= Add64(dstStart, n) <= dstLen && srcStart <= Add64(srcStart, n) <= srcLen
    then Copy(dstStart, srcStart, n)
    else Panic
  }

  /** Where the rows of a blit start and how far apart they are. */
  datatype Layout = Layout(dst: nat, dstStep: nat, src: nat, srcStep: nat, bytes: nat)

  function RowPlan(l: Layout, dstLen: nat, srcLen: nat, row: nat): RowCopy {
    PlanRow(Add64(l.src, row * l.srcStep), srcLen, Add64(l.dst, row * l.dstStep), dstLen, l.bytes)
  }

  /** The destination after the first `rows` rows, and whether none of them panicked. */
  function CopyRows(dst: seq<byte>, src: seq<byte>, l: Layout, rows: nat): (r: (seq<byte>, bool))
    ensures |r.0| == |dst|
    decreases rows
  {
    if rows == 0 then (dst, true) else
    var (before, ok) := CopyRows(dst, src, l, rows - 1);
    if !ok then (before, false) else
    match RowPlan(l, |dst|, |src|, rows - 1)
    case Skip => (before, true)
    case Panic => (before, false)
    case Copy(d, s, n) =>
      PlanFits(l, |dst|, |src|, rows - 1);
      (Store(before, d, src[s..s + n]), true)
  }

  lemma PlanFits(l: Layout, dstLen: nat, srcLen: nat, row: nat)
    ensures var p := RowPlan(l, dstLen, srcLen, row); p.Copy? ==> p.dst + p.n <= dstLen && p.src + p.n <= srcLen
  {
    var s, d := Add64(l.src, row * l.srcStep), Add64(l.dst, row * l.dstStep);
    PlanRowFits(s, srcLen, d, dstLen, l.bytes);
  }

  lemma PlanRowFits(srcStart: nat, srcLen: nat, dstStart: nat, dstLen: nat, bytes: nat)
    requires srcStart < U64 && dstStart < U64
    ensures var p := PlanRow(srcStart, srcLen, dstStart, dstLen, bytes);
      p.Copy? ==> p.dst + p.n <= dstLen && p.src + p.n <= srcLen
  {
    hide Add64;
    var p := PlanRow(srcStart, srcLen, dstStart, dstLen, bytes);
    if p.Copy? {
      NoWrap(srcStart, p.n);
      NoWrap(dstStart, p.n);
    }
  }

  // A sum that did not come out smaller did not wrap.
  lemma NoWrap(a: nat, n: nat)
    requires a <= Add64(a, n) && n < U64
    ensures Add64(a, n) == a + n
  {
  }

  /** One blit call: the size of the framebuffer, the stride of the other buffer, and the rectangle. */
  datatype Blit = Blit(width: nat, height: nat, stride: nat, x: nat, y: nat, w: nat, h: nat)

  /** The number of rows of the rectangle that lie on the framebuffer. */
  function VisibleRows(g: Blit): nat {
    if g.y < g.height then Min(g.h, g.height - g.y) else 0
  }

  /** Bytes per framebuffer row. */
  function Stride(width: nat): nat {
    width * 4 % U32
  }

  function RowBytes(width: nat, x: nat, w: nat): nat {
    Min(w, Sub64(width, x)) * 4
  }

  /** Where row `r` of a buffer starts. */
  function RowAt(stride: nat, r: nat): nat {
    r * stride
  }

  /** Where the rectangle starts in framebuffer row `sy`. */
  function ScreenAt(stride: nat, sy: nat, x: nat): nat {
    Add64(sy * stride, x * 4)
  }

  function FromLayout(g: Blit): Layout {
    Layout(g.y * Stride(g.width) + g.x * 4, Stride(g.width), 0, g.stride, RowBytes(g.width, g.x, g.w))
  }

  function ToLayout(g: Blit): Layout {
    Layout(0, g.stride, g.y * Stride(g.width) + g.x * 4, Stride(g.width), RowBytes(g.width, g.x, g.w))
  }

  /** The framebuffer after a blit from `src`, and whether it came through without a panic. */
  function BlittedFrom(pixels: seq<byte>, src: seq<byte>, g: Blit): (seq<byte>, bool) {
    CopyRows(pixels, src, FromLayout(g), VisibleRows(g))
  }

  /** The buffer `dst` after a blit to it, and whether it came through without a panic. */
  function BlittedTo(pixels: seq<byte>, dst: seq<byte>, g: Blit): (seq<byte>, bool) {
    CopyRows(dst, pixels, ToLayout(g), VisibleRows(g))
  }

  class Framebuffer {
    const width: nat
    const height: nat
    const pixels: array<byte>

    ghost predicate Valid()
      reads this
    {
      width < U32 && height < U32 && pixels.Length == width * height * 4 && pixels.Length < U64 / 2
    }

    constructor (width: nat, height: nat)
      requires width < U32 && height < U32 && width * height * 4 < U64 / 2
      ensures Valid() && fresh(pixels)
      ensures this.width == width && this.height == height
      ensures forall i :: 0 <= i < pixels.Length ==> pixels[i] == 0
    {
      this.width, this.height := width, height;
      pixels := new byte[width * height * 4](_ => 0);
    }

    method BlitFrom(src: seq<byte>, srcStride: nat, x: nat, y: nat, w: nat, h: nat) returns (ok: bool)
      requires Valid() && |src| < U64 && srcStride < U32 && x < U32 && y < U32 && w < U32 && h < U32
      modifies pixels
      ensures (pixels[..], ok) == BlittedFrom(old(pixels[..]), src, Blit(width, height, srcStride, x, y, w, h))
    {
      hide CopyRows, RowPlan, PlanRow, Valid, RowAt, ScreenAt, RowBytes, FromLayout, Stride;
      var dstStride := Stride(width);
      ghost var g := Blit(width, height, srcStride, x, y, w, h);
      ghost var start := pixels[..];
      var row := 0;
      NoRows(start, src, FromLayout(g));
      while row < h
        invariant row == 0 || row <= VisibleRows(g)
        invariant CopyRows(start, src, FromLayout(g), row) == (pixels[..], true)
      {
        var sy := y + row;
        if sy >= height {
          break;
        }
        FromStarts(g, row, |start|, |src|);
        var copyBytes := RowBytes(width, x, w);
        var dstStart, srcStart := ScreenAt(dstStride, sy, x), RowAt(srcStride, row);
        ok := CopyRow(pixels, dstStart, src, srcStart, copyBytes, FromLayout(g), row, start);
        if !ok {
          StopsAt(start, src, FromLayout(g), row + 1, VisibleRows(g));
          return;
        }
        row := row + 1;
      }
      return true;
    }

    method BlitTo(dst: array<byte>, dstStride: nat, x: nat, y: nat, w: nat, h: nat) returns (ok: bool)
      requires Valid() && dst.Length < U64 && dst != pixels
      requires dstStride < U32 && x < U32 && y < U32 && w < U32 && h < U32
      modifies dst
      ensures (dst[..], ok) == BlittedTo(pixels[..], old(dst[..]), Blit(width, height, dstStride, x, y, w, h))
    {
      hide CopyRows, RowPlan, PlanRow, Valid, RowAt, ScreenAt, RowBytes, ToLayout, Stride;
      var srcStride := Stride(width);
      ghost var g := Blit(width, height, dstStride, x, y, w, h);
      ghost var start, screen := dst[..], pixels[..];
      var row := 0;
      NoRows(start, screen, ToLayout(g));
      while row < h
        invariant pixels[..] == screen
        invariant row == 0 || row <= VisibleRows(g)
        invariant CopyRows(start, screen, ToLayout(g), row) == (dst[..], true)
      {
        var sy := y + row;
        if sy >= height {
          break;
        }
        ToStarts(g, row, |start|, |screen|);
        var copyBytes := RowBytes(width, x, w);
        var srcStart, dstStart := ScreenAt(srcStride, sy, x), RowAt(dstStride, row);
        ok := CopyRow(dst, dstStart, pixels[..], srcStart, copyBytes, ToLayout(g), row, start);
        if !ok {
          StopsAt(start, screen, ToLayout(g), row + 1, VisibleRows(g));
          return;
        }
        row := row + 1;
      }
      return true;
    }
  }

  /** The starts that the loop of `blit_from` computes are those of its layout. */
  lemma FromStarts(g: Blit, row: nat, dstLen: nat, srcLen: nat)
    requires row < U32 && g.stride < U32
    ensures ScreenAt(Stride(g.width), g.y + row, g.x) < U64 && RowAt(g.stride, row) < U64
    ensures var screen := ScreenAt(Stride(g.width), g.y + row, g.x);
      RowPlan(FromLayout(g), dstLen, srcLen, row)
        == PlanRow(RowAt(g.stride, row), srcLen, screen, dstLen, RowBytes(g.width, g.x, g.w))
  {
    hide Stride, RowBytes, PlanRow;
    SameStart(g.y, row, Stride(g.width), g.x);
    MulBound(row, g.stride);
  }

  lemma ToStarts(g: Blit, row: nat, dstLen: nat, srcLen: nat)
    requires row < U32 && g.stride < U32
    ensures ScreenAt(Stride(g.width), g.y + row, g.x) < U64 && RowAt(g.stride, row) < U64
    ensures var screen := ScreenAt(Stride(g.width), g.y + row, g.x);
      RowPlan(ToLayout(g), dstLen, srcLen, row)
        == PlanRow(screen, srcLen, RowAt(g.stride, row), dstLen, RowBytes(g.width, g.x, g.w))
  {
    hide Stride, RowBytes, PlanRow;
    SameStart(g.y, row, Stride(g.width), g.x);
    MulBound(row, g.stride);
  }

  lemma SameStart(y: nat, row: nat, step: nat, x: nat)
    ensures ScreenAt(step, y + row, x) == Add64(y * step + x * 4, row * step) < U64
  {
    assert (y + row) * step == y * step + row * step;
  }

  lemma MulBound(a: nat, b: nat)
    requires a < U32 && b < U32
    ensures a * b < U64
  {
    assert a * b + a * (U32 - b) == a * U32;
    assert a * (U32 - b) >= 0;
  }

  /** The body of both row loops; `false` is a panic, before anything of this row is copied. */
  method CopyRow(dst: array<byte>, dstStart: nat, src: seq<byte>, srcStart: nat, bytes: nat,
                 ghost l: Layout, ghost row: nat, ghost start: seq<byte>) returns (ok: bool)
    requires dstStart < U64 && srcStart < U64
    requires RowPlan(l, dst.Length, |src|, row) == PlanRow(srcStart, |src|, dstStart, dst.Length, bytes)
    requires CopyRows(start, src, l, row) == (dst[..], true)
    modifies dst
    ensures CopyRows(start, src, l, row + 1) == (dst[..], ok)
  {
    hide Store, Add64, Sub64, RowPlan;
    var available := Sub64(Min(Add64(srcStart, bytes), |src|), srcStart);
    if available == 0 {
      return true;
    }
    var n := Sub64(Min(Add64(dstStart, available), dst.Length), dstStart);
    if n == 0 {
      return true;
    }
    if !(dstStart <= Add64(dstStart, n) <= dst.Length && srcStart <= Add64(srcStart, n) <= |src|) {
      return false;
    }
    PlanFits(l, dst.Length, |src|, row);
    ghost var before := dst[..];
    forall i | 0 <= i < n {
      dst[dstStart + i] := src[srcStart + i];
    }
    StoredIs(before, dst[..], dstStart, src[srcStart..srcStart + n]);
    return true;
  }

  lemma NoRows(dst: seq<byte>, src: seq<byte>, l: Layout)
    ensures CopyRows(dst, src, l, 0) == (dst, true)
  {
  }

  lemma StoredIs(before: seq<byte>, after: seq<byte>, at: nat, data: seq<byte>)
    requires |before| == |after| && at + |data| <= |before|
    requires forall i :: 0 <= i < |data| ==> after[at + i] == data[i]
    requires forall i :: 0 <= i < |before| && !(at <= i < at + |data|) ==> after[i] == before[i]
    ensures after == Store(before, at, data)
  {
    forall i | 0 <= i < |after| ensures after[i] == Store(before, at, data)[i] {
      if at <= i < at + |data| { assert after[at + (i - at)] == data[i - at]; }
    }
  }

  // A panic is final: later rows do not run.
  lemma {:induction false} StopsAt(dst: seq<byte>, src: seq<byte>, l: Layout, row: nat, rows: nat)
    requires row <= rows && !CopyRows(dst, src, l, row).1
    ensures CopyRows(dst, src, l, rows) == CopyRows(dst, src, l, row)
    decreases rows
  {
    hide RowPlan;
    if row < rows { StopsAt(dst, src, l, row, rows - 1); }
  }
}
