/** The packed two-pixel copy of the 4XM decoder and the addressing of a frame. */
module Pixels {
  import opened Sums

  // Addressing

  /** First index of row y in a frame of the given width. */
  function RowStart(y: nat, width: nat): nat {
    if y == 0 then 0 else RowStart(y - 1, width) + width
  }

  function At(x: nat, y: nat, width: nat): nat {
    RowStart(y, width) + x
  }

  lemma {:induction false} RowStartMul(y: nat, width: nat)
    ensures RowStart(y, width) == y * width == width * y
  {
    if y > 0 {
      RowStartMul(y - 1, width);
      assert y * width == (y - 1) * width + width;
    }
  }

  lemma {:induction false} RowStartAdd(y: nat, n: nat, width: nat)
    ensures RowStart(y + n, width) == RowStart(y, width) + RowStart(n, width)
  {
    if n > 0 {
      RowStartAdd(y, n - 1, width);
    }
  }

  lemma {:induction false} RowStartMono(m: nat, n: nat, width: nat)
    requires m <= n
    ensures RowStart(m, width) <= RowStart(n, width)
  {
    if m < n {
      RowStartMono(m, n - 1, width);
    }
  }

  lemma {:induction false} RowsApart(y1: nat, y2: nat, width: nat)
    requires y1 < y2
    ensures RowStart(y1, width) + width <= RowStart(y2, width)
  {
    if y1 + 1 < y2 {
      RowsApart(y1, y2 - 1, width);
    }
  }

  /** A pixel position inside the frame has its own index. */
  lemma {:induction false} AtInjective(x1: nat, y1: nat, x2: nat, y2: nat, width: nat)
    requires x1 < width && x2 < width && At(x1, y1, width) == At(x2, y2, width)
    ensures x1 == x2 && y1 == y2
  {
    if y1 < y2 {
      RowsApart(y1, y2, width);
    } else if y2 < y1 {
      RowsApart(y2, y1, width);
    }
  }

  lemma {:induction false} AtInFrame(x: nat, y: nat, width: nat, height: nat)
    requires x < width && y < height
    ensures At(x, y, width) < RowStart(height, width)
  {
    RowsApart(y, height, width);
  }

  // Two pixels at once

  const LANE: nat := 65536
  const WORD: nat := 4294967296

  /** What one 32-bit multiply-add makes of two neighbouring pixels. */
  function Packed(lo: nat, hi: nat, scale: nat, dc: nat): (t: nat)
    ensures t < WORD
  {
    ((lo + LANE * hi) * scale + dc * 0x10001) % WORD
  }

  /** The update of a pixel on its own. */
  function Update(v: nat, scale: nat, dc: nat): (r: nat)
    ensures r < LANE
  {
    (v * scale + dc) % LANE
  }

  /** What spills from the low pixel into the high one. */
  function Carry(lo: nat, scale: nat, dc: nat): nat {
    (lo * scale + dc) / LANE
  }

  lemma {:induction false} SplitWord(low: nat, high: nat)
    requires low < 2 * LANE && high < 2 * LANE
    ensures (low + LANE * high) % WORD % LANE == low % LANE
    ensures (low + LANE * high) % WORD / LANE == (high + low / LANE) % LANE
  {
    var c := low / LANE;
    var l := low % LANE;
    var e := (high + c) / LANE;
    var m := (high + c) % LANE;
    assert low + LANE * high == l + LANE * m + WORD * e;
    assert l + LANE * m < WORD;
    assert (low + LANE * high) % WORD == l + LANE * m;
  }

  /** The low lane is the separate update; the high lane is off by exactly the carry. */
  lemma {:induction false} PackedLanes(lo: nat, hi: nat, scale: nat, dc: nat)
    requires lo < LANE && hi < LANE && scale <= 1 && dc < LANE
    ensures Packed(lo, hi, scale, dc) % LANE == Update(lo, scale, dc)
    ensures Packed(lo, hi, scale, dc) / LANE == (hi * scale + dc + Carry(lo, scale, dc)) % LANE
    ensures Carry(lo, scale, dc) <= 1
  {
    if scale == 0 {
      SplitWord(dc, dc);
      assert (lo + LANE * hi) * scale + dc * 0x10001 == dc + LANE * dc;
    } else {
      SplitWord(lo + dc, hi + dc);
      assert (lo + LANE * hi) * scale + dc * 0x10001 == (lo + dc) + LANE * (hi + dc);
    }
  }

  /** Packing changes nothing exactly when the low pixel does not overflow. */
  lemma {:induction false} PackedIsPerPixelIff(lo: nat, hi: nat, scale: nat, dc: nat)
    requires lo < LANE && hi < LANE && scale <= 1 && dc < LANE
    ensures Packed(lo, hi, scale, dc) == Update(lo, scale, dc) + LANE * Update(hi, scale, dc)
       <==> lo * scale + dc < LANE
    ensures dc == 0 || scale == 0 ==> lo * scale + dc < LANE
  {
    PackedLanes(lo, hi, scale, dc);
    assert lo * scale == if scale == 1 then lo else 0;
    assert hi * scale == if scale == 1 then hi else 0;
  }

  /** A full low pixel carries into the high one. */
  lemma {:induction false} CarryHappens()
    ensures Packed(65535, 0, 1, 1) == LANE * 2 && Update(65535, 1, 1) == 0 && Update(0, 1, 1) == 1
  {
  }

  /** Column k of a row of w pixels read at s: single pixels stand alone, others go in pairs. */
  function Lane(src: seq<nat>, s: nat, k: nat, w: nat, scale: nat, dc: nat): nat
    requires k < w && (w == 1 || w % 2 == 0) && s + w <= |src|
  {
    if w == 1 then (scale * src[s] + dc * 0x10001) % LANE
    else if k % 2 == 0 then Packed(src[s + k], src[s + k + 1], scale, dc) % LANE
    else Packed(src[s + k - 1], src[s + k], scale, dc) / LANE
  }

  /** Every column gets its own update, plus the carry out of its left partner. */
  lemma {:induction false} LaneMeaning(src: seq<nat>, s: nat, k: nat, w: nat, scale: nat, dc: nat)
    requires k < w && (w == 1 || w % 2 == 0) && s + w <= |src|
    requires scale <= 1 && dc < LANE && forall i :: 0 <= i < |src| ==> src[i] < LANE
    ensures k % 2 == 0 ==> Lane(src, s, k, w, scale, dc) == Update(src[s + k], scale, dc)
    ensures k % 2 == 1 ==>
              Lane(src, s, k, w, scale, dc) == (src[s + k] * scale + dc + Carry(src[s + k - 1], scale, dc)) % LANE
    ensures dc == 0 || scale == 0 ==> Lane(src, s, k, w, scale, dc) == Update(src[s + k], scale, dc)
  {
    hide Packed, Carry;
    if w == 1 {
      SingleUpdate(src[s], scale, dc);
    } else if k % 2 == 0 {
      PackedLanes(src[s + k], src[s + k + 1], scale, dc);
    } else {
      PackedLanes(src[s + k - 1], src[s + k], scale, dc);
      NoCarry(src[s + k - 1], scale, dc);
    }
  }

  lemma {:induction false} SingleUpdate(v: nat, scale: nat, dc: nat)
    ensures (scale * v + dc * 0x10001) % LANE == Update(v, scale, dc)
  {
    assert scale * v + dc * 0x10001 == (v * scale + dc) + dc * LANE;
  }

  lemma {:induction false} NoCarry(v: nat, scale: nat, dc: nat)
    requires v < LANE && scale <= 1 && dc < LANE
    ensures dc == 0 || scale == 0 ==> Carry(v, scale, dc) == 0
  {
    assert v * scale == if scale == 1 then v else 0;
  }

  method StorePair(dst: array<nat>, d: nat, src: array<nat>, s: nat, scale: nat, dc: nat)
    requires dst != src && d + 2 <= dst.Length && s + 2 <= src.Length
    modifies dst
    ensures dst[d] == Packed(src[s], src[s + 1], scale, dc) % LANE
    ensures dst[d + 1] == Packed(src[s], src[s + 1], scale, dc) / LANE
    ensures forall i :: 0 <= i < dst.Length && i != d && i != d + 1 ==> dst[i] == old(dst[i])
  {
    var tmp := Packed(src[s], src[s + 1], scale, dc);
    dst[d] := tmp % LANE;
    dst[d + 1] := tmp / LANE;
  }

  /** One row of mcdc. */
  method CopyRow(dst: array<nat>, d: nat, src: array<nat>, s: nat, log2w: nat, scale: nat, dc: nat)
    requires dst != src && log2w <= 3
    requires d + Pow2(log2w) <= dst.Length && s + Pow2(log2w) <= src.Length
    modifies dst
    ensures forall k :: 0 <= k < Pow2(log2w) ==> dst[d + k] == Lane(src[..], s, k, Pow2(log2w), scale, dc)
    ensures forall i :: 0 <= i < dst.Length && !(d <= i < d + Pow2(log2w)) ==> dst[i] == old(dst[i])
  {
    assert Pow2(0) == 1 && Pow2(1) == 2 && Pow2(2) == 4 && Pow2(3) == 8;
    match log2w {
      case 0 =>
        dst[d] := (scale * src[s] + dc * 0x10001) % LANE;
      case 1 =>
        StorePair(dst, d, src, s, scale, dc);
      case 2 =>
        StorePair(dst, d, src, s, scale, dc);
        StorePair(dst, d + 2, src, s + 2, scale, dc);
      case _ =>
        StorePair(dst, d, src, s, scale, dc);
        StorePair(dst, d + 2, src, s + 2, scale, dc);
        StorePair(dst, d + 4, src, s + 4, scale, dc);
        StorePair(dst, d + 6, src, s + 6, scale, dc);
    }
  }

  /** Where row r of the source starts: a fill (scale 0) stays on its first row. */
  function SourceRow(s: nat, r: nat, width: nat, scale: nat): nat {
    s + if scale == 0 then 0 else RowStart(r, width)
  }

  /** Position (px, py) lies in the 2^lw by 2^lh rectangle at (x, y). */
  predicate Inside(px: int, py: int, x: int, y: int, lw: nat, lh: nat) {
    x <= px < x + Pow2(lw) && y <= py < y + Pow2(lh)
  }

  /** The source window of a block lies in the frame. */
  predicate WindowFits(s: int, width: nat, height: nat, lw: nat, lh: nat)
  {
    Pow2(lh) <= height && 0 <= s && s + Pow2(lw) <= RowStart(height - Pow2(lh) + 1, width)
  }

  lemma {:induction false} WindowRow(s: nat, width: nat, height: nat, lw: nat, lh: nat, r: nat, scale: nat)
    requires WindowFits(s, width, height, lw, lh) && r < Pow2(lh)
    ensures SourceRow(s, r, width, scale) + Pow2(lw) <= RowStart(height, width)
  {
    hide Pow2;
    var a := height - Pow2(lh) + 1;
    RowStartAdd(a, r, width);
    RowStartMono(a + r, height, width);
    RowStartMono(a, height, width);
  }

  /** What mcdc stores at (px, py) of the block at (x, y). */
  function Moved(src: seq<nat>, s: nat, width: nat, height: nat, lw: nat, lh: nat, scale: nat, dc: nat,
                 x: nat, y: nat, px: nat, py: nat): nat
    requires lw <= 3 && WindowFits(s, width, height, lw, lh) && |src| == RowStart(height, width)
    requires Inside(px, py, x, y, lw, lh)
  {
    WindowRow(s, width, height, lw, lh, py - y, scale);
    assert Pow2(0) == 1 && Pow2(1) == 2 && Pow2(2) == 4 && Pow2(3) == 8;
    Lane(src, SourceRow(s, py - y, width, scale), px - x, Pow2(lw), scale, dc)
  }

  lemma {:induction false} MovedIsLane(src: seq<nat>, s: nat, width: nat, height: nat, lw: nat, lh: nat, scale: nat, dc: nat,
                    x: nat, y: nat, px: nat, py: nat)
    requires lw <= 3 && WindowFits(s, width, height, lw, lh) && |src| == RowStart(height, width)
    requires Inside(px, py, x, y, lw, lh)
    ensures SourceRow(s, py - y, width, scale) + Pow2(lw) <= |src| && (Pow2(lw) == 1 || Pow2(lw) % 2 == 0)
    ensures Moved(src, s, width, height, lw, lh, scale, dc, x, y, px, py)
         == Lane(src, SourceRow(s, py - y, width, scale), px - x, Pow2(lw), scale, dc)
  {
    WindowRow(s, width, height, lw, lh, py - y, scale);
    assert Pow2(0) == 1 && Pow2(1) == 2 && Pow2(2) == 4 && Pow2(3) == 8;
  }

  /** A fill stores dc everywhere; a copy stores the pixel as far from the source corner as this one is
      from the block corner, plus dc, plus the carry out of the left pixel of the pair. */
  lemma {:induction false} MovedMeaning(src: seq<nat>, s: nat, width: nat, height: nat, lw: nat, lh: nat, scale: nat, dc: nat,
                     x: nat, y: nat, px: nat, py: nat)
    requires lw <= 3 && WindowFits(s, width, height, lw, lh) && |src| == RowStart(height, width)
    requires Inside(px, py, x, y, lw, lh) && scale <= 1 && dc < LANE && forall i :: 0 <= i < |src| ==> src[i] < LANE
    ensures scale == 0 ==> Moved(src, s, width, height, lw, lh, scale, dc, x, y, px, py) == dc
    ensures scale == 1 ==>
              var q := s + (py - y) * width + (px - x);
              && 0 <= q < |src| && (px > x ==> q >= 1)
              && Moved(src, s, width, height, lw, lh, scale, dc, x, y, px, py)
                 == (src[q] + dc + if (px - x) % 2 == 1 && src[q - 1] + dc >= LANE then 1 else 0) % LANE
  {
    hide Lane, WindowFits;
    MovedIsLane(src, s, width, height, lw, lh, scale, dc, x, y, px, py);
    RowStartMul(py - y, width);
    LaneMeaning(src, SourceRow(s, py - y, width, scale), px - x, Pow2(lw), scale, dc);
  }

  /** after is before with the first n rows of the block at (x, y) filled in. */
  ghost predicate Filled(before: seq<nat>, after: seq<nat>, src: seq<nat>, s: nat, width: nat, height: nat,
                         lw: nat, lh: nat, scale: nat, dc: nat, x: nat, y: nat, n: nat)
    requires |before| == |after| == |src| == RowStart(height, width)
    requires lw <= 3 && WindowFits(s, width, height, lw, lh)
  {
    forall px: nat, py: nat :: px < width && py < height ==>
      (AtInFrame(px, py, width, height);
       after[At(px, py, width)] ==
         if Inside(px, py, x, y, lw, lh) && py < y + n
         then Moved(src, s, width, height, lw, lh, scale, dc, x, y, px, py)
         else before[At(px, py, width)])
  }

  lemma {:induction false} FilledStep(before: seq<nat>, mid: seq<nat>, after: seq<nat>, src: seq<nat>, s: nat, width: nat, height: nat,
                   lw: nat, lh: nat, scale: nat, dc: nat, x: nat, y: nat, n: nat, d: nat)
    requires |before| == |mid| == |after| == |src| == RowStart(height, width)
    requires lw <= 3 && WindowFits(s, width, height, lw, lh) && n < Pow2(lh)
    requires x + Pow2(lw) <= width && y + Pow2(lh) <= height && d == At(x, y + n, width)
    requires Filled(before, mid, src, s, width, height, lw, lh, scale, dc, x, y, n)
    requires d + Pow2(lw) <= |after| && SourceRow(s, n, width, scale) + Pow2(lw) <= |src|
    requires Pow2(lw) == 1 || Pow2(lw) % 2 == 0
    requires forall k :: 0 <= k < Pow2(lw) ==>
               after[d + k] == Lane(src, SourceRow(s, n, width, scale), k, Pow2(lw), scale, dc)
    requires forall i :: 0 <= i < |after| && !(d <= i < d + Pow2(lw)) ==> after[i] == mid[i]
    ensures Filled(before, after, src, s, width, height, lw, lh, scale, dc, x, y, n + 1)
  {
    hide Moved, Lane, WindowFits, Pow2;
    forall px: nat, py: nat | px < width && py < height
      ensures At(px, py, width) < |after|
      ensures after[At(px, py, width)] ==
              if Inside(px, py, x, y, lw, lh) && py < y + n + 1
              then Moved(src, s, width, height, lw, lh, scale, dc, x, y, px, py)
              else before[At(px, py, width)]
    {
      AtInFrame(px, py, width, height);
      if py < y + n {
        RowsApart(py, y + n, width);
      } else if py > y + n {
        RowsApart(y + n, py, width);
      } else if x <= px < x + Pow2(lw) {
        assert At(px, py, width) == d + (px - x);
        MovedIsLane(src, s, width, height, lw, lh, scale, dc, x, y, px, py);
      }
    }
  }

  /** Motion-compensated copy of a 2^log2w by 2^log2h block. */
  method McDc(dst: array<nat>, d: nat, src: array<nat>, s: nat, log2w: nat, log2h: nat, stride: nat,
              scale: nat, dc: nat, ghost height: nat, ghost x: nat, ghost y: nat)
    requires dst != src && log2w <= 3 && log2h <= 3
    requires dst.Length == src.Length == RowStart(height, stride)
    requires x + Pow2(log2w) <= stride && y + Pow2(log2h) <= height && d == At(x, y, stride)
    requires WindowFits(s, stride, height, log2w, log2h)
    modifies dst
    ensures Filled(old(dst[..]), dst[..], src[..], s, stride, height, log2w, log2h, scale, dc, x, y, Pow2(log2h))
  {
    var h := Pow2(log2h);
    var i, dd, ss := 0, d, s;
    ghost var now := dst[..];
    while i < h
      invariant 0 <= i <= h && dd == At(x, y + i, stride) && ss == SourceRow(s, i, stride, scale)
      invariant now == dst[..]
      invariant Filled(old(dst[..]), now, src[..], s, stride, height, log2w, log2h, scale, dc, x, y, i)
    {
      hide Filled, Moved, Lane;
      RowsApart(y + i, height, stride);
      WindowRow(s, stride, height, log2w, log2h, i, scale);
      CopyRow(dst, dd, src, ss, log2w, scale, dc);
      PowersOfTwo(log2w);
      FilledStep(old(dst[..]), now, dst[..], src[..], s, stride, height, log2w, log2h, scale, dc, x, y, i, dd);
      now := dst[..];
      if scale != 0 {
        ss := ss + stride;
      }
      dd := dd + stride;
      i := i + 1;
    }
  }

  lemma {:induction false} PowersOfTwo(n: nat)
    ensures Pow2(n) == 1 || Pow2(n) % 2 == 0
  {
  }
}
