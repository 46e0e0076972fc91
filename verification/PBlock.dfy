/** P-frame decoding: recursive block splitting, motion references, and the whole-frame loop. */
module PBlock {
  import opened Sums
  import opened BlockTypes
  import opened Pixels
  import opened Options

  /** Everything a P-frame is decoded from. Bit positions below nbits hold data; a few padding bits
      follow. bytes carries motion indices, words carries little-endian pixel values. */
  datatype Env = Env(version: nat, width: nat, height: nat, mv: seq<int>,
                     bits: seq<bool>, nbits: nat, bytes: seq<nat>, words: seq<nat>)

  datatype Cursor = Cursor(pos: nat, g: nat, g2: nat)

  ghost predicate ValidEnv(e: Env) {
    && e.width % 16 == 0 && e.height % 16 == 0
    && |e.mv| == 256 && e.nbits + 5 <= |e.bits|
    && (forall i :: 0 <= i < |e.bytes| ==> e.bytes[i] < 256)
    && (forall i :: 0 <= i < |e.words| ==> e.words[i] < 256)
  }

  /** Motion offsets per index, from the table of displacements or, in old versions, a 16x16 grid. */
  function MotionOffset(version: nat, displacement: (int, int), i: nat, linesize: nat): int {
    if version > 1 then displacement.0 + displacement.1 * linesize / 2
    else (i % 16) - 8 + ((i / 16) - 8) * linesize / 2
  }

  /** init_mv: with linesize twice the width, halving is exact. */
  method InitMv(version: nat, table: seq<(int, int)>, width: nat) returns (mv: seq<int>)
    requires |table| == 256
    ensures |mv| == 256
    ensures forall i :: 0 <= i < 256 ==>
              mv[i] == if version > 1 then table[i].0 + table[i].1 * width
                       else i % 16 - 8 + (i / 16 - 8) * width
  {
    mv := [];
    var i := 0;
    while i < 256
      invariant 0 <= i <= 256 && |mv| == i
      invariant forall k :: 0 <= k < i ==>
                  mv[k] == if version > 1 then table[k].0 + table[k].1 * width
                           else k % 16 - 8 + (k / 16 - 8) * width
    {
      HalfOfDouble(table[i].1, width);
      HalfOfDouble(i / 16 - 8, width);
      mv := mv + [MotionOffset(version, table[i], i, 2 * width)];
      i := i + 1;
    }
  }

  lemma {:induction false} HalfOfDouble(d: int, width: nat)
    ensures d * (2 * width) / 2 == d * width
  {
    assert d * (2 * width) == 2 * (d * width);
  }

  /** What one block turned out to be. Source offsets are absolute in the previous frame. */
  datatype Block =
    | Rows(top: Block, bottom: Block)
    | Cols(left: Block, right: Block)
    | Pair(p0: nat, p1: nat)
    | Keep
    | Copy(src: nat, scale: nat, dc: nat)

  function Le16(s: seq<nat>, i: nat): nat
    requires i + 2 <= |s|
  {
    s[i] + 256 * s[i + 1]
  }

  ghost predicate Fits(e: Env, x: nat, y: nat, lw: nat, lh: nat) {
    lw <= 3 && lh <= 3 && lw + lh >= 1 && x + Pow2(lw) <= e.width && y + Pow2(lh) <= e.height
  }

  /** Where a copy or fill of type 0, 3, 4 or 5 reads from: shifted source, scale and offset. */
  function ReadSource(e: Env, c: Cursor, code: nat, src: int): (r: Option<((int, nat, nat), Cursor)>)
    requires ValidEnv(e) && code < 6 && code != 1 && code != 2
    ensures r.Some? ==> r.value.0.1 <= 1 && r.value.0.2 < LANE
  {
    if code % 4 == 0 && c.g + 1 > |e.bytes| then None
    else if code == 0 then Some(((src + e.mv[e.bytes[c.g]], 1, 0), c.(g := c.g + 1)))
    else if code == 3 then Some(((src, 1, 0), c))
    else if c.g2 + 2 > |e.words| then None
    else if code == 4 then
      Some(((src + e.mv[e.bytes[c.g]], 1, Le16(e.words, c.g2)), c.(g := c.g + 1, g2 := c.g2 + 2)))
    else Some(((src, 0, Le16(e.words, c.g2)), c.(g2 := c.g2 + 2)))
  }

  /** A block that is not split, after its type code has been read. */
  function ParseLeaf(e: Env, c: Cursor, code: nat, x: nat, y: nat, lw: nat, lh: nat): (r: Option<(Block, Cursor)>)
    requires ValidEnv(e) && code < 7 && code != 1 && code != 2
  {
    if code == 6 then
      if c.g2 + 4 > |e.words| then None
      else Some((Pair(Le16(e.words, c.g2), Le16(e.words, c.g2 + 2)), c.(g2 := c.g2 + 4)))
    else if code == 3 && e.version >= 2 then Some((Keep, c))
    else
      match ReadSource(e, c, code, At(x, y, e.width))
      case None => None
      case Some(((s, scale, dc), c')) =>
        if WindowFits(s, e.width, e.height, lw, lh) then Some((Copy(s, scale, dc), c')) else None
  }

  /** The type code at the cursor and the cursor behind it. */
  function BlockCode(e: Env, c: Cursor, lw: nat, lh: nat): (r: (nat, Cursor))
    requires ValidEnv(e) && lw <= 3 && lh <= 3 && lw + lh >= 1 && c.pos < e.nbits
    ensures r.0 < 7
    ensures r.0 == 1 ==> lh >= 1 && lw + lh >= 2
    ensures r.0 == 2 ==> lw >= 1 && lw + lh >= 2
    ensures r.0 == 6 ==> lw + lh == 1
    ensures r.1 == c.(pos := r.1.pos) && c.pos < r.1.pos <= c.pos + 5
  {
    var (code, len) := Lookup(e.version, SizeIndex(lh, lw), e.bits, c.pos);
    OmittedTypes(e.version, lh, lw, Window(e.bits, c.pos), code);
    (code, c.(pos := c.pos + len))
  }

  /** The block at (x, y) as the streams spell it, or None where decoding fails. */
  function Parse(e: Env, c: Cursor, x: nat, y: nat, lw: nat, lh: nat): (r: Option<(Block, Cursor)>)
    requires ValidEnv(e) && Fits(e, x, y, lw, lh)
    decreases lw + lh
  {
    if c.pos >= e.nbits then None
    else
      var (code, c1) := BlockCode(e, c, lw, lh);
      if code == 1 then
        match Parse(e, c1, x, y, lw, lh - 1)
        case None => None
        case Some((top, c2)) =>
          match Parse(e, c2, x, y + Pow2(lh - 1), lw, lh - 1)
          case None => None
          case Some((bottom, c3)) => Some((Rows(top, bottom), c3))
      else if code == 2 then
        match Parse(e, c1, x, y, lw - 1, lh)
        case None => None
        case Some((left, c2)) =>
          match Parse(e, c2, x + Pow2(lw - 1), y, lw - 1, lh)
          case None => None
          case Some((right, c3)) => Some((Cols(left, right), c3))
      else ParseLeaf(e, c1, code, x, y, lw, lh)
  }

  /** Splits stay within the sides, two-pixel leaves are two pixels, sources lie in the frame. */
  ghost predicate WellFormed(b: Block, e: Env, lw: nat, lh: nat)
    decreases lw + lh
  {
    && lw <= 3 && lh <= 3 && lw + lh >= 1
    && match b
       case Rows(t, u) => lh >= 1 && lw + lh >= 2 && WellFormed(t, e, lw, lh - 1) && WellFormed(u, e, lw, lh - 1)
       case Cols(l, r) => lw >= 1 && lw + lh >= 2 && WellFormed(l, e, lw - 1, lh) && WellFormed(r, e, lw - 1, lh)
       case Pair(p0, p1) => lw + lh == 1 && p0 < LANE && p1 < LANE
       case Keep => true
       case Copy(s, scale, dc) => WindowFits(s, e.width, e.height, lw, lh) && scale <= 1 && dc < LANE
  }

  lemma {:induction false} LeafWellFormed(e: Env, c: Cursor, code: nat, x: nat, y: nat, lw: nat, lh: nat)
    requires ValidEnv(e) && code < 7 && code != 1 && code != 2
    requires lw <= 3 && lh <= 3 && lw + lh >= 1 && (code == 6 ==> lw + lh == 1)
    ensures ParseLeaf(e, c, code, x, y, lw, lh).Some? ==>
              WellFormed(ParseLeaf(e, c, code, x, y, lw, lh).value.0, e, lw, lh)
  {
  }

  lemma {:induction false} ParseWellFormed(e: Env, c: Cursor, x: nat, y: nat, lw: nat, lh: nat)
    requires ValidEnv(e) && Fits(e, x, y, lw, lh) && Parse(e, c, x, y, lw, lh).Some?
    ensures WellFormed(Parse(e, c, x, y, lw, lh).value.0, e, lw, lh)
    decreases lw + lh
  {
    hide BlockCode, ParseLeaf;
    var (code, c1) := BlockCode(e, c, lw, lh);
    if code == 1 {
      ParseWellFormed(e, c1, x, y, lw, lh - 1);
      var c2 := Parse(e, c1, x, y, lw, lh - 1).value.1;
      ParseWellFormed(e, c2, x, y + Pow2(lh - 1), lw, lh - 1);
    } else if code == 2 {
      ParseWellFormed(e, c1, x, y, lw - 1, lh);
      var c2 := Parse(e, c1, x, y, lw - 1, lh).value.1;
      ParseWellFormed(e, c2, x + Pow2(lw - 1), y, lw - 1, lh);
    } else {
      LeafWellFormed(e, c1, code, x, y, lw, lh);
    }
  }

  /** How many leaves of b, placed at (x, y), cover the position. */
  ghost function Hits(b: Block, x: int, y: int, lw: nat, lh: nat, px: int, py: int): nat
    decreases b
  {
    match b
    case Rows(t, u) =>
      if lh == 0 then 0
      else Hits(t, x, y, lw, lh - 1, px, py) + Hits(u, x, y + Pow2(lh - 1), lw, lh - 1, px, py)
    case Cols(l, r) =>
      if lw == 0 then 0
      else Hits(l, x, y, lw - 1, lh, px, py) + Hits(r, x + Pow2(lw - 1), y, lw - 1, lh, px, py)
    case _ => if Inside(px, py, x, y, lw, lh) then 1 else 0
  }

  /** Halving a rectangle either way splits its positions in two. */
  lemma {:induction false} HalvesPartition(px: int, py: int, x: int, y: int, lw: nat, lh: nat)
    ensures lh >= 1 ==>
              && (Inside(px, py, x, y, lw, lh)
                  <==> Inside(px, py, x, y, lw, lh - 1) || Inside(px, py, x, y + Pow2(lh - 1), lw, lh - 1))
              && !(Inside(px, py, x, y, lw, lh - 1) && Inside(px, py, x, y + Pow2(lh - 1), lw, lh - 1))
    ensures lw >= 1 ==>
              && (Inside(px, py, x, y, lw, lh)
                  <==> Inside(px, py, x, y, lw - 1, lh) || Inside(px, py, x + Pow2(lw - 1), y, lw - 1, lh))
              && !(Inside(px, py, x, y, lw - 1, lh) && Inside(px, py, x + Pow2(lw - 1), y, lw - 1, lh))
  {
  }

  /** The leaves partition the block: each inner position is in exactly one, no outer one in any. */
  lemma {:induction false} LeavesPartition(b: Block, e: Env, x: int, y: int, lw: nat, lh: nat, px: int, py: int)
    requires WellFormed(b, e, lw, lh)
    ensures Hits(b, x, y, lw, lh, px, py) == if Inside(px, py, x, y, lw, lh) then 1 else 0
    decreases b
  {
    hide WindowFits, Inside, Pow2;
    match b
    case Rows(t, u) =>
      HalvesPartition(px, py, x, y, lw, lh);
      LeavesPartition(t, e, x, y, lw, lh - 1, px, py);
      LeavesPartition(u, e, x, y + Pow2(lh - 1), lw, lh - 1, px, py);
    case Cols(l, r) =>
      HalvesPartition(px, py, x, y, lw, lh);
      LeavesPartition(l, e, x, y, lw - 1, lh, px, py);
      LeavesPartition(r, e, x + Pow2(lw - 1), y, lw - 1, lh, px, py);
    case _ =>
  }

  /** The value at (px, py) after decoding b over a pixel that held before. */
  ghost function Value(b: Block, e: Env, last: seq<nat>, x: nat, y: nat, lw: nat, lh: nat,
                       px: nat, py: nat, before: nat): nat
    requires WellFormed(b, e, lw, lh) && |last| == RowStart(e.height, e.width)
    decreases b
  {
    match b
    case Rows(t, u) =>
      Value(u, e, last, x, y + Pow2(lh - 1), lw, lh - 1, px, py,
            Value(t, e, last, x, y, lw, lh - 1, px, py, before))
    case Cols(l, r) =>
      Value(r, e, last, x + Pow2(lw - 1), y, lw - 1, lh, px, py,
            Value(l, e, last, x, y, lw - 1, lh, px, py, before))
    case Pair(p0, p1) =>
      if !Inside(px, py, x, y, lw, lh) then before else if px == x && py == y then p0 else p1
    case Keep => before
    case Copy(s, scale, dc) =>
      if !Inside(px, py, x, y, lw, lh) then before
      else Moved(last, s, e.width, e.height, lw, lh, scale, dc, x, y, px, py)
  }

  /** Outside the block nothing changes. */
  lemma {:induction false} ValueOutside(b: Block, e: Env, last: seq<nat>, x: nat, y: nat, lw: nat, lh: nat,
                                        px: nat, py: nat, before: nat)
    requires WellFormed(b, e, lw, lh) && |last| == RowStart(e.height, e.width)
    requires !Inside(px, py, x, y, lw, lh)
    ensures Value(b, e, last, x, y, lw, lh, px, py, before) == before
    decreases b
  {
    match b
    case Rows(t, u) =>
      ValueOutside(t, e, last, x, y, lw, lh - 1, px, py, before);
      ValueOutside(u, e, last, x, y + Pow2(lh - 1), lw, lh - 1, px, py, before);
    case Cols(l, r) =>
      ValueOutside(l, e, last, x, y, lw - 1, lh, px, py, before);
      ValueOutside(r, e, last, x + Pow2(lw - 1), y, lw - 1, lh, px, py, before);
    case _ =>
  }

  /** The pixel of frame f at (px, py). */
  ghost function PixelAt(f: seq<nat>, e: Env, px: nat, py: nat): nat
    requires |f| == RowStart(e.height, e.width) && px < e.width && py < e.height
  {
    AtInFrame(px, py, e.width, e.height);
    f[At(px, py, e.width)]
  }

  /** after is before with block b decoded at (x, y). */
  ghost predicate Decoded(before: seq<nat>, after: seq<nat>, last: seq<nat>, e: Env, b: Block,
                          x: nat, y: nat, lw: nat, lh: nat)
    requires |before| == |after| == |last| == RowStart(e.height, e.width)
  {
    && WellFormed(b, e, lw, lh)
    && forall px: nat, py: nat :: px < e.width && py < e.height ==>
         PixelAt(after, e, px, py) == Value(b, e, last, x, y, lw, lh, px, py, PixelAt(before, e, px, py))
  }

  /** Nothing outside the block differs. */
  ghost predicate OnlyInside(before: seq<nat>, after: seq<nat>, e: Env, x: nat, y: nat, lw: nat, lh: nat)
    requires |before| == |after| == RowStart(e.height, e.width)
  {
    forall px: nat, py: nat :: px < e.width && py < e.height && !Inside(px, py, x, y, lw, lh) ==>
      PixelAt(after, e, px, py) == PixelAt(before, e, px, py)
  }

  lemma {:induction false} DecodedOnlyInside(before: seq<nat>, after: seq<nat>, last: seq<nat>, e: Env, b: Block,
                          x: nat, y: nat, lw: nat, lh: nat)
    requires |before| == |after| == |last| == RowStart(e.height, e.width)
    requires Decoded(before, after, last, e, b, x, y, lw, lh)
    ensures OnlyInside(before, after, e, x, y, lw, lh)
  {
    forall px: nat, py: nat | px < e.width && py < e.height && !Inside(px, py, x, y, lw, lh)
      ensures PixelAt(after, e, px, py) == PixelAt(before, e, px, py)
    {
      ValueOutside(b, e, last, x, y, lw, lh, px, py, PixelAt(before, e, px, py));
    }
  }

  /** An unshifted block reference is always in range. */
  lemma {:induction false} UnshiftedFits(e: Env, x: nat, y: nat, lw: nat, lh: nat)
    requires Fits(e, x, y, lw, lh)
    ensures WindowFits(At(x, y, e.width), e.width, e.height, lw, lh)
  {
    if y < e.height - Pow2(lh) + 1 {
      RowsApart(y, e.height - Pow2(lh) + 1, e.width);
    }
  }

  /** The end pointer of the range check, in terms of the window. */
  lemma {:induction false} EndMeaning(e: Env, s: int, lw: nat, lh: nat)
    requires Pow2(lh) <= e.height
    ensures WindowFits(s, e.width, e.height, lw, lh)
       <==> 0 <= s <= e.width * (e.height - Pow2(lh) + 1) - Pow2(lw)
  {
    RowStartMul(e.height - Pow2(lh) + 1, e.width);
  }

  lemma {:induction false} OnlyInsideWider(f0: seq<nat>, f1: seq<nat>, e: Env, x: nat, y: nat, lw: nat, lh: nat,
                        x1: nat, y1: nat, lw1: nat, lh1: nat)
    requires |f0| == |f1| == RowStart(e.height, e.width)
    requires OnlyInside(f0, f1, e, x1, y1, lw1, lh1)
    requires x <= x1 && x1 + Pow2(lw1) <= x + Pow2(lw) && y <= y1 && y1 + Pow2(lh1) <= y + Pow2(lh)
    ensures OnlyInside(f0, f1, e, x, y, lw, lh)
  {
    hide PixelAt;
    forall px: nat, py: nat | px < e.width && py < e.height && !Inside(px, py, x, y, lw, lh)
      ensures PixelAt(f1, e, px, py) == PixelAt(f0, e, px, py)
    {
      assert !Inside(px, py, x1, y1, lw1, lh1);
    }
  }

  lemma {:induction false} OnlyInsideTwice(f0: seq<nat>, f1: seq<nat>, f2: seq<nat>, e: Env, x: nat, y: nat, lw: nat, lh: nat)
    requires |f0| == |f1| == |f2| == RowStart(e.height, e.width)
    requires OnlyInside(f0, f1, e, x, y, lw, lh) && OnlyInside(f1, f2, e, x, y, lw, lh)
    ensures OnlyInside(f0, f2, e, x, y, lw, lh)
  {
    hide PixelAt, Inside;
  }

  lemma {:induction false} SameOnlyInside(f: seq<nat>, e: Env, x: nat, y: nat, lw: nat, lh: nat)
    requires |f| == RowStart(e.height, e.width)
    ensures OnlyInside(f, f, e, x, y, lw, lh)
  {
  }

  lemma {:induction false} KeepDecoded(f: seq<nat>, last: seq<nat>, e: Env, x: nat, y: nat, lw: nat, lh: nat)
    requires |f| == |last| == RowStart(e.height, e.width) && lw <= 3 && lh <= 3 && lw + lh >= 1
    ensures Decoded(f, f, last, e, Keep, x, y, lw, lh)
  {
  }

  lemma {:induction false} DecodedRows(f0: seq<nat>, f1: seq<nat>, f2: seq<nat>, last: seq<nat>, e: Env, t: Block, u: Block,
                    x: nat, y: nat, lw: nat, lh: nat)
    requires |f0| == |f1| == |f2| == |last| == RowStart(e.height, e.width) && lh >= 1 && lh <= 3 && lw + lh >= 2
    requires Decoded(f0, f1, last, e, t, x, y, lw, lh - 1)
    requires Decoded(f1, f2, last, e, u, x, y + Pow2(lh - 1), lw, lh - 1)
    ensures Decoded(f0, f2, last, e, Rows(t, u), x, y, lw, lh)
  {
  }

  lemma {:induction false} DecodedCols(f0: seq<nat>, f1: seq<nat>, f2: seq<nat>, last: seq<nat>, e: Env, l: Block, r: Block,
                    x: nat, y: nat, lw: nat, lh: nat)
    requires |f0| == |f1| == |f2| == |last| == RowStart(e.height, e.width) && lw >= 1 && lw <= 3 && lw + lh >= 2
    requires Decoded(f0, f1, last, e, l, x, y, lw - 1, lh)
    requires Decoded(f1, f2, last, e, r, x + Pow2(lw - 1), y, lw - 1, lh)
    ensures Decoded(f0, f2, last, e, Cols(l, r), x, y, lw, lh)
  {
  }

  // Whole frames

  datatype Placed = Placed(x: nat, y: nat, b: Block)

  /** (x, y) is a raster position: block-aligned, at most one past the edge. */
  ghost predicate Raster(e: Env, x: nat, y: nat) {
    x % 8 == 0 && y % 8 == 0 && x <= e.width && y <= e.height
  }

  lemma {:induction false} NextMultiple(n: nat, a: nat)
    requires n % 16 == 0 && a % 8 == 0 && a < n
    ensures a + 8 <= n && (a + 8) % 8 == 0
  {
    var k, m := a / 8, n / 16;
    assert a == 8 * k && n == 16 * m;
  }

  lemma {:induction false} RasterNext(e: Env, x: nat, y: nat)
    requires ValidEnv(e) && Raster(e, x, y)
    ensures x < e.width && y < e.height ==> Raster(e, x + 8, y) && Fits(e, x, y, 3, 3)
    ensures y < e.height ==> Raster(e, 0, y + 8)
    ensures x <= e.width && y <= e.height && Pow2(3) == 8
  {
    if x < e.width {
      NextMultiple(e.width, x);
    }
    if y < e.height {
      NextMultiple(e.height, y);
    }
    assert Pow2(0) == 1 && Pow2(1) == 2 && Pow2(2) == 4 && Pow2(3) == 8;
  }

  /** The 8x8 blocks from raster position (x, y) to the end of the frame. */
  ghost function ParseFrame(e: Env, c: Cursor, x: nat, y: nat): (r: Option<seq<Placed>>)
    requires ValidEnv(e) && Raster(e, x, y)
    decreases e.height - y, e.width - x
  {
    hide Parse, Raster, Fits;
    RasterNext(e, x, y);
    if y >= e.height then Some([])
    else if x >= e.width then ParseFrame(e, c, 0, y + 8)
    else
      match Parse(e, c, x, y, 3, 3)
      case None => None
      case Some((b, c')) =>
        match ParseFrame(e, c', x + 8, y)
        case None => None
        case Some(rest) => Some([Placed(x, y, b)] + rest)
  }

  ghost predicate PlacedWell(ps: seq<Placed>, e: Env) {
    forall i :: 0 <= i < |ps| ==> WellFormed(ps[i].b, e, 3, 3) && Fits(e, ps[i].x, ps[i].y, 3, 3)
  }

  /** How many leaves of all the blocks cover the position. */
  ghost function FrameHits(ps: seq<Placed>, px: int, py: int): nat {
    if ps == [] then 0
    else Hits(ps[0].b, ps[0].x, ps[0].y, 3, 3, px, py) + FrameHits(ps[1..], px, py)
  }

  /** Every pixel from raster position (x, y) on lies in exactly one leaf of exactly one block. */
  lemma {:induction false} FramePartition(e: Env, c: Cursor, x: nat, y: nat, px: nat, py: nat)
    requires ValidEnv(e) && Raster(e, x, y) && px < e.width && py < e.height
    requires ParseFrame(e, c, x, y).Some?
    ensures PlacedWell(ParseFrame(e, c, x, y).value, e)
    ensures FrameHits(ParseFrame(e, c, x, y).value, px, py)
         == if py >= y + 8 || (py >= y && px >= x) then 1 else 0
    decreases e.height - y, e.width - x
  {
    hide Parse, Hits, WellFormed, Raster;
    RasterNext(e, x, y);
    if y < e.height {
      if x >= e.width {
        FramePartition(e, c, 0, y + 8, px, py);
      } else {
        var (b, c') := Parse(e, c, x, y, 3, 3).value;
        ParseWellFormed(e, c, x, y, 3, 3);
        LeavesPartition(b, e, x, y, 3, 3, px, py);
        FramePartition(e, c', x + 8, y, px, py);
        var rest := ParseFrame(e, c', x + 8, y).value;
        assert ([Placed(x, y, b)] + rest)[1..] == rest;
      }
    }
  }

  /** The value of a pixel after all the blocks have been decoded in order. */
  ghost function FrameValue(ps: seq<Placed>, e: Env, last: seq<nat>, px: nat, py: nat, before: nat): nat
    requires PlacedWell(ps, e) && |last| == RowStart(e.height, e.width)
    decreases |ps|
  {
    if ps == [] then before
    else
      var p := ps[|ps| - 1];
      Value(p.b, e, last, p.x, p.y, 3, 3, px, py, FrameValue(ps[..|ps| - 1], e, last, px, py, before))
  }

  ghost predicate FrameDecoded(before: seq<nat>, after: seq<nat>, last: seq<nat>, e: Env, ps: seq<Placed>)
    requires |before| == |after| == |last| == RowStart(e.height, e.width)
  {
    && PlacedWell(ps, e)
    && forall px: nat, py: nat :: px < e.width && py < e.height ==>
         PixelAt(after, e, px, py) == FrameValue(ps, e, last, px, py, PixelAt(before, e, px, py))
  }

  lemma {:induction false} FrameDecodedStep(f0: seq<nat>, f1: seq<nat>, f2: seq<nat>, last: seq<nat>, e: Env, ps: seq<Placed>, p: Placed)
    requires |f0| == |f1| == |f2| == |last| == RowStart(e.height, e.width)
    requires FrameDecoded(f0, f1, last, e, ps) && Fits(e, p.x, p.y, 3, 3)
    requires Decoded(f1, f2, last, e, p.b, p.x, p.y, 3, 3)
    ensures FrameDecoded(f0, f2, last, e, ps + [p])
  {
    hide PixelAt, Value, WellFormed;
    assert (ps + [p])[..|ps|] == ps;
  }

  class Decoder {
    const e: Env
    var pos: nat
    var g: nat
    var g2: nat
    const frame: array<nat>
    const last: array<nat>

    ghost predicate Valid()
      reads this
    {
      && ValidEnv(e) && frame != last
      && frame.Length == last.Length == RowStart(e.height, e.width)
    }

    function Cur(): Cursor
      reads this
    {
      Cursor(pos, g, g2)
    }

    constructor (e: Env, frame: array<nat>, last: array<nat>)
      requires ValidEnv(e) && frame != last
      requires frame.Length == last.Length == RowStart(e.height, e.width)
      ensures Valid() && Cur() == Cursor(0, 0, 0)
      ensures this.e == e && this.frame == frame && this.last == last
    {
      this.e, this.frame, this.last := e, frame, last;
      pos, g, g2 := 0, 0, 0;
    }

    method DecodePBlock(dst: nat, src: nat, log2w: nat, log2h: nat, ghost x: nat, ghost y: nat)
      returns (ok: bool)
      requires Valid() && Fits(e, x, y, log2w, log2h)
      requires dst == src == At(x, y, e.width)
      modifies this, frame
      ensures Valid()
      ensures OnlyInside(old(frame[..]), frame[..], e, x, y, log2w, log2h)
      ensures ok <==> Parse(e, old(Cur()), x, y, log2w, log2h).Some?
      ensures ok ==> Cur() == Parse(e, old(Cur()), x, y, log2w, log2h).value.1
      ensures ok ==> Decoded(old(frame[..]), frame[..], last[..], e,
                             Parse(e, old(Cur()), x, y, log2w, log2h).value.0, x, y, log2w, log2h)
      decreases log2w + log2h
    {
      hide ParseLeaf, BlockCode, Decoded, WellFormed, OnlyInside;
      SameOnlyInside(frame[..], e, x, y, log2w, log2h);
      if pos >= e.nbits {
        return false;
      }
      var code := ReadCode(log2w, log2h);
      if code == 1 {
        ok := SplitRows(dst, src, log2w, log2h, x, y);
      } else if code == 2 {
        ok := SplitCols(dst, src, log2w, log2h, x, y);
      } else {
        ok := DecodeLeaf(code, dst, src, log2w, log2h, x, y);
      }
    }

    /** Reads a type code from the bit stream. */
    method ReadCode(log2w: nat, log2h: nat) returns (code: nat)
      requires Valid() && log2w <= 3 && log2h <= 3 && log2w + log2h >= 1 && pos < e.nbits
      modifies this`pos
      ensures (code, Cur()) == BlockCode(e, old(Cur()), log2w, log2h)
    {
      var (k, len) := Lookup(e.version, SizeIndex(log2h, log2w), e.bits, pos);
      OmittedTypes(e.version, log2h, log2w, Window(e.bits, pos), k);
      code := k;
      pos := pos + len;
    }

    /** Literal pixels, an untouched block, or a copy or fill after its range check. */
    method DecodeLeaf(code: nat, dst: nat, src: nat, log2w: nat, log2h: nat, ghost x: nat, ghost y: nat)
      returns (ok: bool)
      requires Valid() && Fits(e, x, y, log2w, log2h) && dst == src == At(x, y, e.width)
      requires code < 7 && code != 1 && code != 2 && (code == 6 ==> log2w + log2h == 1)
      modifies this, frame
      ensures Valid()
      ensures OnlyInside(old(frame[..]), frame[..], e, x, y, log2w, log2h)
      ensures ok <==> ParseLeaf(e, old(Cur()), code, x, y, log2w, log2h).Some?
      ensures ok ==> Cur() == ParseLeaf(e, old(Cur()), code, x, y, log2w, log2h).value.1
      ensures ok ==> Decoded(old(frame[..]), frame[..], last[..], e,
                             ParseLeaf(e, old(Cur()), code, x, y, log2w, log2h).value.0, x, y, log2w, log2h)
    {
      hide Decoded, OnlyInside;
      SameOnlyInside(frame[..], e, x, y, log2w, log2h);
      KeepDecoded(frame[..], last[..], e, x, y, log2w, log2h);
      if code == 6 {
        if g2 + 4 > |e.words| {
          return false;
        }
        StoreTwo(dst, log2w, log2h, x, y);
        return true;
      }
      if code == 3 && e.version >= 2 {
        return true;
      }
      hide ReadSource;
      var s, scale, dc;
      ok, s, scale, dc := FetchSource(code, src, log2w, log2h, x, y);
      if !ok {
        return;
      }
      EndMeaning(e, s, log2w, log2h);
      if s < 0 || s > e.width * (e.height - Pow2(log2h) + 1) - Pow2(log2w) {
        return false;
      }
      CopyBlock(dst, s, scale, dc, log2w, log2h, x, y);
    }

    /** Reads motion index and pixel offset; a fill asserts that its own source is in range. */
    method FetchSource(code: nat, src: nat, log2w: nat, log2h: nat, ghost x: nat, ghost y: nat)
      returns (ok: bool, s: int, scale: nat, dc: nat)
      requires Valid() && Fits(e, x, y, log2w, log2h) && src == At(x, y, e.width)
      requires code < 6 && code != 1 && code != 2
      modifies this`g, this`g2
      ensures ok <==> ReadSource(e, old(Cur()), code, src).Some?
      ensures ok ==> ReadSource(e, old(Cur()), code, src).value == ((s, scale, dc), Cur())
      ensures ok && (code == 0 || code == 4) ==>
                old(g) < |e.bytes| && s == src + e.mv[e.bytes[old(g)]] && g == old(g) + 1
      ensures ok && (code == 3 || code == 5) ==> s == src && g == old(g)
      ensures ok && code >= 4 ==> old(g2) + 2 <= |e.words| && dc == Le16(e.words, old(g2)) && g2 == old(g2) + 2
      ensures ok && code < 4 ==> dc == 0 && g2 == old(g2)
      ensures ok ==> scale == if code == 5 then 0 else 1
    {
      ok, s, scale, dc := false, src, 1, 0;
      if code % 4 == 0 && g + 1 > |e.bytes| {
        return;
      }
      if code == 0 {
        s := s + e.mv[e.bytes[g]];
        g := g + 1;
      } else if code == 4 {
        s := s + e.mv[e.bytes[g]];
        g := g + 1;
        if g2 + 2 > |e.words| {
          return;
        }
        dc := Le16(e.words, g2);
        g2 := g2 + 2;
      } else if code == 5 {
        if g2 + 2 > |e.words| {
          return;
        }
        UnshiftedFits(e, x, y, log2w, log2h);
        EndMeaning(e, s, log2w, log2h);
        assert 0 <= s <= e.width * (e.height - Pow2(log2h) + 1) - Pow2(log2w);
        scale := 0;
        dc := Le16(e.words, g2);
        g2 := g2 + 2;
      }
      ok := true;
    }

    method CopyBlock(dst: nat, s: nat, scale: nat, dc: nat, log2w: nat, log2h: nat, ghost x: nat, ghost y: nat)
      requires Valid() && Fits(e, x, y, log2w, log2h) && dst == At(x, y, e.width)
      requires WindowFits(s, e.width, e.height, log2w, log2h) && scale <= 1 && dc < LANE
      modifies frame
      ensures OnlyInside(old(frame[..]), frame[..], e, x, y, log2w, log2h)
      ensures Decoded(old(frame[..]), frame[..], last[..], e, Copy(s, scale, dc), x, y, log2w, log2h)
    {
      McDc(frame, dst, last, s, log2w, log2h, e.width, scale, dc, e.height, x, y);
      hide Moved;
      forall px: nat, py: nat | px < e.width && py < e.height
        ensures PixelAt(frame[..], e, px, py) ==
                Value(Copy(s, scale, dc), e, last[..], x, y, log2w, log2h, px, py, PixelAt(old(frame[..]), e, px, py))
      {
        AtInFrame(px, py, e.width, e.height);
      }
      DecodedOnlyInside(old(frame[..]), frame[..], last[..], e, Copy(s, scale, dc), x, y, log2w, log2h);
    }

    /** Upper half, then lower half. */
    method SplitRows(dst: nat, src: nat, log2w: nat, log2h: nat, ghost x: nat, ghost y: nat) returns (ok: bool)
      requires Valid() && Fits(e, x, y, log2w, log2h) && log2h >= 1 && log2w + log2h >= 2
      requires dst == src == At(x, y, e.width)
      modifies this, frame
      ensures Valid()
      ensures OnlyInside(old(frame[..]), frame[..], e, x, y, log2w, log2h)
      ensures var p1 := Parse(e, old(Cur()), x, y, log2w, log2h - 1);
              if p1.None? then !ok
              else
                var p2 := Parse(e, p1.value.1, x, y + Pow2(log2h - 1), log2w, log2h - 1);
                && (ok <==> p2.Some?)
                && (ok ==> Cur() == p2.value.1
                           && Decoded(old(frame[..]), frame[..], last[..], e, Rows(p1.value.0, p2.value.0),
                                      x, y, log2w, log2h))
      decreases log2w + log2h, 0
    {
      hide Parse, Decoded, OnlyInside, WellFormed;
      var half := log2h - 1;
      ok := DecodePBlock(dst, src, log2w, half, x, y);
      ghost var f1 := frame[..];
      OnlyInsideWider(old(frame[..]), f1, e, x, y, log2w, log2h, x, y, log2w, half);
      if !ok {
        return;
      }
      RowStartAdd(y, Pow2(half), e.width);
      RowStartMul(Pow2(half), e.width);
      ok := DecodePBlock(dst + e.width * Pow2(half), src + e.width * Pow2(half), log2w, half, x, y + Pow2(half));
      OnlyInsideWider(f1, frame[..], e, x, y, log2w, log2h, x, y + Pow2(half), log2w, half);
      OnlyInsideTwice(old(frame[..]), f1, frame[..], e, x, y, log2w, log2h);
      if ok {
        ghost var p1 := Parse(e, old(Cur()), x, y, log2w, half).value;
        ghost var p2 := Parse(e, p1.1, x, y + Pow2(half), log2w, half).value;
        DecodedRows(old(frame[..]), f1, frame[..], last[..], e, p1.0, p2.0, x, y, log2w, log2h);
      }
    }

    /** Left half, then right half. */
    method SplitCols(dst: nat, src: nat, log2w: nat, log2h: nat, ghost x: nat, ghost y: nat) returns (ok: bool)
      requires Valid() && Fits(e, x, y, log2w, log2h) && log2w >= 1 && log2w + log2h >= 2
      requires dst == src == At(x, y, e.width)
      modifies this, frame
      ensures Valid()
      ensures OnlyInside(old(frame[..]), frame[..], e, x, y, log2w, log2h)
      ensures var p1 := Parse(e, old(Cur()), x, y, log2w - 1, log2h);
              if p1.None? then !ok
              else
                var p2 := Parse(e, p1.value.1, x + Pow2(log2w - 1), y, log2w - 1, log2h);
                && (ok <==> p2.Some?)
                && (ok ==> Cur() == p2.value.1
                           && Decoded(old(frame[..]), frame[..], last[..], e, Cols(p1.value.0, p2.value.0),
                                      x, y, log2w, log2h))
      decreases log2w + log2h, 0
    {
      hide Parse, Decoded, OnlyInside, WellFormed;
      var half := log2w - 1;
      ok := DecodePBlock(dst, src, half, log2h, x, y);
      ghost var f1 := frame[..];
      OnlyInsideWider(old(frame[..]), f1, e, x, y, log2w, log2h, x, y, half, log2h);
      if !ok {
        return;
      }
      ok := DecodePBlock(dst + Pow2(half), src + Pow2(half), half, log2h, x + Pow2(half), y);
      OnlyInsideWider(f1, frame[..], e, x, y, log2w, log2h, x + Pow2(half), y, half, log2h);
      OnlyInsideTwice(old(frame[..]), f1, frame[..], e, x, y, log2w, log2h);
      if ok {
        ghost var p1 := Parse(e, old(Cur()), x, y, half, log2h).value;
        ghost var p2 := Parse(e, p1.1, x + Pow2(half), y, half, log2h).value;
        DecodedCols(old(frame[..]), f1, frame[..], last[..], e, p1.0, p2.0, x, y, log2w, log2h);
      }
    }

    /** Two literal pixels, side by side or one below the other. */
    method StoreTwo(dst: nat, log2w: nat, log2h: nat, ghost x: nat, ghost y: nat)
      requires Valid() && Fits(e, x, y, log2w, log2h) && log2w + log2h == 1 && g2 + 4 <= |e.words|
      requires dst == At(x, y, e.width)
      modifies this`g2, frame
      ensures Valid() && g2 == old(g2) + 4
      ensures Decoded(old(frame[..]), frame[..], last[..], e,
                      Pair(Le16(e.words, old(g2)), Le16(e.words, old(g2) + 2)), x, y, log2w, log2h)
      ensures OnlyInside(old(frame[..]), frame[..], e, x, y, log2w, log2h)
    {
      var second := if log2w > 0 then dst + 1 else dst + e.width;
      AtInFrame(x, y, e.width, e.height);
      ghost var x2, y2 := if log2w > 0 then x + 1 else x, if log2w > 0 then y else y + 1;
      AtInFrame(x2, y2, e.width, e.height);
      assert second == At(x2, y2, e.width);
      frame[dst] := Le16(e.words, g2);
      frame[second] := Le16(e.words, g2 + 2);
      g2 := g2 + 4;
      forall px: nat, py: nat | px < e.width && py < e.height
        ensures PixelAt(frame[..], e, px, py) ==
                Value(Pair(Le16(e.words, old(g2)), Le16(e.words, old(g2) + 2)), e, last[..], x, y, log2w, log2h,
                      px, py, PixelAt(old(frame[..]), e, px, py))
      {
        AtInFrame(px, py, e.width, e.height);
        if At(px, py, e.width) == At(x, y, e.width) {
          AtInjective(px, py, x, y, e.width);
        } else if At(px, py, e.width) == At(x2, y2, e.width) {
          AtInjective(px, py, x2, y2, e.width);
        }
      }
    }

    /** All 8x8 blocks in raster order. */
    method DecodePFrame() returns (ok: bool, ghost blocks: seq<Placed>)
      requires Valid()
      modifies this, frame
      ensures Valid()
      ensures ok <==> ParseFrame(e, old(Cur()), 0, 0).Some?
      ensures ok ==> blocks == ParseFrame(e, old(Cur()), 0, 0).value
      ensures ok ==> FrameDecoded(old(frame[..]), frame[..], last[..], e, blocks)
    {
      hide Parse, FrameDecoded, Decoded, OnlyInside, Fits;
      blocks := [];
      NothingDecoded(frame[..], last[..], e);
      ContinuesStart(ParseFrame(e, Cur(), 0, 0));
      var y, row := 0, 0;
      while y < e.height
        invariant Raster(e, 0, y) && row == RowStart(y, e.width) && Valid()
        invariant FrameDecoded(old(frame[..]), frame[..], last[..], e, blocks)
        invariant Continues(ParseFrame(e, old(Cur()), 0, 0), blocks, ParseFrame(e, Cur(), 0, y))
      {
        var x := 0;
        while x < e.width
          invariant Raster(e, x, y) && Valid()
          invariant FrameDecoded(old(frame[..]), frame[..], last[..], e, blocks)
          invariant Continues(ParseFrame(e, old(Cur()), 0, 0), blocks, ParseFrame(e, Cur(), x, y))
        {
          RasterNext(e, x, y);
          ghost var c, f1 := Cur(), frame[..];
          ok := DecodePBlock(row + x, row + x, 3, 3, x, y);
          if !ok {
            return;
          }
          ghost var p := Placed(x, y, Parse(e, c, x, y, 3, 3).value.0);
          FrameDecodedStep(old(frame[..]), f1, frame[..], last[..], e, blocks, p);
          ContinuesStep(ParseFrame(e, old(Cur()), 0, 0), blocks, ParseFrame(e, c, x, y), p,
                        ParseFrame(e, Cur(), x + 8, y));
          blocks := blocks + [p];
          x := x + 8;
        }
        RasterNext(e, x, y);
        RowStartAdd(y, 8, e.width);
        RowStartMul(8, e.width);
        row := row + 8 * e.width;
        y := y + 8;
      }
      ok := true;
    }
  }

  /** whole is what has been parsed followed by what is left. */
  ghost predicate Continues(whole: Option<seq<Placed>>, done: seq<Placed>, left: Option<seq<Placed>>) {
    match left
    case None => whole.None?
    case Some(rest) => whole == Some(done + rest)
  }

  lemma {:induction false} ContinuesStart(whole: Option<seq<Placed>>)
    ensures Continues(whole, [], whole)
  {
    if whole.Some? {
      assert [] + whole.value == whole.value;
    }
  }

  lemma {:induction false} ContinuesStep(whole: Option<seq<Placed>>, done: seq<Placed>, left: Option<seq<Placed>>, p: Placed,
                      left': Option<seq<Placed>>)
    requires Continues(whole, done, left)
    requires left == match left' case None => None case Some(rest) => Some([p] + rest)
    ensures Continues(whole, done + [p], left')
  {
    if left'.Some? {
      assert done + ([p] + left'.value) == done + [p] + left'.value;
    }
  }

  lemma {:induction false} NothingDecoded(f: seq<nat>, last: seq<nat>, e: Env)
    requires |f| == |last| == RowStart(e.height, e.width)
    ensures FrameDecoded(f, f, last, e, [])
  {
  }
}
