/** What a P-frame says, apart from how it is decoded: sketches of blocks, the streams that spell
    them, and the pixels they stand for. Decoding is proved to be reading a spelling and showing
    its sketch. */
module PSketch {
  import opened Sums
  import opened BlockTypes
  import opened Pixels
  import opened PBlock
  import opened Options

  /** A block as its author thinks of it: one half over or beside another, two pixels, the same as
      before, moved by displacement number index, moved and brightened, or filled. */
  datatype Sketch =
    | Over(top: Sketch, bottom: Sketch)
    | Beside(left: Sketch, right: Sketch)
    | Two(first: nat, second: nat)
    | Same
    | Move(index: nat)
    | MoveAdd(index: nat, dc: nat)
    | Fill(dc: nat)

  function TypeOf(d: Sketch): (k: nat)
    ensures k < 7
  {
    match d
    case Move(_) => 0
    case Over(_, _) => 1
    case Beside(_, _) => 2
    case Same => 3
    case MoveAdd(_, _) => 4
    case Fill(_) => 5
    case Two(_, _) => 6
  }

  ghost predicate Proper(d: Sketch, lw: nat, lh: nat)
    decreases d
  {
    && Offered(lh, lw, TypeOf(d))
    && match d
       case Over(t, b) => Proper(t, lw, lh - 1) && Proper(b, lw, lh - 1)
       case Beside(l, r) => Proper(l, lw - 1, lh) && Proper(r, lw - 1, lh)
       case Two(p0, p1) => p0 < LANE && p1 < LANE
       case Same => true
       case Move(i) => i < 256
       case MoveAdd(i, dc) => i < 256 && dc < LANE
       case Fill(dc) => dc < LANE
  }

  // The three streams

  ghost function BitsOf(d: Sketch, version: nat, lw: nat, lh: nat): (r: seq<bool>)
    requires Proper(d, lw, lh)
    decreases d
  {
    TypeHasWord(version, lh, lw, TypeOf(d));
    WordOf(version, SizeIndex(lh, lw), TypeOf(d)) +
    match d
    case Over(t, b) => BitsOf(t, version, lw, lh - 1) + BitsOf(b, version, lw, lh - 1)
    case Beside(l, r) => BitsOf(l, version, lw - 1, lh) + BitsOf(r, version, lw - 1, lh)
    case _ => []
  }

  ghost function BytesOf(d: Sketch): seq<nat> {
    match d
    case Over(t, b) => BytesOf(t) + BytesOf(b)
    case Beside(l, r) => BytesOf(l) + BytesOf(r)
    case Move(i) => [i]
    case MoveAdd(i, _) => [i]
    case _ => []
  }

  /** Low byte first. */
  ghost function WordBytes(v: nat): seq<nat> {
    [v % 256, v / 256]
  }

  ghost function WordsOf(d: Sketch): seq<nat> {
    match d
    case Over(t, b) => WordsOf(t) + WordsOf(b)
    case Beside(l, r) => WordsOf(l) + WordsOf(r)
    case Two(p0, p1) => WordBytes(p0) + WordBytes(p1)
    case MoveAdd(_, dc) => WordBytes(dc)
    case Fill(dc) => WordBytes(dc)
    case _ => []
  }

  /** The streams spell d from cursor c on. */
  ghost predicate Spelt(e: Env, c: Cursor, d: Sketch, lw: nat, lh: nat)
    requires Proper(d, lw, lh)
  {
    && Holds(e.bits, c.pos, BitsOf(d, e.version, lw, lh))
    && Holds(e.bytes, c.g, BytesOf(d))
    && Holds(e.words, c.g2, WordsOf(d))
  }

  /** The cursor behind the spelling. */
  ghost function Behind(e: Env, c: Cursor, d: Sketch, lw: nat, lh: nat): Cursor
    requires Proper(d, lw, lh)
  {
    Cursor(c.pos + |BitsOf(d, e.version, lw, lh)|, c.g + |BytesOf(d)|, c.g2 + |WordsOf(d)|)
  }

  // The pixels

  /** Every displaced source lies in the previous frame. */
  ghost predicate Fitting(d: Sketch, e: Env, x: nat, y: nat, lw: nat, lh: nat)
    requires Proper(d, lw, lh) && |e.mv| == 256
    decreases d
  {
    match d
    case Over(t, b) => Fitting(t, e, x, y, lw, lh - 1) && Fitting(b, e, x, y + Pow2(lh - 1), lw, lh - 1)
    case Beside(l, r) => Fitting(l, e, x, y, lw - 1, lh) && Fitting(r, e, x + Pow2(lw - 1), y, lw - 1, lh)
    case Move(i) => WindowFits(At(x, y, e.width) + e.mv[i], e.width, e.height, lw, lh)
    case MoveAdd(i, _) => WindowFits(At(x, y, e.width) + e.mv[i], e.width, e.height, lw, lh)
    case _ => true
  }

  /** Pixel v is what (px, py) of the block d at (x, y) shows, over a pixel that was before. */
  ghost predicate Shows(d: Sketch, e: Env, last: seq<nat>, x: nat, y: nat, lw: nat, lh: nat,
                        px: nat, py: nat, before: nat, v: nat)
    requires |e.mv| == 256
    decreases d
  {
    var here := py * e.width + px;
    match d
    case Over(t, b) =>
      if lh == 0 then false
      else if py < y + Pow2(lh - 1) then Shows(t, e, last, x, y, lw, lh - 1, px, py, before, v)
      else Shows(b, e, last, x, y + Pow2(lh - 1), lw, lh - 1, px, py, before, v)
    case Beside(l, r) =>
      if lw == 0 then false
      else if px < x + Pow2(lw - 1) then Shows(l, e, last, x, y, lw - 1, lh, px, py, before, v)
      else Shows(r, e, last, x + Pow2(lw - 1), y, lw - 1, lh, px, py, before, v)
    case Two(p0, p1) => v == if px == x && py == y then p0 else p1
    case Same => v == if e.version >= 2 then before else if here < |last| then last[here] else 0
    case Move(i) => i < 256 && 0 <= here + e.mv[i] < |last| && v == last[here + e.mv[i]]
    case MoveAdd(i, dc) =>
      && i < 256 && 0 <= here + e.mv[i] < |last|
      && var odd := (px - x) % 2 == 1 && here + e.mv[i] >= 1;
         v == (last[here + e.mv[i]] + dc + if odd && last[here + e.mv[i] - 1] + dc >= LANE then 1 else 0) % LANE
    case Fill(dc) => v == dc
  }

  /** The frame after is the frame before with d drawn at (x, y). */
  ghost predicate Drawn(before: seq<nat>, after: seq<nat>, last: seq<nat>, e: Env, d: Sketch,
                        x: nat, y: nat, lw: nat, lh: nat)
    requires |before| == |after| == RowStart(e.height, e.width) && |e.mv| == 256
  {
    forall px: nat, py: nat :: px < e.width && py < e.height ==>
      if Inside(px, py, x, y, lw, lh)
      then Shows(d, e, last, x, y, lw, lh, px, py, PixelAt(before, e, px, py), PixelAt(after, e, px, py))
      else PixelAt(after, e, px, py) == PixelAt(before, e, px, py)
  }

  ghost predicate Lanes(f: seq<nat>) {
    forall i :: 0 <= i < |f| ==> f[i] < LANE
  }

  // Decoded blocks are sketches with their sources resolved

  ghost predicate Resolves(d: Sketch, e: Env, b: Block, x: nat, y: nat, lw: nat, lh: nat)
    requires |e.mv| == 256
    decreases d
  {
    match d
    case Over(t, u) =>
      lh >= 1 && b.Rows? && Resolves(t, e, b.top, x, y, lw, lh - 1)
      && Resolves(u, e, b.bottom, x, y + Pow2(lh - 1), lw, lh - 1)
    case Beside(l, r) =>
      lw >= 1 && b.Cols? && Resolves(l, e, b.left, x, y, lw - 1, lh)
      && Resolves(r, e, b.right, x + Pow2(lw - 1), y, lw - 1, lh)
    case Two(p0, p1) => b == Pair(p0, p1)
    case Same => b == if e.version >= 2 then Keep else Copy(At(x, y, e.width), 1, 0)
    case Move(i) => i < 256 && b.Copy? && b.src == At(x, y, e.width) + e.mv[i] && b.scale == 1 && b.dc == 0
    case MoveAdd(i, dc) => i < 256 && b.Copy? && b.src == At(x, y, e.width) + e.mv[i] && b.scale == 1 && b.dc == dc
    case Fill(dc) => b.Copy? && b.scale == 0 && b.dc == dc
  }

  /** A resolved block has the pixels of its sketch. */
  lemma {:induction false} ResolvedShows(d: Sketch, e: Env, b: Block, last: seq<nat>, x: nat, y: nat, lw: nat, lh: nat,
                      px: nat, py: nat, before: nat)
    requires ValidEnv(e) && Fits(e, x, y, lw, lh) && Proper(d, lw, lh) && Resolves(d, e, b, x, y, lw, lh)
    requires WellFormed(b, e, lw, lh) && |last| == RowStart(e.height, e.width) && Lanes(last)
    requires Inside(px, py, x, y, lw, lh)
    ensures Shows(d, e, last, x, y, lw, lh, px, py, before, Value(b, e, last, x, y, lw, lh, px, py, before))
    decreases d
  {
    hide WindowFits, Pow2, Fits, Moved, ValidEnv, Offered;
    match d
    case Over(t, u) =>
      OfferedSplits(lh, lw, 1);
      HalvesPartition(px, py, x, y, lw, lh);
      HalfFits(e, x, y, lw, lh);
      var mid := Value(b.top, e, last, x, y, lw, lh - 1, px, py, before);
      if py < y + Pow2(lh - 1) {
        ResolvedShows(t, e, b.top, last, x, y, lw, lh - 1, px, py, before);
        ValueOutside(b.bottom, e, last, x, y + Pow2(lh - 1), lw, lh - 1, px, py, mid);
      } else {
        ValueOutside(b.top, e, last, x, y, lw, lh - 1, px, py, before);
        ResolvedShows(u, e, b.bottom, last, x, y + Pow2(lh - 1), lw, lh - 1, px, py, before);
      }
    case Beside(l, r) =>
      OfferedSplits(lh, lw, 2);
      HalvesPartition(px, py, x, y, lw, lh);
      HalfFits(e, x, y, lw, lh);
      var mid := Value(b.left, e, last, x, y, lw - 1, lh, px, py, before);
      if px < x + Pow2(lw - 1) {
        ResolvedShows(l, e, b.left, last, x, y, lw - 1, lh, px, py, before);
        ValueOutside(b.right, e, last, x + Pow2(lw - 1), y, lw - 1, lh, px, py, mid);
      } else {
        ValueOutside(b.left, e, last, x, y, lw - 1, lh, px, py, before);
        ResolvedShows(r, e, b.right, last, x + Pow2(lw - 1), y, lw - 1, lh, px, py, before);
      }
    case _ =>
      LeafShows(d, e, b, last, x, y, lw, lh, px, py, before);
  }

  lemma {:induction false} OfferedSplits(log2h: nat, log2w: nat, k: nat)
    requires Offered(log2h, log2w, k)
    ensures k == 1 ==> log2h >= 1 && log2w + log2h >= 2
    ensures k == 2 ==> log2w >= 1 && log2w + log2h >= 2
  {
  }

  lemma {:induction false} HalfFits(e: Env, x: nat, y: nat, lw: nat, lh: nat)
    requires Fits(e, x, y, lw, lh) && lw + lh >= 2
    ensures lh >= 1 ==> Fits(e, x, y, lw, lh - 1) && Fits(e, x, y + Pow2(lh - 1), lw, lh - 1)
    ensures lw >= 1 ==> Fits(e, x, y, lw - 1, lh) && Fits(e, x + Pow2(lw - 1), y, lw - 1, lh)
  {
  }

  lemma {:induction false} LeafShows(d: Sketch, e: Env, b: Block, last: seq<nat>, x: nat, y: nat, lw: nat, lh: nat,
                  px: nat, py: nat, before: nat)
    requires ValidEnv(e) && Proper(d, lw, lh) && Resolves(d, e, b, x, y, lw, lh) && !d.Over? && !d.Beside?
    requires WellFormed(b, e, lw, lh) && |last| == RowStart(e.height, e.width) && Lanes(last)
    requires Inside(px, py, x, y, lw, lh)
    ensures Shows(d, e, last, x, y, lw, lh, px, py, before, Value(b, e, last, x, y, lw, lh, px, py, before))
  {
    hide WindowFits, Inside, Moved, Offered;
    if b.Copy? {
      MovedMeaning(last, b.src, e.width, e.height, lw, lh, b.scale, b.dc, x, y, px, py);
      InsideOffsets(px, py, x, y, lw, lh, e.width);
    }
  }

  /** Offsets inside a block are the same in both frames. */
  lemma {:induction false} InsideOffsets(px: nat, py: nat, x: nat, y: nat, lw: nat, lh: nat, width: nat)
    requires Inside(px, py, x, y, lw, lh)
    ensures px >= x && py >= y && At(x, y, width) + (py - y) * width + (px - x) == py * width + px
  {
    RowStartMul(y, width);
    assert y * width + (py - y) * width == py * width;
  }

  // Decoding reads spellings

  /** A block's type code is the word that stands at the cursor. */
  lemma {:induction false} CodeIff(e: Env, c: Cursor, lw: nat, lh: nat, k: nat)
    requires ValidEnv(e) && lw <= 3 && lh <= 3 && lw + lh >= 1 && c.pos < e.nbits
    ensures Offered(lh, lw, BlockCode(e, c, lw, lh).0)
    ensures Offered(lh, lw, k) ==>
              var word := WordOf(e.version, SizeIndex(lh, lw), k);
              && |word| >= 1 && (BlockCode(e, c, lw, lh).0 == k <==> Holds(e.bits, c.pos, word))
              && (BlockCode(e, c, lw, lh).0 == k ==> BlockCode(e, c, lw, lh).1 == c.(pos := c.pos + |word|))
  {
    if Offered(lh, lw, k) {
      LookupIff(e.version, lh, lw, e.bits, c.pos, k);
    }
    hide Lookup, SizeIndex;
  }

  lemma {:induction false} WordBytesIff(s: seq<nat>, p: nat, v: nat)
    requires forall i :: 0 <= i < |s| ==> s[i] < 256
    requires v < LANE
    ensures Holds(s, p, WordBytes(v)) <==> p + 2 <= |s| && Le16(s, p) == v
    ensures p + 2 <= |s| ==> Le16(s, p) < LANE
  {
    if p + 2 <= |s| {
      assert s[p..p + 2] == [s[p], s[p + 1]];
    }
  }

  /** The sketch of a block that is not split. */
  lemma {:induction false} LeafSpelt(e: Env, c: Cursor, k: nat, x: nat, y: nat, lw: nat, lh: nat) returns (d: Sketch)
    requires ValidEnv(e) && Offered(lh, lw, k) && k != 1 && k != 2 && ParseLeaf(e, c, k, x, y, lw, lh).Some?
    ensures TypeOf(d) == k && Proper(d, lw, lh) && Fitting(d, e, x, y, lw, lh)
    ensures Holds(e.bytes, c.g, BytesOf(d)) && Holds(e.words, c.g2, WordsOf(d))
    ensures var (b, c') := ParseLeaf(e, c, k, x, y, lw, lh).value;
            c' == Cursor(c.pos, c.g + |BytesOf(d)|, c.g2 + |WordsOf(d)|) && Resolves(d, e, b, x, y, lw, lh)
  {
    hide WindowFits;
    if k == 6 {
      d := Two(Le16(e.words, c.g2), Le16(e.words, c.g2 + 2));
      WordBytesIff(e.words, c.g2, d.first);
      WordBytesIff(e.words, c.g2 + 2, d.second);
      HoldsSplit(e.words, c.g2, WordBytes(d.first), WordBytes(d.second));
    } else if k == 3 {
      d := Same;
    } else if k == 0 {
      d := Move(e.bytes[c.g]);
      HoldsOne(e.bytes, c.g, d.index);
    } else if k == 4 {
      d := MoveAdd(e.bytes[c.g], Le16(e.words, c.g2));
      HoldsOne(e.bytes, c.g, d.index);
      WordBytesIff(e.words, c.g2, d.dc);
    } else {
      d := Fill(Le16(e.words, c.g2));
      WordBytesIff(e.words, c.g2, d.dc);
    }
  }

  lemma {:induction false} SpeltLeaf(e: Env, c: Cursor, d: Sketch, lw: nat, lh: nat)
    requires Proper(d, lw, lh) && !d.Over? && !d.Beside?
    ensures SizeIndex(lh, lw) < 4
    ensures BitsOf(d, e.version, lw, lh) == WordOf(e.version, SizeIndex(lh, lw), TypeOf(d))
  {
    TypeHasWord(e.version, lh, lw, TypeOf(d));
  }

  ghost predicate IsSplit(d: Sketch) {
    d.Over? || d.Beside?
  }

  ghost function FirstHalf(d: Sketch): Sketch
    requires IsSplit(d)
  {
    if d.Over? then d.top else d.left
  }

  ghost function SecondHalf(d: Sketch): Sketch
    requires IsSplit(d)
  {
    if d.Over? then d.bottom else d.right
  }

  /** log2 width and height of the halves. */
  ghost function HalfSize(d: Sketch, lw: nat, lh: nat): (r: (nat, nat))
    requires Proper(d, lw, lh) && IsSplit(d)
    ensures lw + lh == r.0 + r.1 + 1 && r.0 <= lw && r.1 <= lh
  {
    if d.Over? then (lw, lh - 1) else (lw - 1, lh)
  }

  /** The streams of a split block: its type word, then those of its halves. */
  lemma {:induction false} SplitStreams(d: Sketch, version: nat, lw: nat, lh: nat)
    requires Proper(d, lw, lh) && IsSplit(d)
    ensures SizeIndex(lh, lw) < 4
    ensures var (w, h) := HalfSize(d, lw, lh);
            && Proper(FirstHalf(d), w, h) && Proper(SecondHalf(d), w, h)
            && BitsOf(d, version, lw, lh) == WordOf(version, SizeIndex(lh, lw), TypeOf(d))
                 + (BitsOf(FirstHalf(d), version, w, h) + BitsOf(SecondHalf(d), version, w, h))
    ensures BytesOf(d) == BytesOf(FirstHalf(d)) + BytesOf(SecondHalf(d))
    ensures WordsOf(d) == WordsOf(FirstHalf(d)) + WordsOf(SecondHalf(d))
  {
    TypeHasWord(version, lh, lw, TypeOf(d));
  }

  /** A split block is spelt by its type word and its halves, one after the other. */
  lemma {:induction false} SpeltSplit(e: Env, c: Cursor, d: Sketch, lw: nat, lh: nat, word: seq<bool>, c1: Cursor, c2: Cursor)
    requires Proper(d, lw, lh) && IsSplit(d) && SizeIndex(lh, lw) < 4
    requires word == WordOf(e.version, SizeIndex(lh, lw), TypeOf(d)) && c1 == c.(pos := c.pos + |word|)
    requires var (w, h) := HalfSize(d, lw, lh);
             Proper(FirstHalf(d), w, h) && c2 == Behind(e, c1, FirstHalf(d), w, h)
    ensures var (w, h) := HalfSize(d, lw, lh);
            && Proper(SecondHalf(d), w, h)
            && (Spelt(e, c, d, lw, lh) <==>
                  Holds(e.bits, c.pos, word) && Spelt(e, c1, FirstHalf(d), w, h) && Spelt(e, c2, SecondHalf(d), w, h))
            && Behind(e, c, d, lw, lh) == Behind(e, c2, SecondHalf(d), w, h)
  {
    hide Holds, BitsOf, BytesOf, WordsOf, WordOf, Proper, SizeIndex, HalfSize, FirstHalf, SecondHalf, IsSplit, TypeOf;
    SplitStreams(d, e.version, lw, lh);
    var (w, h) := HalfSize(d, lw, lh);
    var a, b := FirstHalf(d), SecondHalf(d);
    var ba, bb := BitsOf(a, e.version, w, h), BitsOf(b, e.version, w, h);
    HoldsSplit(e.bits, c.pos, word, ba + bb);
    HoldsSplit(e.bits, c1.pos, ba, bb);
    HoldsSplit(e.bytes, c.g, BytesOf(a), BytesOf(b));
    HoldsSplit(e.words, c.g2, WordsOf(a), WordsOf(b));
  }

  /** A split that has been parsed half by half is the spelling of a split. */
  lemma {:induction false} SpeltTogether(e: Env, c: Cursor, d: Sketch, lw: nat, lh: nat, w: nat, h: nat, word: seq<bool>, c1: Cursor)
    requires lw <= 3 && lh <= 3 && lw + lh >= 1 && SizeIndex(lh, lw) < 4 && IsSplit(d) && Offered(lh, lw, TypeOf(d))
    requires word == WordOf(e.version, SizeIndex(lh, lw), TypeOf(d)) && c1 == c.(pos := c.pos + |word|)
    requires Holds(e.bits, c.pos, word)
    requires if d.Over? then w == lw && h == lh - 1 else w == lw - 1 && h == lh
    requires Proper(FirstHalf(d), w, h) && Proper(SecondHalf(d), w, h)
    requires Spelt(e, c1, FirstHalf(d), w, h) && Spelt(e, Behind(e, c1, FirstHalf(d), w, h), SecondHalf(d), w, h)
    ensures Proper(d, lw, lh) && Spelt(e, c, d, lw, lh)
    ensures Behind(e, c, d, lw, lh) == Behind(e, Behind(e, c1, FirstHalf(d), w, h), SecondHalf(d), w, h)
  {
    hide Holds, BitsOf, BytesOf, WordsOf, WordOf, SizeIndex, Offered, Spelt, Behind;
    assert Proper(d, lw, lh);
    SpeltSplit(e, c, d, lw, lh, word, c1, Behind(e, c1, FirstHalf(d), w, h));
  }

  /** Every block that is decoded was spelt by the streams: there is a sketch, spelt from the cursor
      on, all of it and no more is read, no word of it starts behind the data, and the block is its
      resolution. */
  lemma {:induction false} ParsedIsSpelt(e: Env, c: Cursor, x: nat, y: nat, lw: nat, lh: nat) returns (d: Sketch)
    requires ValidEnv(e) && Fits(e, x, y, lw, lh) && Parse(e, c, x, y, lw, lh).Some?
    ensures Proper(d, lw, lh) && Spelt(e, c, d, lw, lh) && Fitting(d, e, x, y, lw, lh)
    ensures c.pos < e.nbits && Behind(e, c, d, lw, lh).pos < e.nbits + 5
    ensures var (b, c') := Parse(e, c, x, y, lw, lh).value;
            c' == Behind(e, c, d, lw, lh) && Resolves(d, e, b, x, y, lw, lh)
    decreases lw + lh
  {
    hide BlockCode, ParseLeaf, Holds, Offered, WordOf, Spelt, Behind, SizeIndex, Pow2, WindowFits, Proper;
    var (k, c1) := BlockCode(e, c, lw, lh);
    CodeIff(e, c, lw, lh, k);
    SizeIndexSmall(lh, lw);
    var word := WordOf(e.version, SizeIndex(lh, lw), k);
    if k == 1 {
      OfferedSplits(lh, lw, 1);
      HalfFits(e, x, y, lw, lh);
      var t := ParsedIsSpelt(e, c1, x, y, lw, lh - 1);
      var u := ParsedIsSpelt(e, Behind(e, c1, t, lw, lh - 1), x, y + Pow2(lh - 1), lw, lh - 1);
      d := Over(t, u);
      SpeltTogether(e, c, d, lw, lh, lw, lh - 1, word, c1);
    } else if k == 2 {
      OfferedSplits(lh, lw, 2);
      HalfFits(e, x, y, lw, lh);
      var l := ParsedIsSpelt(e, c1, x, y, lw - 1, lh);
      var r := ParsedIsSpelt(e, Behind(e, c1, l, lw - 1, lh), x + Pow2(lw - 1), y, lw - 1, lh);
      d := Beside(l, r);
      SpeltTogether(e, c, d, lw, lh, lw - 1, lh, word, c1);
    } else {
      d := LeafSpelt(e, c1, k, x, y, lw, lh);
      LeafTogether(e, c, d, lw, lh);
    }
  }

  lemma {:induction false} SizeIndexSmall(log2h: nat, log2w: nat)
    requires log2h <= 3 && log2w <= 3 && log2w + log2h >= 1
    ensures SizeIndex(log2h, log2w) < 4
  {
  }

  lemma {:induction false} LeafTogether(e: Env, c: Cursor, d: Sketch, lw: nat, lh: nat)
    requires Proper(d, lw, lh) && !d.Over? && !d.Beside?
    ensures SizeIndex(lh, lw) < 4
    ensures var word := WordOf(e.version, SizeIndex(lh, lw), TypeOf(d));
            && (Spelt(e, c, d, lw, lh) <==>
                  Holds(e.bits, c.pos, word) && Holds(e.bytes, c.g, BytesOf(d)) && Holds(e.words, c.g2, WordsOf(d)))
            && Behind(e, c, d, lw, lh) == Cursor(c.pos + |word|, c.g + |BytesOf(d)|, c.g2 + |WordsOf(d)|)
  {
    SpeltLeaf(e, c, d, lw, lh);
  }

  lemma {:induction false} LeafParses(e: Env, c: Cursor, d: Sketch, x: nat, y: nat, lw: nat, lh: nat)
    requires ValidEnv(e) && Fits(e, x, y, lw, lh) && Proper(d, lw, lh) && !d.Over? && !d.Beside?
    requires Holds(e.bytes, c.g, BytesOf(d)) && Holds(e.words, c.g2, WordsOf(d))
    ensures ParseLeaf(e, c, TypeOf(d), x, y, lw, lh).Some? <==> Fitting(d, e, x, y, lw, lh)
    ensures ParseLeaf(e, c, TypeOf(d), x, y, lw, lh).Some? ==>
              ParseLeaf(e, c, TypeOf(d), x, y, lw, lh).value.1
              == Cursor(c.pos, c.g + |BytesOf(d)|, c.g2 + |WordsOf(d)|)
  {
    UnshiftedFits(e, x, y, lw, lh);
    hide WindowFits;
    match d
    case Two(p0, p1) =>
      WordBytesIff(e.words, c.g2, p0);
      WordBytesIff(e.words, c.g2 + 2, p1);
      HoldsSplit(e.words, c.g2, WordBytes(p0), WordBytes(p1));
    case Same =>
    case Move(i) => HoldsOne(e.bytes, c.g, i);
    case MoveAdd(i, dc) =>
      HoldsOne(e.bytes, c.g, i);
      WordBytesIff(e.words, c.g2, dc);
    case Fill(dc) => WordBytesIff(e.words, c.g2, dc);
  }

  /** A sketch that the streams spell is decoded exactly when its sources lie in the frame. */
  lemma {:induction false} SpellingParses(e: Env, c: Cursor, d: Sketch, x: nat, y: nat, lw: nat, lh: nat)
    requires ValidEnv(e) && Fits(e, x, y, lw, lh) && Proper(d, lw, lh) && Spelt(e, c, d, lw, lh)
    requires Behind(e, c, d, lw, lh).pos <= e.nbits
    ensures Parse(e, c, x, y, lw, lh).Some? <==> Fitting(d, e, x, y, lw, lh)
    ensures Parse(e, c, x, y, lw, lh).Some? ==> Parse(e, c, x, y, lw, lh).value.1 == Behind(e, c, d, lw, lh)
    decreases lw + lh
  {
    hide BlockCode, ParseLeaf, Holds, Offered, WordOf, Spelt, Behind, SizeIndex, Pow2, WindowFits, Proper;
    ProperCode(e, c, d, x, y, lw, lh);
    var (k, c1) := BlockCode(e, c, lw, lh);
    if IsSplit(d) {
      var (w, h) := HalfSize(d, lw, lh);
      var c2 := Behind(e, c1, FirstHalf(d), w, h);
      SpeltSplit(e, c, d, lw, lh, WordOf(e.version, SizeIndex(lh, lw), k), c1, c2);
      HalfFits(e, x, y, lw, lh);
      BehindGrows(e, c2, SecondHalf(d), w, h);
      SpellingParses(e, c1, FirstHalf(d), x, y, w, h);
      if d.Over? {
        SpellingParses(e, c2, SecondHalf(d), x, y + Pow2(lh - 1), w, h);
      } else {
        SpellingParses(e, c2, SecondHalf(d), x + Pow2(lw - 1), y, w, h);
      }
    } else {
      LeafTogether(e, c, d, lw, lh);
      LeafParses(e, c1, d, x, y, lw, lh);
    }
  }

  lemma {:induction false} BehindGrows(e: Env, c: Cursor, d: Sketch, lw: nat, lh: nat)
    requires Proper(d, lw, lh)
    ensures c.pos < Behind(e, c, d, lw, lh).pos
  {
    TypeHasWord(e.version, lh, lw, TypeOf(d));
  }

  /** The type code at a spelling is the sketch's. */
  lemma {:induction false} ProperCode(e: Env, c: Cursor, d: Sketch, x: nat, y: nat, lw: nat, lh: nat)
    requires ValidEnv(e) && Fits(e, x, y, lw, lh) && Proper(d, lw, lh) && Spelt(e, c, d, lw, lh)
    requires Behind(e, c, d, lw, lh).pos <= e.nbits
    ensures c.pos < e.nbits && SizeIndex(lh, lw) < 4
    ensures var word := WordOf(e.version, SizeIndex(lh, lw), TypeOf(d));
            Holds(e.bits, c.pos, word) && BlockCode(e, c, lw, lh) == (TypeOf(d), c.(pos := c.pos + |word|))
    ensures TypeOf(d) == 1 ==> d.Over?
    ensures TypeOf(d) == 2 ==> d.Beside?
    ensures IsSplit(d) ==> Proper(FirstHalf(d), HalfSize(d, lw, lh).0, HalfSize(d, lw, lh).1) && lw + lh >= 2
  {
    hide BlockCode, WordOf, BitsOf, BytesOf, WordsOf, Holds, SizeIndex, Behind, Spelt;
    BehindGrows(e, c, d, lw, lh);
    CodeIff(e, c, lw, lh, TypeOf(d));
    if IsSplit(d) {
      SplitStreams(d, e.version, lw, lh);
      OfferedSplits(lh, lw, TypeOf(d));
    } else {
      LeafTogether(e, c, d, lw, lh);
    }
    var word := WordOf(e.version, SizeIndex(lh, lw), TypeOf(d));
    if IsSplit(d) {
      var (w, h) := HalfSize(d, lw, lh);
      SpeltSplit(e, c, d, lw, lh, word, c.(pos := c.pos + |word|), Behind(e, c.(pos := c.pos + |word|), FirstHalf(d), w, h));
    }
  }

  /** What decoding a block does, in terms of sketches only: the streams spelt d from the cursor c on,
      they have been read up to its end, and the frame shows it. */
  ghost predicate DecodesTo(e: Env, c: Cursor, c': Cursor, before: seq<nat>, after: seq<nat>, last: seq<nat>, d: Sketch,
                            x: nat, y: nat, lw: nat, lh: nat)
    requires ValidEnv(e) && |before| == |after| == |last| == RowStart(e.height, e.width)
  {
    && Proper(d, lw, lh) && Spelt(e, c, d, lw, lh) && c' == Behind(e, c, d, lw, lh)
    && Fitting(d, e, x, y, lw, lh) && Drawn(before, after, last, e, d, x, y, lw, lh)
  }

  lemma {:induction false} ResolvedIsDrawn(before: seq<nat>, after: seq<nat>, last: seq<nat>, e: Env, d: Sketch, b: Block,
                        x: nat, y: nat, lw: nat, lh: nat)
    requires ValidEnv(e) && Fits(e, x, y, lw, lh) && Proper(d, lw, lh) && Resolves(d, e, b, x, y, lw, lh) && Lanes(last)
    requires |before| == |after| == |last| == RowStart(e.height, e.width)
    requires Decoded(before, after, last, e, b, x, y, lw, lh)
    ensures Drawn(before, after, last, e, d, x, y, lw, lh)
  {
    hide Shows, Value, PixelAt, Inside, WellFormed, Resolves, Proper, Fits;
    forall px: nat, py: nat | px < e.width && py < e.height
      ensures if Inside(px, py, x, y, lw, lh)
              then Shows(d, e, last, x, y, lw, lh, px, py, PixelAt(before, e, px, py), PixelAt(after, e, px, py))
              else PixelAt(after, e, px, py) == PixelAt(before, e, px, py)
    {
      if Inside(px, py, x, y, lw, lh) {
        ResolvedShows(d, e, b, last, x, y, lw, lh, px, py, PixelAt(before, e, px, py));
      } else {
        ValueOutside(b, e, last, x, y, lw, lh, px, py, PixelAt(before, e, px, py));
      }
    }
  }

  /** Whatever block decode_p_block accepts, the streams spelt a sketch of it and the frame shows it. */
  lemma {:induction false} BlockShowsSketch(e: Env, c: Cursor, before: seq<nat>, after: seq<nat>, last: seq<nat>,
                         x: nat, y: nat, lw: nat, lh: nat) returns (d: Sketch)
    requires ValidEnv(e) && Fits(e, x, y, lw, lh) && Parse(e, c, x, y, lw, lh).Some? && Lanes(last)
    requires |before| == |after| == |last| == RowStart(e.height, e.width)
    requires Decoded(before, after, last, e, Parse(e, c, x, y, lw, lh).value.0, x, y, lw, lh)
    ensures DecodesTo(e, c, Parse(e, c, x, y, lw, lh).value.1, before, after, last, d, x, y, lw, lh)
  {
    hide Parse, Resolves, Proper, Spelt, Behind, Fitting, Drawn, Decoded;
    d := ParsedIsSpelt(e, c, x, y, lw, lh);
    ResolvedIsDrawn(before, after, last, e, d, Parse(e, c, x, y, lw, lh).value.0, x, y, lw, lh);
  }

  /** No other sketch is spelt there: the streams determine it. */
  lemma {:induction false} SketchIsUnique(e: Env, c: Cursor, d1: Sketch, d2: Sketch, x: nat, y: nat, lw: nat, lh: nat)
    requires ValidEnv(e) && Fits(e, x, y, lw, lh) && Proper(d1, lw, lh) && Proper(d2, lw, lh)
    requires Spelt(e, c, d1, lw, lh) && Spelt(e, c, d2, lw, lh)
    requires Behind(e, c, d1, lw, lh).pos <= e.nbits && Behind(e, c, d2, lw, lh).pos <= e.nbits
    ensures d1 == d2
    decreases lw + lh
  {
    hide BlockCode, Holds, Offered, WordOf, Spelt, Behind, SizeIndex, Pow2, Proper;
    ProperCode(e, c, d1, x, y, lw, lh);
    ProperCode(e, c, d2, x, y, lw, lh);
    var (k, c1) := BlockCode(e, c, lw, lh);
    if IsSplit(d1) {
      var (w, h) := HalfSize(d1, lw, lh);
      var word := WordOf(e.version, SizeIndex(lh, lw), k);
      var e1, e2 := Behind(e, c1, FirstHalf(d1), w, h), Behind(e, c1, FirstHalf(d2), w, h);
      SpeltSplit(e, c, d1, lw, lh, word, c1, e1);
      SpeltSplit(e, c, d2, lw, lh, word, c1, e2);
      BehindGrows(e, e1, SecondHalf(d1), w, h);
      BehindGrows(e, e2, SecondHalf(d2), w, h);
      HalfFits(e, x, y, lw, lh);
      SketchIsUnique(e, c1, FirstHalf(d1), FirstHalf(d2), x, y, w, h);
      SketchIsUnique(e, e1, SecondHalf(d1), SecondHalf(d2), x, y, w, h);
    } else {
      LeafTogether(e, c, d1, lw, lh);
      LeafTogether(e, c, d2, lw, lh);
      SameLeaf(e, c, d1, d2, lw, lh);
    }
  }

  lemma {:induction false} SameLeaf(e: Env, c: Cursor, d1: Sketch, d2: Sketch, lw: nat, lh: nat)
    requires ValidEnv(e) && Proper(d1, lw, lh) && Proper(d2, lw, lh) && TypeOf(d1) == TypeOf(d2) && !IsSplit(d1)
    requires Holds(e.bytes, c.g, BytesOf(d1)) && Holds(e.words, c.g2, WordsOf(d1))
    requires Holds(e.bytes, c.g, BytesOf(d2)) && Holds(e.words, c.g2, WordsOf(d2))
    ensures d1 == d2
  {
    match d1
    case Two(p0, p1) =>
      HoldsSplit(e.words, c.g2, WordBytes(p0), WordBytes(p1));
      HoldsSplit(e.words, c.g2, WordBytes(d2.first), WordBytes(d2.second));
      WordBytesIff(e.words, c.g2, p0);
      WordBytesIff(e.words, c.g2 + 2, p1);
      WordBytesIff(e.words, c.g2, d2.first);
      WordBytesIff(e.words, c.g2 + 2, d2.second);
    case Move(i) =>
      HoldsOne(e.bytes, c.g, i);
      HoldsOne(e.bytes, c.g, d2.index);
    case MoveAdd(i, dc) =>
      HoldsOne(e.bytes, c.g, i);
      HoldsOne(e.bytes, c.g, d2.index);
      WordBytesIff(e.words, c.g2, dc);
      WordBytesIff(e.words, c.g2, d2.dc);
    case Fill(dc) =>
      WordBytesIff(e.words, c.g2, dc);
      WordBytesIff(e.words, c.g2, d2.dc);
    case _ =>
  }

  // Whole frames

  /** The streams spell ds one after the other from cursor c on. */
  ghost predicate AllSpelt(e: Env, c: Cursor, ds: seq<Sketch>)
    decreases |ds|
  {
    ds == [] ||
    (Proper(ds[0], 3, 3) && Spelt(e, c, ds[0], 3, 3) && AllSpelt(e, Behind(e, c, ds[0], 3, 3), ds[1..]))
  }

  ghost predicate Aligned(px: nat, py: nat) {
    px % 8 == 0 && py % 8 == 0
  }

  /** Block corners in reading order: no two rows or columns exchanged, none twice. */
  ghost predicate Earlier(x1: nat, y1: nat, x2: nat, y2: nat) {
    y1 < y2 || (y1 == y2 && x1 < x2)
  }

  ghost predicate At8(ps: seq<Placed>, i: int, x: nat, y: nat) {
    0 <= i < |ps| && ps[i].x == x && ps[i].y == y
  }

  /** The placed blocks are all the 8x8 blocks from corner (x, y) on, in reading order. */
  ghost predicate InReadingOrder(ps: seq<Placed>, e: Env, x: nat, y: nat) {
    && (forall i :: 0 <= i < |ps| ==> Aligned(ps[i].x, ps[i].y) && ps[i].x < e.width && ps[i].y < e.height
                                      && !Earlier(ps[i].x, ps[i].y, x, y))
    && (forall i, j :: 0 <= i < j < |ps| ==> Earlier(ps[i].x, ps[i].y, ps[j].x, ps[j].y))
    && forall cx: nat, cy: nat :: Aligned(cx, cy) && cx < e.width && cy < e.height && !Earlier(cx, cy, x, y) ==>
         exists i :: At8(ps, i, cx, cy)
  }

  lemma {:induction false} OrderFirst(ps: seq<Placed>, e: Env, x: nat, y: nat, p: Placed)
    requires Aligned(x, y) && x < e.width && y < e.height && p.x == x && p.y == y
    requires InReadingOrder(ps, e, x + 8, y)
    ensures InReadingOrder([p] + ps, e, x, y)
  {
    var qs := [p] + ps;
    forall cx: nat, cy: nat | Aligned(cx, cy) && cx < e.width && cy < e.height && !Earlier(cx, cy, x, y)
      ensures exists i :: At8(qs, i, cx, cy)
    {
      if cx == x && cy == y {
        assert At8(qs, 0, cx, cy);
      } else {
        assert !Earlier(cx, cy, x + 8, y);
        var i :| At8(ps, i, cx, cy);
        assert At8(qs, i + 1, cx, cy);
      }
    }
  }

  lemma {:induction false} OrderWraps(ps: seq<Placed>, e: Env, x: nat, y: nat)
    requires Aligned(x, y) && x >= e.width && InReadingOrder(ps, e, 0, y + 8)
    ensures InReadingOrder(ps, e, x, y)
  {
    forall cx: nat, cy: nat | Aligned(cx, cy) && cx < e.width && cy < e.height && !Earlier(cx, cy, x, y)
      ensures exists i :: At8(ps, i, cx, cy)
    {
      assert cy >= y + 8;
      assert !Earlier(cx, cy, 0, y + 8);
    }
  }

  lemma {:induction false} OrderEnds(e: Env, x: nat, y: nat)
    requires y >= e.height
    ensures InReadingOrder([], e, x, y)
  {
  }

  ghost predicate AllResolve(ds: seq<Sketch>, e: Env, ps: seq<Placed>)
    requires |e.mv| == 256
  {
    |ds| == |ps| && forall i :: 0 <= i < |ps| ==>
      Proper(ds[i], 3, 3) && Fitting(ds[i], e, ps[i].x, ps[i].y, 3, 3) && Resolves(ds[i], e, ps[i].b, ps[i].x, ps[i].y, 3, 3)
  }

  /** Every frame that is decoded was spelt, block after block in reading order. */
  lemma {:induction false} FrameIsSpelt(e: Env, c: Cursor, x: nat, y: nat) returns (ds: seq<Sketch>)
    requires ValidEnv(e) && Raster(e, x, y) && ParseFrame(e, c, x, y).Some?
    ensures AllSpelt(e, c, ds) && AllResolve(ds, e, ParseFrame(e, c, x, y).value)
    ensures InReadingOrder(ParseFrame(e, c, x, y).value, e, x, y)
    decreases e.height - y, e.width - x
  {
    hide Parse, Raster, Fits, InReadingOrder, Resolves, Fitting, Proper, Spelt, Behind;
    RasterNext(e, x, y);
    RasterAligned(e, x, y);
    if y >= e.height {
      ds := [];
      OrderEnds(e, x, y);
    } else if x >= e.width {
      ds := FrameIsSpelt(e, c, 0, y + 8);
      OrderWraps(ParseFrame(e, c, 0, y + 8).value, e, x, y);
    } else {
      var (b, c') := Parse(e, c, x, y, 3, 3).value;
      var d := ParsedIsSpelt(e, c, x, y, 3, 3);
      var rest := FrameIsSpelt(e, c', x + 8, y);
      ds := [d] + rest;
      assert ds[1..] == rest;
      OrderFirst(ParseFrame(e, c', x + 8, y).value, e, x, y, Placed(x, y, b));
    }
  }

  lemma {:induction false} RasterAligned(e: Env, x: nat, y: nat)
    requires Raster(e, x, y)
    ensures Aligned(x, y)
  {
  }

  /** Only block k touches a pixel inside it. */
  lemma {:induction false} FrameValueIs(ps: seq<Placed>, e: Env, last: seq<nat>, px: nat, py: nat, before: nat, k: nat)
    requires PlacedWell(ps, e) && |last| == RowStart(e.height, e.width) && k < |ps|
    requires forall i :: 0 <= i < |ps| && i != k ==> !Inside(px, py, ps[i].x, ps[i].y, 3, 3)
    ensures FrameValue(ps, e, last, px, py, before) == Value(ps[k].b, e, last, ps[k].x, ps[k].y, 3, 3, px, py, before)
    decreases |ps|
  {
    hide Value, Inside, Fits, WellFormed;
    var n := |ps| - 1;
    var init := ps[..n];
    if k < n {
      FrameValueIs(init, e, last, px, py, before, k);
      ValueOutside(ps[n].b, e, last, ps[n].x, ps[n].y, 3, 3, px, py, FrameValue(init, e, last, px, py, before));
    } else {
      NoneTouches(init, e, last, px, py, before);
    }
  }

  lemma {:induction false} NoneTouches(ps: seq<Placed>, e: Env, last: seq<nat>, px: nat, py: nat, before: nat)
    requires PlacedWell(ps, e) && |last| == RowStart(e.height, e.width)
    requires forall i :: 0 <= i < |ps| ==> !Inside(px, py, ps[i].x, ps[i].y, 3, 3)
    ensures FrameValue(ps, e, last, px, py, before) == before
    decreases |ps|
  {
    hide Value, Inside, Fits, WellFormed;
    if ps != [] {
      var n := |ps| - 1;
      NoneTouches(ps[..n], e, last, px, py, before);
      ValueOutside(ps[n].b, e, last, ps[n].x, ps[n].y, 3, 3, px, py, before);
    }
  }

  /** Pixel (px, py) of the frame is the one that its own 8x8 block shows. */
  ghost predicate PixelShown(before: seq<nat>, after: seq<nat>, last: seq<nat>, e: Env, ds: seq<Sketch>, ps: seq<Placed>,
                             px: nat, py: nat)
    requires |before| == |after| == RowStart(e.height, e.width) && |e.mv| == 256 && |ds| == |ps|
    requires px < e.width && py < e.height
  {
    exists k :: At8(ps, k, px - px % 8, py - py % 8)
      && Shows(ds[k], e, last, ps[k].x, ps[k].y, 3, 3, px, py, PixelAt(before, e, px, py), PixelAt(after, e, px, py))
  }

  lemma {:induction false} OwnBlock(px: nat, py: nat, x: nat, y: nat)
    requires Aligned(x, y)
    ensures Inside(px, py, x, y, 3, 3) <==> x == px - px % 8 && y == py - py % 8
  {
    assert Pow2(0) == 1 && Pow2(1) == 2 && Pow2(2) == 4 && Pow2(3) == 8;
  }

  /** Whatever frame decode_p_frame accepts, the streams spelt one sketch for each of its 8x8 blocks in
      reading order, and every pixel is the one that its block's sketch shows. */
  lemma {:induction false} FrameShowsSketches(e: Env, c: Cursor, before: seq<nat>, after: seq<nat>, last: seq<nat>)
    returns (ds: seq<Sketch>)
    requires ValidEnv(e) && ParseFrame(e, c, 0, 0).Some? && Lanes(last)
    requires |before| == |after| == |last| == RowStart(e.height, e.width)
    requires FrameDecoded(before, after, last, e, ParseFrame(e, c, 0, 0).value)
    ensures var ps := ParseFrame(e, c, 0, 0).value;
            && |ds| == |ps| && AllSpelt(e, c, ds) && InReadingOrder(ps, e, 0, 0)
            && forall px: nat, py: nat :: px < e.width && py < e.height ==> PixelShown(before, after, last, e, ds, ps, px, py)
  {
    ds := FrameIsSpelt(e, c, 0, 0);
    var ps := ParseFrame(e, c, 0, 0).value;
    hide ParseFrame, AllSpelt, Shows, Value, PixelAt, FrameValue, Resolves, Fitting, Proper, WellFormed, Inside, Fits, PixelShown;
    forall px: nat, py: nat | px < e.width && py < e.height ensures PixelShown(before, after, last, e, ds, ps, px, py) {
      ShownByOwn(before, after, last, e, ds, ps, px, py);
    }
  }

  lemma {:induction false} ShownByOwn(before: seq<nat>, after: seq<nat>, last: seq<nat>, e: Env, ds: seq<Sketch>, ps: seq<Placed>,
                   px: nat, py: nat)
    requires ValidEnv(e) && Lanes(last) && |before| == |after| == |last| == RowStart(e.height, e.width)
    requires FrameDecoded(before, after, last, e, ps) && AllResolve(ds, e, ps) && InReadingOrder(ps, e, 0, 0)
    requires px < e.width && py < e.height
    ensures PixelShown(before, after, last, e, ds, ps, px, py)
  {
    hide Shows, Value, PixelAt, FrameValue, Resolves, Fitting, Proper, WellFormed, Inside, Fits;
    var cx, cy := px - px % 8, py - py % 8;
    assert Aligned(cx, cy) && !Earlier(cx, cy, 0, 0);
    var k :| At8(ps, k, cx, cy);
    forall i | 0 <= i < |ps| ensures Inside(px, py, ps[i].x, ps[i].y, 3, 3) <==> i == k {
      OwnBlock(px, py, ps[i].x, ps[i].y);
      assert i < k ==> Earlier(ps[i].x, ps[i].y, ps[k].x, ps[k].y);
      assert k < i ==> Earlier(ps[k].x, ps[k].y, ps[i].x, ps[i].y);
    }
    var v := PixelAt(before, e, px, py);
    FrameValueIs(ps, e, last, px, py, v, k);
    ResolvedShows(ds[k], e, ps[k].b, last, ps[k].x, ps[k].y, 3, 3, px, py, v);
  }

  // Pixels stay below 65536

  lemma {:induction false} ShownIsLane(d: Sketch, e: Env, last: seq<nat>, x: nat, y: nat, lw: nat, lh: nat,
                    px: nat, py: nat, before: nat, v: nat)
    requires |e.mv| == 256 && Proper(d, lw, lh) && Lanes(last) && before < LANE
    requires Shows(d, e, last, x, y, lw, lh, px, py, before, v)
    ensures v < LANE
    decreases d
  {
    hide Offered, Pow2;
    match d
    case Over(t, b) =>
      OfferedSplits(lh, lw, 1);
      if py < y + Pow2(lh - 1) {
        ShownIsLane(t, e, last, x, y, lw, lh - 1, px, py, before, v);
      } else {
        ShownIsLane(b, e, last, x, y + Pow2(lh - 1), lw, lh - 1, px, py, before, v);
      }
    case Beside(l, r) =>
      OfferedSplits(lh, lw, 2);
      if px < x + Pow2(lw - 1) {
        ShownIsLane(l, e, last, x, y, lw - 1, lh, px, py, before, v);
      } else {
        ShownIsLane(r, e, last, x + Pow2(lw - 1), y, lw - 1, lh, px, py, before, v);
      }
    case _ =>
  }

  lemma {:induction false} IndexIsPosition(i: nat, width: nat, height: nat) returns (px: nat, py: nat)
    requires i < RowStart(height, width)
    ensures px < width && py < height && i == At(px, py, width)
  {
    RowStartMul(height, width);
    var n: int := width;
    px, py := i % n, i / n;
    assert i == py * n + px;
    RowStartMul(py, width);
    if py >= height {
      RowStartMono(height, py, width);
    }
  }

  /** A decoded frame can serve as the previous frame of the next one. */
  lemma {:induction false} FrameStaysLanes(e: Env, c: Cursor, before: seq<nat>, after: seq<nat>, last: seq<nat>)
    requires ValidEnv(e) && ParseFrame(e, c, 0, 0).Some? && Lanes(last) && Lanes(before)
    requires |before| == |after| == |last| == RowStart(e.height, e.width)
    requires FrameDecoded(before, after, last, e, ParseFrame(e, c, 0, 0).value)
    ensures Lanes(after)
  {
    var ds := FrameIsSpelt(e, c, 0, 0);
    var ps := ParseFrame(e, c, 0, 0).value;
    hide ParseFrame, AllSpelt, Shows, Value, FrameValue, Resolves, Fitting, Proper, WellFormed, Inside, Fits;
    forall i | 0 <= i < |after| ensures after[i] < LANE {
      var px, py := IndexIsPosition(i, e.width, e.height);
      ShownByOwn(before, after, last, e, ds, ps, px, py);
      var k :| At8(ps, k, px - px % 8, py - py % 8)
        && Shows(ds[k], e, last, ps[k].x, ps[k].y, 3, 3, px, py, PixelAt(before, e, px, py), PixelAt(after, e, px, py));
      ShownIsLane(ds[k], e, last, ps[k].x, ps[k].y, 3, 3, px, py, PixelAt(before, e, px, py), PixelAt(after, e, px, py));
    }
  }
}
