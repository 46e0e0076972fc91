/** The block-type prefix codes of 4XM P-frames: tables, lookup, and what they leave out. */
module BlockTypes {
  import opened Sums

  /** (code, length) for block types 0..6; length 0 marks a type the table omits.
      index 0: both sides above 1; 1: height 1, width 4 or 8; 2: width 1; 3: two pixels. */
  function CodeTable(version: nat, index: nat): (t: seq<(nat, nat)>)
    requires index < 4
    ensures |t| == 7
  {
    if version > 1 then
      if index == 0 then [(0, 1), (2, 2), (6, 3), (14, 4), (30, 5), (31, 5), (0, 0)]
      else if index == 1 then [(0, 1), (0, 0), (2, 2), (6, 3), (14, 4), (15, 4), (0, 0)]
      else if index == 2 then [(0, 1), (2, 2), (0, 0), (6, 3), (14, 4), (15, 4), (0, 0)]
      else [(0, 1), (0, 0), (0, 0), (2, 2), (6, 3), (14, 4), (15, 4)]
    else
      if index == 0 then [(1, 2), (4, 3), (5, 3), (0, 2), (6, 3), (7, 3), (0, 0)]
      else if index == 1 then [(1, 2), (0, 0), (2, 2), (0, 2), (6, 3), (7, 3), (0, 0)]
      else if index == 2 then [(1, 2), (2, 2), (0, 0), (0, 2), (6, 3), (7, 3), (0, 0)]
      else [(1, 2), (0, 0), (0, 0), (0, 2), (2, 2), (6, 3), (7, 3)]
  }

  /** Table choice by log2 height and log2 width; the 1x1 entry is -1 stored as an unsigned byte. */
  function SizeIndex(log2h: nat, log2w: nat): nat
    requires log2h <= 3 && log2w <= 3
  {
    if log2h == 0 then (if log2w == 0 then 255 else if log2w == 1 then 3 else 1)
    else if log2w == 0 then (if log2h == 1 then 3 else 2)
    else 0
  }

  /** Type k's code word starts the five-bit window w. */
  predicate Fires(version: nat, index: nat, w: nat, k: nat)
    requires index < 4 && k < 7
  {
    var (code, len) := CodeTable(version, index)[k];
    0 < len <= 5 && w / Pow2(5 - len) == code
  }

  /** Each of the eight tables is a complete prefix code over five-bit windows. */
  lemma {:induction false} TableComplete(version: nat, index: nat, w: nat)
    requires index < 4 && w < 32
    ensures exists k: nat :: k < 7 && Fires(version, index, w, k)
  {
    if version > 1 {
      NewTableComplete(version, index, w);
    } else {
      OldTableComplete(version, index, w);
    }
  }

  lemma {:induction false} NewTableComplete(version: nat, index: nat, w: nat)
    requires index < 4 && w < 32 && version > 1
    ensures exists k: nat :: k < 7 && Fires(version, index, w, k)
  {
    assert Pow2(0) == 1 && Pow2(1) == 2 && Pow2(2) == 4 && Pow2(3) == 8 && Pow2(4) == 16;
    assert w < 16 ==> Fires(version, index, w, 0);
    if index == 0 {
      assert Fires(version, 0, w, 0) || Fires(version, 0, w, 1) || Fires(version, 0, w, 2)
          || Fires(version, 0, w, 3) || Fires(version, 0, w, 4) || Fires(version, 0, w, 5);
    } else if index == 1 {
      assert Fires(version, 1, w, 0) || Fires(version, 1, w, 2)
          || Fires(version, 1, w, 3) || Fires(version, 1, w, 4) || Fires(version, 1, w, 5);
    } else if index == 2 {
      assert Fires(version, 2, w, 0) || Fires(version, 2, w, 1)
          || Fires(version, 2, w, 3) || Fires(version, 2, w, 4) || Fires(version, 2, w, 5);
    } else {
      assert Fires(version, 3, w, 0) || Fires(version, 3, w, 3) || Fires(version, 3, w, 4)
          || Fires(version, 3, w, 5) || Fires(version, 3, w, 6);
    }
  }

  lemma {:induction false} OldTableComplete(version: nat, index: nat, w: nat)
    requires index < 4 && w < 32 && version <= 1
    ensures exists k: nat :: k < 7 && Fires(version, index, w, k)
  {
    assert Pow2(0) == 1 && Pow2(1) == 2 && Pow2(2) == 4 && Pow2(3) == 8 && Pow2(4) == 16;
    if index == 0 {
      assert Fires(version, 0, w, 0) || Fires(version, 0, w, 1) || Fires(version, 0, w, 2)
          || Fires(version, 0, w, 3) || Fires(version, 0, w, 4) || Fires(version, 0, w, 5);
    } else if index == 1 {
      assert Fires(version, 1, w, 0) || Fires(version, 1, w, 2)
          || Fires(version, 1, w, 3) || Fires(version, 1, w, 4) || Fires(version, 1, w, 5);
    } else if index == 2 {
      assert Fires(version, 2, w, 0) || Fires(version, 2, w, 1)
          || Fires(version, 2, w, 3) || Fires(version, 2, w, 4) || Fires(version, 2, w, 5);
    } else {
      assert Fires(version, 3, w, 0) || Fires(version, 3, w, 3) || Fires(version, 3, w, 4)
          || Fires(version, 3, w, 5) || Fires(version, 3, w, 6);
    }
  }

  lemma {:induction false} TableUnambiguous(version: nat, index: nat, w: nat, k1: nat, k2: nat)
    requires index < 4 && w < 32 && k1 < 7 && k2 < 7
    requires Fires(version, index, w, k1) && Fires(version, index, w, k2)
    ensures k1 == k2
  {
    assert Pow2(0) == 1 && Pow2(1) == 2 && Pow2(2) == 4 && Pow2(3) == 8 && Pow2(4) == 16;
  }

  /** The five bits at pos, first bit highest. */
  function Window(bits: seq<bool>, pos: nat): (w: nat)
    requires pos + 5 <= |bits|
    ensures w < 32
  {
    (if bits[pos] then 16 else 0) + (if bits[pos + 1] then 8 else 0) + (if bits[pos + 2] then 4 else 0)
    + (if bits[pos + 3] then 2 else 0) + (if bits[pos + 4] then 1 else 0)
  }

  /** The block type that starts at pos and the length of its word. */
  function Lookup(version: nat, index: nat, bits: seq<bool>, pos: nat): (r: (nat, nat))
    requires index < 4 && pos + 5 <= |bits|
    ensures r.0 < 7 && Fires(version, index, Window(bits, pos), r.0)
    ensures r.1 == CodeTable(version, index)[r.0].1 && 1 <= r.1 <= 5
  {
    var w := Window(bits, pos);
    TableComplete(version, index, w);
    var k := Scan(version, index, w, 0);
    (k, CodeTable(version, index)[k].1)
  }

  function Scan(version: nat, index: nat, w: nat, k: nat): (r: nat)
    requires index < 4 && w < 32 && k < 7
    requires exists j: nat :: k <= j < 7 && Fires(version, index, w, j)
    ensures r < 7 && Fires(version, index, w, r)
    decreases 7 - k
  {
    if Fires(version, index, w, k) then k else Scan(version, index, w, k + 1)
  }

  /** What each table leaves out: a side of one pixel is never split, type 6 is for two pixels. */
  lemma {:induction false} OmittedTypes(version: nat, log2h: nat, log2w: nat, w: nat, k: nat)
    requires log2h <= 3 && log2w <= 3 && log2h + log2w >= 1 && w < 32 && k < 7
    requires Fires(version, SizeIndex(log2h, log2w), w, k)
    ensures k == 1 ==> log2h >= 1 && log2h + log2w >= 2
    ensures k == 2 ==> log2w >= 1 && log2h + log2w >= 2
    ensures k == 6 ==> log2h + log2w == 1
  {
  }

  /** Some types are never missing from the table of a block size. */
  ghost predicate Offered(log2h: nat, log2w: nat, k: nat) {
    && log2h <= 3 && log2w <= 3 && log2h + log2w >= 1 && k < 7
    && (k == 1 ==> log2h >= 1 && log2h + log2w >= 2)
    && (k == 2 ==> log2w >= 1 && log2h + log2w >= 2)
    && (k == 6 ==> log2h + log2w == 1)
  }

  /** Type k's code word, first bit first. */
  ghost function WordOf(version: nat, index: nat, k: nat): (word: seq<bool>)
    requires index < 4 && k < 7
  {
    var (code, len) := CodeTable(version, index)[k];
    BitsOfCode(code, len)
  }

  ghost function BitsOfCode(code: nat, len: nat): (word: seq<bool>)
    ensures |word| == len
  {
    if len == 0 then [] else BitsOfCode(code / 2, len - 1) + [code % 2 == 1]
  }

  /** The word w stands in s at p. */
  ghost predicate Holds<T(!new)>(s: seq<T>, p: nat, w: seq<T>) {
    w == [] || (p + |w| <= |s| && s[p..p + |w|] == w)
  }

  lemma {:induction false} HoldsSplit<T(!new)>(s: seq<T>, p: nat, a: seq<T>, b: seq<T>)
    ensures Holds(s, p, a + b) <==> Holds(s, p, a) && Holds(s, p + |a|, b)
  {
    if a == [] {
      assert a + b == b;
    } else if b == [] {
      assert a + b == a;
    } else if p + |a| + |b| <= |s| {
      var w := s[p..p + |a| + |b|];
      assert w == s[p..p + |a|] + s[p + |a|..p + |a| + |b|];
      assert w[..|a|] == s[p..p + |a|] && w[|a|..] == s[p + |a|..p + |a| + |b|];
      assert (a + b)[..|a|] == a && (a + b)[|a|..] == b;
    }
  }

  lemma {:induction false} HoldsOne<T(!new)>(s: seq<T>, p: nat, v: T)
    ensures Holds(s, p, [v]) <==> p < |s| && s[p] == v
  {
    if p < |s| {
      assert s[p..p + 1] == [s[p]];
    }
  }

  /** The value of the first n bits at pos. */
  ghost function FirstBits(bits: seq<bool>, pos: nat, n: nat): nat
    requires pos + n <= |bits|
  {
    if n == 0 then 0 else 2 * FirstBits(bits, pos, n - 1) + if bits[pos + n - 1] then 1 else 0
  }

  lemma {:induction false} FirstBitsOfWindow(bits: seq<bool>, pos: nat, n: nat)
    requires pos + 5 <= |bits| && n <= 5
    ensures FirstBits(bits, pos, n) == Window(bits, pos) / Pow2(5 - n)
    decreases n
  {
    assert Pow2(0) == 1 && Pow2(1) == 2 && Pow2(2) == 4 && Pow2(3) == 8 && Pow2(4) == 16 && Pow2(5) == 32;
    if n == 5 {
      FirstBitsOfWindow(bits, pos, 4);
    } else {
      var a, b, c, d := FirstBits(bits, pos, 1), FirstBits(bits, pos, 2), FirstBits(bits, pos, 3), FirstBits(bits, pos, 4);
      assert FirstBits(bits, pos, 0) == 0 && a == if bits[pos] then 1 else 0;
      assert b == 2 * a + if bits[pos + 1] then 1 else 0;
      assert c == 2 * b + if bits[pos + 2] then 1 else 0;
      assert d == 2 * c + if bits[pos + 3] then 1 else 0;
    }
  }

  /** A word of n bits stands at pos exactly when the first n bits there are its value. */
  lemma {:induction false} WordHeldIff(bits: seq<bool>, pos: nat, code: nat, n: nat)
    requires pos + n <= |bits| && code < Pow2(n)
    ensures Holds(bits, pos, BitsOfCode(code, n)) <==> FirstBits(bits, pos, n) == code
  {
    if n > 0 {
      var last := [code % 2 == 1];
      HoldsSplit(bits, pos, BitsOfCode(code / 2, n - 1), last);
      WordHeldIff(bits, pos, code / 2, n - 1);
      hide BitsOfCode, FirstBits;
      assert Holds(bits, pos + n - 1, last) <==> bits[pos + n - 1] == last[0];
      assert code == 2 * (code / 2) + code % 2;
    }
  }

  /** Lookup finds type k exactly where its word stands, and consumes it. */
  lemma {:induction false} LookupIff(version: nat, log2h: nat, log2w: nat, bits: seq<bool>, pos: nat, k: nat)
    requires Offered(log2h, log2w, k) && pos + 5 <= |bits|
    ensures var index := SizeIndex(log2h, log2w);
            && index < 4 && |WordOf(version, index, k)| >= 1
            && (Lookup(version, index, bits, pos).0 == k <==> Holds(bits, pos, WordOf(version, index, k)))
            && (Lookup(version, index, bits, pos).0 == k ==> Lookup(version, index, bits, pos).1 == |WordOf(version, index, k)|)
  {
    var index := SizeIndex(log2h, log2w);
    var (code, len) := CodeTable(version, index)[k];
    TypeHasWord(version, log2h, log2w, k);
    WordHeldIff(bits, pos, code, len);
    FirstBitsOfWindow(bits, pos, len);
    hide CodeTable, Window, Pow2;
    var r := Lookup(version, index, bits, pos);
    if Fires(version, index, Window(bits, pos), k) {
      TableUnambiguous(version, index, Window(bits, pos), k, r.0);
    }
  }

  lemma {:induction false} TypeHasWord(version: nat, log2h: nat, log2w: nat, k: nat)
    requires Offered(log2h, log2w, k)
    ensures SizeIndex(log2h, log2w) < 4
    ensures var (code, len) := CodeTable(version, SizeIndex(log2h, log2w))[k];
            1 <= len <= 5 && code < Pow2(len)
  {
    assert Pow2(0) == 1 && Pow2(1) == 2 && Pow2(2) == 4 && Pow2(3) == 8 && Pow2(4) == 16 && Pow2(5) == 32;
  }

  /** From version 2 on the words are the unary ones in the order of the types: ones and a final zero,
      or, for the last type of the table, as many ones as the type before it has bits. */
  lemma {:induction false} NewWordsAreUnary(version: nat, log2h: nat, log2w: nat, j: nat, k: nat)
    requires version > 1 && j < k && Offered(log2h, log2w, j) && Offered(log2h, log2w, k)
    requires forall i :: j < i < k ==> !Offered(log2h, log2w, i)
    ensures var t := CodeTable(version, SizeIndex(log2h, log2w));
            var last := forall i :: k < i < 7 ==> !Offered(log2h, log2w, i);
            && t[j].0 == Pow2(t[j].1) - 2
            && t[k].1 == t[j].1 + (if last then 0 else 1) && t[k].0 == Pow2(t[k].1) - (if last then 1 else 2)
            && (j == 0 ==> t[j].1 == 1)
  {
    assert Pow2(0) == 1 && Pow2(1) == 2 && Pow2(2) == 4 && Pow2(3) == 8 && Pow2(4) == 16 && Pow2(5) == 32;
    assert Offered(log2h, log2w, 0) && Offered(log2h, log2w, 3) && Offered(log2h, log2w, 4) && Offered(log2h, log2w, 5);
    assert Offered(log2h, log2w, 1) || !Offered(log2h, log2w, 1);
    assert Offered(log2h, log2w, 2) || !Offered(log2h, log2w, 2);
    assert Offered(log2h, log2w, 6) || !Offered(log2h, log2w, 6);
  }

  /** Place of a type in the older tables: unmoved copies come first. */
  function OldRank(k: nat): nat {
    if k == 3 then 0 else if k < 3 then k + 1 else k
  }

  /** Before version 2 the words have two or three bits and are numbered in the order of the ranks. */
  lemma {:induction false} OldWordsAreCanonical(version: nat, log2h: nat, log2w: nat, j: nat, k: nat)
    requires version <= 1 && Offered(log2h, log2w, j) && Offered(log2h, log2w, k) && OldRank(j) < OldRank(k)
    ensures var t := CodeTable(version, SizeIndex(log2h, log2w));
            && 2 <= t[j].1 <= t[k].1 <= 3
            && t[j].0 * Pow2(5 - t[j].1) < t[k].0 * Pow2(5 - t[k].1)
  {
    assert Pow2(0) == 1 && Pow2(1) == 2 && Pow2(2) == 4 && Pow2(3) == 8 && Pow2(4) == 16;
  }
}
