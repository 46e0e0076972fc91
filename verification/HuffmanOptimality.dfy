/** Huffman optimality: the merged forest never costs more than any code lengths that a
    binary prefix code could have. */
module HuffmanOptimality {
  import opened Sums
  import opened HuffmanForest

  ghost function KraftTerm(freq: seq<nat>, len: seq<nat>, m: nat): nat -> int {
    (i: nat) => if i < |freq| && i < |len| && freq[i] != 0 && len[i] <= m then Pow2(m - len[i]) else 0
  }

  /** Kraft sum of the live entries, scaled by 2^m. */
  ghost function Kraft(freq: seq<nat>, len: seq<nat>, m: nat): int {
    Sum(|freq|, KraftTerm(freq, len, m))
  }

  ghost function CostTerm(freq: seq<nat>, len: seq<nat>): nat -> int {
    (i: nat) => if i < |freq| && i < |len| then freq[i] * len[i] else 0
  }

  ghost function Cost(freq: seq<nat>, len: seq<nat>): int {
    Sum(|freq|, CostTerm(freq, len))
  }

  /** Lengths at most m whose Kraft sum is at most 1. */
  ghost predicate Fits(freq: seq<nat>, len: seq<nat>, m: nat) {
    && |len| == |freq|
    && (forall i :: Live(freq, i) ==> len[i] <= m)
    && Kraft(freq, len, m) <= Pow2(m)
  }

  ghost function DepthMark(f: Forest): nat -> int {
    (i: nat) => if i < |f.freq| && i < |f.tree| && f.freq[i] != 0 then DepthCost(f.tree[i]) else 0
  }

  ghost function TotalDepth(f: Forest): int {
    Sum(|f.freq|, DepthMark(f))
  }

  lemma {:induction false} ExchangeArithmetic(fi: nat, fj: nat, li: nat, lj: nat)
    requires fi <= fj && li <= lj
    ensures fi * lj + fj * li <= fi * li + fj * lj
  {
    var df, dl := fj - fi, lj - li;
    assert 0 <= df * dl;
    assert fi * li + fj * lj - fi * lj - fj * li == df * dl;
  }

  /** Exchanging lengths so that the heavier entry gets the shorter one never costs more. */
  lemma {:induction false} ExchangeCost(freq: seq<nat>, len: seq<nat>, i: nat, j: nat)
    requires |len| == |freq| && i < |freq| && j < |freq| && i != j
    requires freq[i] <= freq[j] && len[i] <= len[j]
    ensures Cost(freq, len[i := len[j]][j := len[i]]) <= Cost(freq, len)
  {
    var len' := len[i := len[j]][j := len[i]];
    SumUpdateTwo(|freq|, CostTerm(freq, len), CostTerm(freq, len'), i, j);
    ExchangeArithmetic(freq[i], freq[j], len[i], len[j]);
  }

  lemma {:induction false} ExchangeFits(freq: seq<nat>, len: seq<nat>, m: nat, i: nat, j: nat)
    requires Fits(freq, len, m) && Live(freq, i) && Live(freq, j) && i != j
    ensures Fits(freq, len[i := len[j]][j := len[i]], m)
  {
    var len' := len[i := len[j]][j := len[i]];
    SumUpdateTwo(|freq|, KraftTerm(freq, len, m), KraftTerm(freq, len', m), i, j);
  }

  lemma {:induction false} Exchange(freq: seq<nat>, len: seq<nat>, m: nat, i: nat, j: nat) returns (len': seq<nat>)
    requires Fits(freq, len, m) && Live(freq, i) && Live(freq, j)
    requires i != j ==> freq[i] <= freq[j] && len[i] <= len[j]
    ensures Fits(freq, len', m) && Cost(freq, len') <= Cost(freq, len)
    ensures len' == len[i := len[j]][j := len[i]]
  {
    len' := len[i := len[j]][j := len[i]];
    if i == j {
      assert len' == len;
    } else {
      ExchangeFits(freq, len, m, i, j);
      ExchangeCost(freq, len, i, j);
    }
  }

  lemma {:induction false} Longest(freq: seq<nat>, len: seq<nat>, skip: int, witnessed: nat) returns (x: nat)
    requires |len| == |freq| && Live(freq, witnessed) && witnessed != skip
    ensures Live(freq, x) && x != skip
    ensures forall i :: Live(freq, i) && i != skip ==> len[i] <= len[x]
  {
    x := witnessed;
    for k := 0 to |freq|
      invariant Live(freq, x) && x != skip
      invariant forall i :: 0 <= i < k && Live(freq, i) && i != skip ==> len[i] <= len[x]
    {
      if freq[k] != 0 && k != skip && len[x] < len[k] {
        x := k;
      }
    }
  }

  /** With all lengths at most l, the scaled Kraft sum is a multiple of 2^(m-l). */
  lemma {:induction false} KraftMultiple(n: nat, freq: seq<nat>, len: seq<nat>, m: nat, l: nat) returns (q: int)
    requires n <= |freq| == |len| && l <= m
    requires forall i :: Live(freq, i) ==> len[i] <= l
    ensures Sum(n, KraftTerm(freq, len, m)) == q * Pow2(m - l)
  {
    if n == 0 {
      q := 0;
    } else {
      q := KraftMultiple(n - 1, freq, len, m, l);
      if freq[n - 1] != 0 {
        assert Live(freq, n - 1);
        Pow2Add(l - len[n - 1], m - l);
        var p := Pow2(l - len[n - 1]);
        assert KraftTerm(freq, len, m)(n - 1) == p * Pow2(m - l);
        assert (q + p) * Pow2(m - l) == q * Pow2(m - l) + p * Pow2(m - l);
        q := q + p;
      }
    }
  }

  lemma {:induction false} PositiveFactor(d: int, u: nat)
    requires u > 0 && d * u > 0
    ensures d >= 1 && d * u >= u
  {
    assert d * u <= 0 || d >= 1;
    assert d * u == (d - 1) * u + u;
    assert (d - 1) * u >= 0;
  }

  lemma {:induction false} MultipleGap(q: int, u: nat, p: nat, t: nat)
    requires u > 0 && t > 0 && q * u + t <= p * u
    ensures (q + 1) * u <= p * u && q < p
  {
    assert (p - q) * u == p * u - q * u;
    PositiveFactor(p - q, u);
    assert (q + 1) * u == q * u + u;
  }

  /** The scaled Kraft sum without entry a is q * 2^(m-l) for some q below 2^l. */
  lemma {:induction false} ShrinkRest(freq: seq<nat>, len: seq<nat>, m: nat, a: nat, l: nat) returns (q: int)
    requires Fits(freq, len, m) && Live(freq, a) && l <= m
    requires forall i :: Live(freq, i) && i != a ==> len[i] <= l
    ensures Kraft(freq[a := 0], len, m) == q * Pow2(m - l)
    ensures (q + 1) * Pow2(m - l) <= Pow2(m) && q < Pow2(l)
  {
    var rest := freq[a := 0];
    SumUpdate(|freq|, KraftTerm(freq, len, m), KraftTerm(rest, len, m), a);
    forall i | Live(rest, i) ensures len[i] <= l {
      assert Live(freq, i);
    }
    q := KraftMultiple(|freq|, rest, len, m, l);
    Pow2Add(l, m - l);
    MultipleGap(q, Pow2(m - l), Pow2(l), Pow2(m - len[a]));
  }

  lemma {:induction false} ShrinkCost(freq: seq<nat>, len: seq<nat>, a: nat, l: nat)
    requires |len| == |freq| && a < |freq| && l <= len[a]
    ensures Cost(freq, len[a := l]) <= Cost(freq, len)
  {
    SumUpdate(|freq|, CostTerm(freq, len), CostTerm(freq, len[a := l]), a);
    assert freq[a] * (len[a] - l) >= 0;
    assert freq[a] * l == freq[a] * len[a] - freq[a] * (len[a] - l);
  }

  /** A single longest length may be cut down to the second longest, which is then at least 1. */
  lemma {:induction false} Shrink(freq: seq<nat>, len: seq<nat>, m: nat, a: nat, b: nat) returns (len': seq<nat>)
    requires Fits(freq, len, m) && Live(freq, a) && Live(freq, b) && a != b
    requires len[b] <= len[a] && forall i :: Live(freq, i) && i != a ==> len[i] <= len[b]
    ensures Fits(freq, len', m) && Cost(freq, len') <= Cost(freq, len)
    ensures len' == len[a := len[b]] && len[b] >= 1
  {
    var l := len[b];
    len' := len[a := l];
    var rest := freq[a := 0];
    var q := ShrinkRest(freq, len, m, a, l);
    SumUpdate(|freq|, KraftTerm(rest, len, m), KraftTerm(freq, len', m), a);
    assert Kraft(freq, len', m) == q * Pow2(m - l) + Pow2(m - l) == (q + 1) * Pow2(m - l);
    SumAtLeast(|freq|, KraftTerm(rest, len, m), b);
    PositiveFactor(q, Pow2(m - l));
    ShrinkCost(freq, len, a, l);
  }

  /** Any fitting lengths can be rearranged, at no extra cost, so that the two smallest
      entries share one length of at least 1. */
  lemma {:induction false} Rearrange(freq: seq<nat>, len: seq<nat>, m: nat, a: nat, b: nat) returns (len': seq<nat>)
    requires Fits(freq, len, m) && TwoSmallest(freq, a, b)
    ensures Fits(freq, len', m) && Cost(freq, len') <= Cost(freq, len)
    ensures len'[a] == len'[b] >= 1
  {
    var x := Longest(freq, len, -1, a);
    var l1 := Exchange(freq, len, m, a, x);
    var y := Longest(freq, l1, a, b);
    var l2 := Exchange(freq, l1, m, b, y);
    len' := Shrink(freq, l2, m, a, b);
  }

  lemma {:induction false} MergeArithmetic(fa: nat, fb: nat, l: nat)
    requires l >= 1
    ensures (fa + fb) * (l - 1) == fa * l + fb * l - fa - fb
  {
  }

  lemma {:induction false} MergeCost(f: Forest, len: seq<nat>, l: nat)
    requires |f.freq| == |f.tree| == |len| && HasTwo(f.freq)
    requires var (a, b) := Smallest(f.freq); len[a] == len[b] == l >= 1
    ensures var (a, b) := Smallest(f.freq);
            Cost(Step(f).freq, len + [l - 1]) == Cost(f.freq, len) - f.freq[a] - f.freq[b]
  {
    var (a, b) := Smallest(f.freq);
    var g, h := CostTerm(f.freq, len), CostTerm(Step(f).freq, len + [l - 1]);
    SumUpdateTwo(|f.freq|, g, h, a, b);
    MergeArithmetic(f.freq[a], f.freq[b], l);
    assert h(|f.freq|) == (f.freq[a] + f.freq[b]) * (l - 1);
    assert h(a) == h(b) == 0;
  }

  lemma {:induction false} MergeFits(f: Forest, len: seq<nat>, m: nat, l: nat)
    requires |f.freq| == |f.tree| && HasTwo(f.freq) && Fits(f.freq, len, m)
    requires var (a, b) := Smallest(f.freq); len[a] == len[b] == l >= 1
    ensures Fits(Step(f).freq, len + [l - 1], m)
  {
    var (a, b) := Smallest(f.freq);
    var n := |f.freq|;
    var len' := len + [l - 1];
    var fs := Step(f).freq;
    assert Live(f.freq, a) && Live(f.freq, b);
    SumUpdateTwo(n, KraftTerm(f.freq, len, m), KraftTerm(fs, len', m), a, b);
    assert Pow2(m - (l - 1)) == 2 * Pow2(m - l);
    forall i | Live(fs, i) ensures len'[i] <= m {
      if i < n {
        assert Live(f.freq, i);
      }
    }
  }

  /** A merge adds the two merged weights to the total depth cost. */
  lemma {:induction false} StepDepth(f: Forest, table: seq<nat>)
    requires Inv(f, table) && |f.freq| < NODES && HasTwo(f.freq)
    ensures var (a, b) := Smallest(f.freq);
            TotalDepth(Step(f)) == TotalDepth(f) + f.freq[a] + f.freq[b]
  {
    var (a, b) := Smallest(f.freq);
    assert SoundAt(f, table, a) && SoundAt(f, table, b);
    SumUpdateTwo(|f.freq|, DepthMark(f), DepthMark(Step(f)), a, b);
  }

  /** Lengths for the merged forest that account for the added depth cost. */
  lemma {:induction false} StepOptimal(f: Forest, table: seq<nat>, len: seq<nat>, m: nat) returns (len': seq<nat>)
    requires Inv(f, table) && |f.freq| < NODES && HasTwo(f.freq) && Fits(f.freq, len, m)
    ensures Fits(Step(f).freq, len', m)
    ensures TotalDepth(Step(f)) + Cost(Step(f).freq, len') <= TotalDepth(f) + Cost(f.freq, len)
  {
    var (a, b) := Smallest(f.freq);
    var l1 := Rearrange(f.freq, len, m, a, b);
    len' := l1 + [l1[a] - 1];
    MergeFits(f, l1, m, l1[a]);
    MergeCost(f, l1, l1[a]);
    StepDepth(f, table);
  }

  /** Greedy merging is optimal among all lengths that satisfy the Kraft inequality. */
  lemma {:induction false} RunOptimal(f: Forest, table: seq<nat>, len: seq<nat>, m: nat)
    requires Inv(f, table) && Fits(f.freq, len, m)
    ensures TotalDepth(Run(f)) <= TotalDepth(f) + Cost(f.freq, len)
    decreases NODES - |f.freq|
  {
    if |f.freq| < NODES && HasTwo(f.freq) {
      var len' := StepOptimal(f, table, len, m);
      StepInv(f, table);
      RunOptimal(Step(f), table, len', m);
    } else {
      CostNonNegative(f.freq, len);
    }
  }

  lemma {:induction false} CostNonNegative(freq: seq<nat>, len: seq<nat>)
    ensures Cost(freq, len) >= 0
  {
    forall i: nat | i < |freq| ensures CostTerm(freq, len)(i) >= 0 {
      if i < |len| {
        assert freq[i] * len[i] >= 0;
      }
    }
    SumNonNegative(|freq|, CostTerm(freq, len));
  }

  // Prefix codes

  /** No live code word is a prefix of another one. */
  ghost predicate PrefixFree(freq: seq<nat>, code: seq<seq<bool>>) {
    && |code| == |freq|
    && forall i, j :: Live(freq, i) && Live(freq, j) && i != j ==> !(code[i] <= code[j])
  }

  ghost function Lengths(code: seq<seq<bool>>): (len: seq<nat>)
    ensures |len| == |code| && forall i :: 0 <= i < |code| ==> len[i] == |code[i]|
  {
    seq(|code|, i requires 0 <= i < |code| => |code[i]|)
  }

  /** The entries whose word starts with bit, and every word without its first bit. */
  ghost function Branch(freq: seq<nat>, code: seq<seq<bool>>, bit: bool): (r: seq<nat>)
    requires |code| == |freq|
    ensures |r| == |freq|
    ensures forall i :: Live(r, i) ==> Live(freq, i) && code[i] != [] && code[i][0] == bit
  {
    seq(|freq|, i requires 0 <= i < |freq| => if code[i] != [] && code[i][0] == bit then freq[i] else 0)
  }

  ghost function Tails(code: seq<seq<bool>>): (r: seq<seq<bool>>)
    ensures |r| == |code| && forall i :: 0 <= i < |code| && code[i] != [] ==> r[i] == code[i][1..]
  {
    seq(|code|, i requires 0 <= i < |code| => if code[i] == [] then [] else code[i][1..])
  }

  lemma {:induction false} ConsPrefix(bit: bool, s: seq<bool>, t: seq<bool>)
    ensures s <= t ==> [bit] + s <= [bit] + t
  {
  }

  lemma {:induction false} BranchPrefixFree(freq: seq<nat>, code: seq<seq<bool>>, bit: bool)
    requires PrefixFree(freq, code)
    ensures PrefixFree(Branch(freq, code, bit), Tails(code))
  {
    var r := Branch(freq, code, bit);
    forall i, j | Live(r, i) && Live(r, j) && i != j ensures !(Tails(code)[i] <= Tails(code)[j]) {
      assert code[i] == [bit] + Tails(code)[i];
      assert code[j] == [bit] + Tails(code)[j];
      assert Live(freq, i) && Live(freq, j);
      ConsPrefix(bit, Tails(code)[i], Tails(code)[j]);
    }
  }

  /** A prefix-free code with an empty word has no other word. */
  lemma {:induction false} KraftEmptyWord(freq: seq<nat>, code: seq<seq<bool>>, m: nat, e: nat)
    requires PrefixFree(freq, code) && Live(freq, e) && code[e] == []
    ensures Kraft(freq, Lengths(code), m) == Pow2(m)
  {
    var g := KraftTerm(freq, Lengths(code), m);
    assert forall i :: 0 <= i < |code| ==> code[e] <= code[i];
    forall i: nat | i < |freq| && i != e ensures g(i) == 0 {
      assert !Live(freq, i);
    }
    var o := (i: nat) => 0;
    SumUpdate(|freq|, o, g, e);
    SumZero(|freq|, o);
  }

  /** The scaled Kraft sum splits by first bit. */
  lemma {:induction false} KraftSplit(freq: seq<nat>, code: seq<seq<bool>>, m: nat)
    requires |code| == |freq| && m > 0
    requires forall i :: Live(freq, i) ==> code[i] != []
    ensures Kraft(freq, Lengths(code), m)
         == Kraft(Branch(freq, code, false), Lengths(Tails(code)), m - 1)
          + Kraft(Branch(freq, code, true), Lengths(Tails(code)), m - 1)
  {
    var len := Lengths(Tails(code));
    var g := KraftTerm(freq, Lengths(code), m);
    var g0 := KraftTerm(Branch(freq, code, false), len, m - 1);
    var g1 := KraftTerm(Branch(freq, code, true), len, m - 1);
    forall i: nat | i < |freq| ensures g(i) == g0(i) + g1(i) {
      if Live(freq, i) {
        assert len[i] == |code[i]| - 1;
      }
    }
    SumAdd(|freq|, g0, g1, g);
  }

  /** The Kraft inequality for prefix codes. */
  lemma {:induction false} KraftInequality(freq: seq<nat>, code: seq<seq<bool>>, m: nat)
    requires PrefixFree(freq, code) && forall i :: Live(freq, i) ==> |code[i]| <= m
    ensures Kraft(freq, Lengths(code), m) <= Pow2(m)
    decreases m
  {
    if e :| Live(freq, e) && code[e] == [] {
      KraftEmptyWord(freq, code, m, e);
    } else if m == 0 {
      forall i: nat | i < |freq| ensures KraftTerm(freq, Lengths(code), m)(i) == 0 {
        assert !Live(freq, i);
      }
      SumZero(|freq|, KraftTerm(freq, Lengths(code), m));
    } else {
      BranchPrefixFree(freq, code, false);
      BranchPrefixFree(freq, code, true);
      KraftInequality(Branch(freq, code, false), Tails(code), m - 1);
      KraftInequality(Branch(freq, code, true), Tails(code), m - 1);
      KraftSplit(freq, code, m);
    }
  }

  ghost function MaxLength(code: seq<seq<bool>>): (m: nat)
    ensures forall i :: 0 <= i < |code| ==> |code[i]| <= m
  {
    if code == [] then 0
    else
      var m := MaxLength(code[..|code| - 1]);
      var c := code[|code| - 1];
      assert forall i :: 0 <= i < |code| - 1 ==> code[i] == code[..|code| - 1][i];
      if |c| > m then |c| else m
  }

  lemma {:induction false} StartDepth(table: seq<nat>)
    ensures TotalDepth(Start(table)) == 0
  {
    SumZero(|table|, DepthMark(Start(table)));
  }

  /** The forest built from a table costs at most as much as any prefix code for it. */
  lemma {:induction false} PrefixCodeOptimal(table: seq<nat>, code: seq<seq<bool>>)
    requires |table| == SYMBOLS && PrefixFree(table, code)
    ensures TotalDepth(Run(Start(table))) <= Cost(table, Lengths(code))
  {
    var m := MaxLength(code);
    KraftInequality(table, code, m);
    StartInv(table);
    StartDepth(table);
    RunOptimal(Start(table), table, Lengths(code), m);
  }
}
