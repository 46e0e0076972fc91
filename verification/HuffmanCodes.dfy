/** Code words: the bits met on the way up from a symbol, and what they guarantee. */
module HuffmanCodes {
  import opened Sums
  import opened HuffmanForest
  import opened HuffmanOptimality

  /** Branch bits from the root of t to leaf s. */
  ghost function Path(t: Tree, s: nat): (p: seq<bool>)
    requires s in Leaves(t)
    ensures |p| <= Height(t)
  {
    match t
    case Leaf(_, _) => []
    case Node(_, l, r) => if s in Leaves(l) then [false] + Path(l, s) else [true] + Path(r, s)
  }

  ghost predicate Rising(up: seq<int>) {
    forall i :: 0 <= i < |up| ==> up[i] == -1 || i < up[i] < |up|
  }

  /** Bits collected by climbing the parent links from n, root bit first. */
  ghost function Walk(up: seq<int>, flag: seq<nat>, n: nat): seq<bool>
    requires Rising(up) && |flag| == |up| && n < |up|
    decreases |up| - n
  {
    if up[n] == -1 then [] else Walk(up, flag, up[n]) + [flag[n] == 1]
  }

  /** The node k steps above n, or -1 beyond the root. */
  ghost function Ancestor(up: seq<int>, n: int, k: nat): int
    requires Rising(up)
    decreases k
  {
    if k == 0 || !(0 <= n < |up|) then n else Ancestor(up, up[n], k - 1)
  }

  /** The climb has as many bits as n has ancestors, and counted from its end they are the branch
      flags of n, its parent, and so on. */
  lemma {:induction false} WalkIsFlags(up: seq<int>, flag: seq<nat>, n: nat, k: nat)
    requires Rising(up) && |flag| == |up| && n < |up| && k <= |Walk(up, flag, n)|
    ensures 0 <= Ancestor(up, n, k) < |up|
    ensures k == |Walk(up, flag, n)| <==> up[Ancestor(up, n, k)] == -1
    ensures k < |Walk(up, flag, n)| ==>
              (Walk(up, flag, n)[|Walk(up, flag, n)| - 1 - k] <==> flag[Ancestor(up, n, k)] == 1)
    decreases k
  {
    if k > 0 {
      WalkIsFlags(up, flag, up[n], k - 1);
    }
  }

  /** What the links say about node i: a climb ends at live and unused nodes, and the children
      of an inner node point back at it with branch flags 0 and 1. */
  ghost predicate LinkedAt(f: Forest, table: seq<nat>, up: seq<int>, flag: seq<nat>, i: nat)
    requires |table| == SYMBOLS && |f.freq| == |f.tree| <= NODES == |up| == |flag| && i < NODES
  {
    && (up[i] == -1 || (i < up[i] < NODES && flag[i] <= 1))
    && (i < |f.tree| && f.tree[i].Node? ==> LinkedKids(f.tree[i], up, flag))
    && (i >= |f.freq| || f.freq[i] != 0 ==> up[i] == -1)
    && (i < SYMBOLS && table[i] == 0 ==> up[i] == -1)
  }

  /** Parent links and branch flags describe exactly the trees of the forest. */
  ghost predicate Linked(f: Forest, table: seq<nat>, up: seq<int>, flag: seq<nat>)
    requires |table| == SYMBOLS <= |f.freq| == |f.tree| <= NODES
  {
    && |up| == |flag| == NODES && Rising(up)
    && forall i: nat :: i < NODES ==> LinkedAt(f, table, up, flag, i)
  }

  ghost predicate LinkedKids(t: Tree, up: seq<int>, flag: seq<nat>)
    requires t.Node? && |up| == |flag|
  {
    && t.left.id < |up| && t.right.id < |up|
    && up[t.left.id] == t.id && up[t.right.id] == t.id
    && flag[t.left.id] == 0 && flag[t.right.id] == 1
  }

  /** Climbing from a leaf of the tree at node i yields the path inside it after i's own climb. */
  lemma {:induction false} WalkIsPath(f: Forest, table: seq<nat>, up: seq<int>, flag: seq<nat>, i: nat, s: nat)
    requires Inv(f, table) && Linked(f, table, up, flag)
    requires i < |f.tree| && s in Leaves(f.tree[i])
    ensures s < NODES && Walk(up, flag, s) == Walk(up, flag, i) + Path(f.tree[i], s)
    decreases i
  {
    assert Shaped(f, i);
    var t := f.tree[i];
    if t.Node? {
      assert LinkedAt(f, table, up, flag, i);
      var (k, bit) := if s in Leaves(t.left) then (t.left, false) else (t.right, true);
      assert f.tree[k.id] == k;
      WalkIsPath(f, table, up, flag, k.id, s);
      assert Walk(up, flag, k.id) == Walk(up, flag, i) + [bit];
      assert Path(t, s) == [bit] + Path(k, s);
    }
  }

  /** The word collected for a symbol is its path in the live tree that owns it. */
  lemma {:induction false} SymbolWalk(f: Forest, table: seq<nat>, up: seq<int>, flag: seq<nat>, i: nat, s: nat)
    requires Inv(f, table) && Linked(f, table, up, flag) && OwnedAt(f, s, i)
    ensures s < NODES && Walk(up, flag, s) == Path(f.tree[i], s)
  {
    assert LinkedAt(f, table, up, flag, i);
    WalkIsPath(f, table, up, flag, i, s);
    assert Walk(up, flag, i) == [];
  }

  // One tree

  lemma {:induction false} PathPrefixFree(t: Tree, table: seq<nat>, s1: nat, s2: nat)
    requires Sound(t, table) && s1 in Leaves(t) && s2 in Leaves(t) && s1 != s2
    ensures !(Path(t, s1) <= Path(t, s2))
  {
    var (l, r) := (t.left, t.right);
    if s1 in Leaves(l) && s2 in Leaves(l) {
      PathPrefixFree(l, table, s1, s2);
      assert Path(l, s1) == Path(t, s1)[1..] && Path(l, s2) == Path(t, s2)[1..];
    } else if s1 in Leaves(r) && s2 in Leaves(r) {
      PathPrefixFree(r, table, s1, s2);
      assert Path(r, s1) == Path(t, s1)[1..] && Path(r, s2) == Path(t, s2)[1..];
    } else {
      assert Path(t, s1)[0] != Path(t, s2)[0];
    }
  }

  ghost function TreeKraft(t: Tree, k: nat): nat -> int {
    (s: nat) => if s in Leaves(t) && |Path(t, s)| <= k then Pow2(k - |Path(t, s)|) else 0
  }

  lemma {:induction false} LeavesInTable(t: Tree, table: seq<nat>, s: nat)
    requires Sound(t, table) && s in Leaves(t)
    ensures s < |table| && table[s] > 0
  {
    if t.Node? {
      if s in Leaves(t.left) {
        LeavesInTable(t.left, table, s);
      } else {
        LeavesInTable(t.right, table, s);
      }
    }
  }

  lemma {:induction false} TreeKraftStep(t: Tree, table: seq<nat>, k: nat, s: nat)
    requires t.Node? && Sound(t, table) && k > 0
    ensures TreeKraft(t, k)(s) == TreeKraft(t.left, k - 1)(s) + TreeKraft(t.right, k - 1)(s)
  {
    if s in Leaves(t.left) {
      assert s !in Leaves(t.right);
      assert |Path(t, s)| == |Path(t.left, s)| + 1;
    } else if s in Leaves(t.right) {
      assert |Path(t, s)| == |Path(t.right, s)| + 1;
    }
  }

  /** A sum with a single non-zero term. */
  lemma {:induction false} SumSingle(n: nat, g: nat -> int, k: nat)
    requires k < n && forall i: nat :: i < n && i != k ==> g(i) == 0
    ensures Sum(n, g) == g(k)
  {
    var o := (i: nat) => 0;
    SumZero(n, o);
    SumUpdate(n, o, g, k);
  }

  lemma {:induction false} KraftOfLeaf(t: Tree, table: seq<nat>, k: nat)
    requires Sound(t, table) && t.Leaf?
    ensures Sum(|table|, TreeKraft(t, k)) == Pow2(k)
  {
    var g := TreeKraft(t, k);
    forall s: nat | s < |table| && s != t.id ensures g(s) == 0 {
      assert s !in Leaves(t);
    }
    SumSingle(|table|, g, t.id);
    assert t.id in Leaves(t) && Path(t, t.id) == [];
  }

  /** The Kraft sum over the leaves of one tree is exactly 1. */
  lemma {:induction false} KraftOfTree(t: Tree, table: seq<nat>, k: nat)
    requires Sound(t, table) && Height(t) <= k
    ensures Sum(|table|, TreeKraft(t, k)) == Pow2(k)
  {
    hide TreeKraft, Path, Sum;
    if t.Leaf? {
      KraftOfLeaf(t, table, k);
    } else {
      KraftOfTree(t.left, table, k - 1);
      KraftOfTree(t.right, table, k - 1);
      forall s: nat | s < |table|
        ensures TreeKraft(t, k)(s) == TreeKraft(t.left, k - 1)(s) + TreeKraft(t.right, k - 1)(s)
      {
        TreeKraftStep(t, table, k, s);
      }
      SumAdd(|table|, TreeKraft(t.left, k - 1), TreeKraft(t.right, k - 1), TreeKraft(t, k));
    }
  }

  ghost function TreeWeight(t: Tree, table: seq<nat>): nat -> int {
    (s: nat) => if s < |table| && s in Leaves(t) then table[s] else 0
  }

  ghost function TreeCost(t: Tree, table: seq<nat>): nat -> int {
    (s: nat) => if s < |table| && s in Leaves(t) then table[s] * |Path(t, s)| else 0
  }

  lemma {:induction false} WeightOfTree(t: Tree, table: seq<nat>)
    requires Sound(t, table)
    ensures Sum(|table|, TreeWeight(t, table)) == Weight(t)
  {
    var g := TreeWeight(t, table);
    if t.Leaf? {
      forall s: nat | s < |table| && s != t.id ensures g(s) == 0 {
        assert s !in Leaves(t);
      }
      SumSingle(|table|, g, t.id);
      assert t.id in Leaves(t);
    } else {
      WeightOfTree(t.left, table);
      WeightOfTree(t.right, table);
      forall s: nat | s < |table| ensures g(s) == TreeWeight(t.left, table)(s) + TreeWeight(t.right, table)(s) {
        assert s in Leaves(t) <==> s in Leaves(t.left) || s in Leaves(t.right);
        assert !(s in Leaves(t.left) && s in Leaves(t.right));
      }
      SumAdd(|table|, TreeWeight(t.left, table), TreeWeight(t.right, table), g);
    }
  }

  lemma {:induction false} OneMore(w: nat, d: nat)
    ensures w * (d + 1) == w * d + w
  {
  }

  lemma {:induction false} TreeCostStep(t: Tree, table: seq<nat>, s: nat)
    requires t.Node? && Sound(t, table)
    ensures TreeCost(t, table)(s) == TreeCost(t.left, table)(s) + TreeWeight(t.left, table)(s)
                                   + TreeCost(t.right, table)(s) + TreeWeight(t.right, table)(s)
  {
    if s < |table| && s in Leaves(t) {
      var k := if s in Leaves(t.left) then t.left else t.right;
      assert |Path(t, s)| == |Path(k, s)| + 1;
      OneMore(table[s], |Path(k, s)|);
    }
  }

  /** Frequency times path length, summed over the leaves, is the tree's depth cost. */
  lemma {:induction false} CostOfTree(t: Tree, table: seq<nat>)
    requires Sound(t, table)
    ensures Sum(|table|, TreeCost(t, table)) == DepthCost(t)
  {
    var n := |table|;
    if t.Leaf? {
      assert TreeCost(t, table)(t.id) == 0;
      SumZero(n, TreeCost(t, table));
    } else {
      CostOfTree(t.left, table);
      CostOfTree(t.right, table);
      WeightOfTree(t.left, table);
      WeightOfTree(t.right, table);
      var a := (s: nat) => TreeCost(t.left, table)(s) + TreeWeight(t.left, table)(s);
      var b := (s: nat) => TreeCost(t.right, table)(s) + TreeWeight(t.right, table)(s);
      SumAdd(n, TreeCost(t.left, table), TreeWeight(t.left, table), a);
      SumAdd(n, TreeCost(t.right, table), TreeWeight(t.right, table), b);
      forall s: nat | s < n ensures TreeCost(t, table)(s) == a(s) + b(s) {
        TreeCostStep(t, table, s);
      }
      SumAdd(n, a, b, TreeCost(t, table));
    }
  }

  ghost function Zeros(n: nat): (z: seq<bool>)
    ensures |z| == n && forall i :: 0 <= i < n ==> !z[i]
  {
    if n == 0 then [] else [false] + Zeros(n - 1)
  }

  /** Every tree has a leaf whose word is all zeros. */
  lemma {:induction false} Leftmost(t: Tree, table: seq<nat>) returns (s: nat)
    requires Sound(t, table)
    ensures s in Leaves(t) && Path(t, s) == Zeros(|Path(t, s)|)
  {
    if t.Leaf? {
      s := t.id;
    } else {
      s := Leftmost(t.left, table);
      assert Path(t, s) == [false] + Path(t.left, s);
    }
  }

  // The code of a finished forest

  /** Every used symbol carries its path in the live tree that owns it. */
  ghost predicate Coded(f: Forest, table: seq<nat>, code: seq<seq<bool>>)
    requires |f.freq| == |f.tree| && |table| == SYMBOLS
  {
    && |code| == SYMBOLS
    && forall i: nat, s: nat :: OwnedAt(f, s, i) && s < SYMBOLS ==> code[s] == Path(f.tree[i], s)
  }

  /** Active symbols have non-empty words and no word is a prefix of another. */
  ghost predicate Usable(table: seq<nat>, code: seq<seq<bool>>)
  {
    PrefixFree(table, code) && forall s :: Live(table, s) ==> code[s] != []
  }

  lemma {:induction false} OwnerOf(f: Forest, table: seq<nat>, code: seq<seq<bool>>, s: nat) returns (i: nat)
    requires Inv(f, table) && Coded(f, table, code) && s < SYMBOLS && table[s] != 0
    ensures OwnedAt(f, s, i) && code[s] == Path(f.tree[i], s)
    ensures Sound(f.tree[i], table) && f.freq[i] == Weight(f.tree[i])
  {
    assert Owned(f, s);
    i :| OwnedAt(f, s, i);
    assert SoundAt(f, table, i);
  }

  /** With one live tree the words are prefix-free, non-empty, and their Kraft sum is 1. */
  lemma {:induction false} OneTreeUsable(f: Forest, table: seq<nat>, code: seq<seq<bool>>, i: nat)
    requires Inv(f, table) && Coded(f, table, code) && HasTwo(table)
    requires Live(f.freq, i) && forall j :: Live(f.freq, j) ==> j == i
    ensures Usable(table, code)
  {
    assert SoundAt(f, table, i);
    forall s1, s2 | Live(table, s1) && Live(table, s2) && s1 != s2 ensures !(code[s1] <= code[s2]) {
      var i1 := OwnerOf(f, table, code, s1);
      var i2 := OwnerOf(f, table, code, s2);
      PathPrefixFree(f.tree[i], table, s1, s2);
    }
    forall s | Live(table, s) ensures code[s] != [] {
      var a, b :| Live(table, a) && Live(table, b) && a < b;
      var other := if s == a then b else a;
      assert !(code[s] <= code[other]);
    }
  }

  lemma {:induction false} OneTreeKraftTerm(f: Forest, table: seq<nat>, code: seq<seq<bool>>, i: nat, m: nat, s: nat)
    requires Inv(f, table) && Coded(f, table, code) && s < SYMBOLS
    requires Live(f.freq, i) && forall j :: Live(f.freq, j) ==> j == i
    ensures KraftTerm(table, Lengths(code), m)(s) == TreeKraft(f.tree[i], m)(s)
  {
    assert SoundAt(f, table, i);
    if table[s] != 0 {
      var j := OwnerOf(f, table, code, s);
    } else if s in Leaves(f.tree[i]) {
      LeavesInTable(f.tree[i], table, s);
    }
  }

  lemma {:induction false} OneTreeKraft(f: Forest, table: seq<nat>, code: seq<seq<bool>>, i: nat, m: nat)
    requires Inv(f, table) && Coded(f, table, code)
    requires Live(f.freq, i) && forall j :: Live(f.freq, j) ==> j == i
    requires Height(f.tree[i]) <= m
    ensures Kraft(table, Lengths(code), m) == Pow2(m)
  {
    assert SoundAt(f, table, i);
    KraftOfTree(f.tree[i], table, m);
    forall s: nat | s < SYMBOLS
      ensures KraftTerm(table, Lengths(code), m)(s) == TreeKraft(f.tree[i], m)(s)
    {
      OneTreeKraftTerm(f, table, code, i, m, s);
    }
    SumExt(SYMBOLS, KraftTerm(table, Lengths(code), m), TreeKraft(f.tree[i], m));
  }

  lemma {:induction false} OneTreeCost(f: Forest, table: seq<nat>, code: seq<seq<bool>>, i: nat)
    requires Inv(f, table) && Coded(f, table, code)
    requires Live(f.freq, i) && forall j :: Live(f.freq, j) ==> j == i
    ensures Cost(table, Lengths(code)) == TotalDepth(f)
  {
    hide Path, Run, Shaped, Separates;
    var t := f.tree[i];
    assert SoundAt(f, table, i);
    CostOfTree(t, table);
    forall s: nat | s < SYMBOLS
      ensures CostTerm(table, Lengths(code))(s) == TreeCost(t, table)(s)
    {
      if table[s] != 0 {
        var j := OwnerOf(f, table, code, s);
      }
    }
    SumExt(SYMBOLS, CostTerm(table, Lengths(code)), TreeCost(t, table));
    forall k: nat | k < |f.freq| && k != i ensures DepthMark(f)(k) == 0 {
      assert !Live(f.freq, k);
    }
    SumSingle(|f.freq|, DepthMark(f), i);
  }

  /** Two live trees each own an all-zero word, so one of those is a prefix of the other. */
  lemma {:induction false} TwoTreesUnusable(f: Forest, table: seq<nat>, code: seq<seq<bool>>)
    requires Inv(f, table) && Coded(f, table, code) && HasTwo(f.freq)
    ensures !PrefixFree(table, code)
  {
    var i, j :| Live(f.freq, i) && Live(f.freq, j) && i < j;
    assert SoundAt(f, table, i) && SoundAt(f, table, j) && Apart(f, i, j);
    var s := Leftmost(f.tree[i], table);
    var t := Leftmost(f.tree[j], table);
    LeavesInTable(f.tree[i], table, s);
    LeavesInTable(f.tree[j], table, t);
    assert OwnedAt(f, s, i) && OwnedAt(f, t, j);
    assert s != t && Live(table, s) && Live(table, t);
    assert code[s] <= code[t] || code[t] <= code[s];
  }

  // Reading symbols back

  ghost predicate Matches(table: seq<nat>, code: seq<seq<bool>>, stream: seq<bool>, s: nat)
    requires |code| == |table|
  {
    Live(table, s) && code[s] != [] && code[s] <= stream
  }

  /** What the table lookup does: take the symbol whose word starts the stream, and go on. */
  ghost function Decode(table: seq<nat>, code: seq<seq<bool>>, stream: seq<bool>): seq<nat>
    requires |code| == |table|
    decreases |stream|
  {
    if s: nat :| Matches(table, code, stream, s) then [s] + Decode(table, code, stream[|code[s]|..]) else []
  }

  ghost function Encode(code: seq<seq<bool>>, message: seq<nat>): seq<bool>
    requires forall k :: 0 <= k < |message| ==> message[k] < |code|
  {
    if message == [] then [] else code[message[0]] + Encode(code, message[1..])
  }

  lemma {:induction false} OneStream(a: seq<bool>, b: seq<bool>, stream: seq<bool>)
    requires a <= stream && b <= stream
    ensures a <= b || b <= a
  {
  }

  /** Looking words up from the front of an encoded message gives the message back. */
  lemma {:induction false} RoundTrip(table: seq<nat>, code: seq<seq<bool>>, message: seq<nat>)
    requires Usable(table, code)
    requires forall k :: 0 <= k < |message| ==> Live(table, message[k])
    ensures Decode(table, code, Encode(code, message)) == message
    decreases |message|
  {
    var stream := Encode(code, message);
    if message != [] {
      var s := message[0];
      assert Live(table, s);
      var rest := Encode(code, message[1..]);
      assert stream == code[s] + rest;
      assert Matches(table, code, stream, s);
      forall t: nat | Matches(table, code, stream, t) ensures t == s {
        assert Live(table, t);
        OneStream(code[t], code[s], stream);
      }
      assert stream[|code[s]|..] == rest;
      RoundTrip(table, code, message[1..]);
      assert message == [s] + message[1..];
    }
  }

  /** In a complete code, every long enough stream starts with some symbol's word. */
  lemma {:induction false} Descend(t: Tree, table: seq<nat>, stream: seq<bool>) returns (s: nat)
    requires Sound(t, table) && Height(t) <= |stream|
    ensures s in Leaves(t) && Path(t, s) <= stream
  {
    if t.Leaf? {
      s := t.id;
    } else {
      var k := if stream[0] then t.right else t.left;
      s := Descend(k, table, stream[1..]);
      assert Path(t, s) == [stream[0]] + Path(k, s);
      assert stream == [stream[0]] + stream[1..];
    }
  }

  // Words as integers

  ghost function BitsValue(c: seq<bool>): nat {
    if c == [] then 0 else (if c[0] then Pow2(|c| - 1) else 0) + BitsValue(c[1..])
  }

  /** The len low bits of v, highest first: what the table initialiser reads from (bits, len). */
  ghost function BitString(v: nat, len: nat): (c: seq<bool>)
    ensures |c| == len
  {
    if len == 0 then [] else [v / Pow2(len - 1) % 2 == 1] + BitString(v, len - 1)
  }

  lemma {:induction false} BitsBound(c: seq<bool>)
    ensures BitsValue(c) < Pow2(|c|)
  {
    if c != [] {
      BitsBound(c[1..]);
    }
  }

  lemma {:induction false} LowBitsOnly(v: nat, p: nat, b: nat)
    requires p > 0 && v < p && b < 2
    ensures (b * p + v) / p % 2 == b
  {
    assert (b * p + v) / p == b;
  }

  lemma {:induction false} Reassociate(q: nat, p: nat)
    ensures q * (2 * p) == (2 * q) * p
  {
  }

  lemma {:induction false} AddMultiple(v: nat, p: nat, k: nat)
    requires p > 0
    ensures (v + k * p) / p == v / p + k
  {
    var d, r := v / p, v % p;
    assert v == d * p + r;
    assert v + k * p == (d + k) * p + r;
    DivideUnique(v + k * p, p, d + k, r);
  }

  lemma {:induction false} DivideUnique(x: nat, p: nat, q: nat, r: nat)
    requires p > 0 && r < p && x == q * p + r
    ensures x / p == q
  {
    var n: int := p;
    var d := x / n - q;
    assert d * n == x / n * n - q * n;
    assert x == x / n * n + x % n;
    assert d >= 1 ==> d * n >= n;
    assert d <= -1 ==> d * n <= -n;
  }

  lemma {:induction false} EvenShift(d: nat, q: nat)
    ensures (d + 2 * q) % 2 == d % 2
  {
  }

  /** BitString only depends on the value modulo 2^len. */
  lemma {:induction false} BitStringOfSum(v: nat, len: nat, q: nat)
    ensures BitString(v + q * Pow2(len), len) == BitString(v, len)
  {
    hide BitString;
    if len == 0 {
      BitStringEmpty(v, v + q * Pow2(len));
    } else {
      var p := Pow2(len - 1);
      Reassociate(q, p);
      AddMultiple(v, p, 2 * q);
      EvenShift(v / p, q);
      BitStringOfSum(v, len - 1, 2 * q);
      BitStringStep(v, v + (2 * q) * p, len);
    }
  }

  lemma {:induction false} BitStringEmpty(v: nat, w: nat)
    ensures BitString(v, 0) == BitString(w, 0)
  {
  }

  lemma {:induction false} BitStringStep(v: nat, w: nat, len: nat)
    requires len > 0 && w / Pow2(len - 1) % 2 == v / Pow2(len - 1) % 2
    requires BitString(w, len - 1) == BitString(v, len - 1)
    ensures BitString(w, len) == BitString(v, len)
  {
  }

  /** Storing a word as (bits, len) loses nothing. */
  lemma {:induction false} BitsRoundTrip(c: seq<bool>)
    ensures BitString(BitsValue(c), |c|) == c
  {
    if c != [] {
      BitsRoundTrip(c[1..]);
      BitsBound(c[1..]);
      var b := if c[0] then 1 else 0;
      var p := Pow2(|c| - 1);
      LowBitsOnly(BitsValue(c[1..]), p, b);
      BitStringOfSum(BitsValue(c[1..]), |c| - 1, b);
      assert BitsValue(c) == b * p + BitsValue(c[1..]);
    }
  }

  /** Collecting one more bit above len lower ones adds it shifted by len. */
  lemma {:induction false} BitsPrepend(b: bool, c: seq<bool>)
    ensures BitsValue([b] + c) == (if b then Pow2(|c|) else 0) + BitsValue(c)
  {
    assert ([b] + c)[1..] == c;
  }

  /** Bit k of the integer is the k-th last bit of the string. */
  lemma {:induction false} BitOfValue(c: seq<bool>, k: nat)
    requires k < |c|
    ensures BitsValue(c) / Pow2(k) % 2 == if c[|c| - 1 - k] then 1 else 0
    decreases |c|
  {
    var rest := c[1..];
    var p, b := Pow2(|c| - 1), if c[0] then 1 else 0;
    assert BitsValue(c) == b * p + BitsValue(rest);
    BitsBound(rest);
    if k == |c| - 1 {
      LowBitsOnly(BitsValue(rest), p, b);
    } else {
      BitOfValue(rest, k);
      SplitPow2(|c| - 1 - k - 1, k);
      DropHigh(BitsValue(rest), b * Pow2(|c| - 1 - k - 1), Pow2(k));
      assert b * p == 2 * (b * Pow2(|c| - 1 - k - 1)) * Pow2(k);
    }
  }

  /** Pow2(a + 1 + k) is an even multiple of Pow2(k). */
  lemma {:induction false} SplitPow2(a: nat, k: nat)
    ensures Pow2(a + 1 + k) == 2 * Pow2(a) * Pow2(k)
  {
    if a > 0 {
      SplitPow2(a - 1, k);
    }
  }

  lemma {:induction false} DropHigh(v: nat, h: nat, p: nat)
    requires p > 0
    ensures (2 * h * p + v) / p % 2 == v / p % 2
  {
    var q := v / p;
    assert 2 * h * p + v == (2 * h + q) * p + v % p;
    QuotientOf(2 * h * p + v, p, 2 * h + q, v % p);
  }

  lemma {:induction false} QuotientOf(x: nat, p: nat, q: nat, r: nat)
    requires p > 0 && r < p && x == q * p + r
    ensures x / p == q
  {
    var m: int := p;
    var d := x / m - q;
    assert x == x / m * m + x % m;
    assert d * m == x / m * m - q * m;
    assert d >= 1 ==> d * m >= m;
    assert d <= -1 ==> d * m <= -m;
  }

  /** The stored integer of a symbol, bit by bit: the flags along its parent links, its own lowest. */
  lemma {:induction false} StoredBits(up: seq<int>, flag: seq<nat>, s: nat, k: nat)
    requires Rising(up) && |flag| == |up| && s < |up| && k < |Walk(up, flag, s)|
    requires forall i :: 0 <= i < |up| && up[i] != -1 ==> flag[i] <= 1
    ensures 0 <= Ancestor(up, s, k) < |up|
    ensures BitsValue(Walk(up, flag, s)) / Pow2(k) % 2 == flag[Ancestor(up, s, k)]
  {
    WalkIsFlags(up, flag, s, k);
    BitOfValue(Walk(up, flag, s), k);
  }
}
