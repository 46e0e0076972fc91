/** The forest that the merge loop of the 4XM table reader grows: every node index carries a
    frequency (0 once the node has a parent, or when the symbol is unused) and a tree. */
module HuffmanForest {
  import opened Sums

  /** Symbols 0..255 are transmitted bytes, symbol 256 is the end mark. */
  const SYMBOLS: nat := 257
  /** Node indices available to the merge loop. */
  const NODES: nat := 512
  /** Initial value of both running minima; every live frequency has to stay below it. */
  const CEILING: nat := 65536

  datatype Tree = Leaf(id: nat, w: nat) | Node(id: nat, left: Tree, right: Tree)

  ghost function Weight(t: Tree): nat {
    match t
    case Leaf(_, w) => w
    case Node(_, l, r) => Weight(l) + Weight(r)
  }

  ghost function Height(t: Tree): nat {
    match t
    case Leaf(_, _) => 0
    case Node(_, l, r) => 1 + if Height(l) >= Height(r) then Height(l) else Height(r)
  }

  ghost function Leaves(t: Tree): set<nat> {
    match t
    case Leaf(id, _) => {id}
    case Node(_, l, r) => Leaves(l) + Leaves(r)
  }

  /** Sum of leaf weight times leaf depth. */
  ghost function DepthCost(t: Tree): nat {
    match t
    case Leaf(_, _) => 0
    case Node(_, l, r) => DepthCost(l) + DepthCost(r) + Weight(l) + Weight(r)
  }

  /** Leaves carry the weights of table, and no leaf occurs twice. */
  ghost predicate Sound(t: Tree, table: seq<nat>) {
    match t
    case Leaf(id, w) => id < |table| && table[id] == w && w > 0
    case Node(_, l, r) => Sound(l, table) && Sound(r, table) && Leaves(l) !! Leaves(r)
  }

  /** Every node weighs at least as much as each child of its sibling, and the lighter of two siblings,
      or the earlier of two equal ones, is on the left. */
  ghost predicate Fair(t: Tree) {
    match t
    case Leaf(_, w) => w > 0
    case Node(_, l, r) =>
      && Fair(l) && Fair(r) && KidsAtMost(l, Weight(r)) && KidsAtMost(r, Weight(l))
      && (Weight(l) < Weight(r) || (Weight(l) == Weight(r) && l.id < r.id))
  }

  ghost predicate KidsAtMost(t: Tree, m: nat) {
    t.Node? ==> Weight(t.left) <= m && Weight(t.right) <= m
  }

  datatype Forest = Forest(freq: seq<nat>, tree: seq<Tree>)

  ghost predicate Live(freq: seq<nat>, i: int) {
    0 <= i < |freq| && freq[i] != 0
  }

  /** The merge loop scans upward with strict comparisons, so ties go to the lower index. */
  ghost predicate Before(freq: seq<nat>, i: nat, j: nat)
    requires i < |freq| && j < |freq|
  {
    freq[i] < freq[j] || (freq[i] == freq[j] && i < j)
  }

  /** a and b are the first and second live node in (frequency, index) order. */
  ghost predicate TwoSmallest(freq: seq<nat>, a: nat, b: nat) {
    && Live(freq, a) && Live(freq, b) && Before(freq, a, b)
    && forall i :: Live(freq, i) && i != a && i != b ==> Before(freq, b, i)
  }

  ghost predicate HasTwo(freq: seq<nat>) {
    exists i, j :: Live(freq, i) && Live(freq, j) && i < j
  }

  ghost function LiveMark(freq: seq<nat>): nat -> int {
    (i: nat) => if i < |freq| && freq[i] != 0 then 1 else 0
  }

  ghost function LiveCount(freq: seq<nat>): (c: nat) {
    SumNonNegative(|freq|, LiveMark(freq));
    Sum(|freq|, LiveMark(freq))
  }

  lemma {:induction false} SumNonNegative(n: nat, g: nat -> int)
    requires forall i: nat :: i < n ==> 0 <= g(i)
    ensures 0 <= Sum(n, g)
  {
    if n > 0 {
      SumNonNegative(n - 1, g);
    }
  }

  ghost function FreqAt(freq: seq<nat>): nat -> int {
    (i: nat) => if i < |freq| then freq[i] else 0
  }

  ghost function Total(freq: seq<nat>): int {
    Sum(|freq|, FreqAt(freq))
  }

  lemma {:induction false} TwoSmallestExists(freq: seq<nat>)
    requires HasTwo(freq)
    ensures exists a: nat, b: nat :: TwoSmallest(freq, a, b)
  {
    var i, j :| Live(freq, i) && Live(freq, j) && i < j;
    var a := LeastLive(freq, -1, i);
    var b := LeastLive(freq, a, if a == i then j else i);
    assert TwoSmallest(freq, a, b);
  }

  /** The least live node other than skip. */
  lemma {:induction false} LeastLive(freq: seq<nat>, skip: int, witnessed: nat) returns (a: nat)
    requires Live(freq, witnessed) && witnessed != skip
    ensures Live(freq, a) && a != skip
    ensures forall i :: Live(freq, i) && i != skip && i != a ==> Before(freq, a, i)
  {
    a := witnessed;
    for k := 0 to |freq|
      invariant Live(freq, a) && a != skip
      invariant forall i :: 0 <= i < k && Live(freq, i) && i != skip && i != a ==> Before(freq, a, i)
    {
      if freq[k] != 0 && k != skip && k != a && Before(freq, k, a) {
        a := k;
      }
    }
  }

  lemma {:induction false} TwoSmallestUnique(freq: seq<nat>, a: nat, b: nat, a': nat, b': nat)
    requires TwoSmallest(freq, a, b) && TwoSmallest(freq, a', b')
    ensures a == a' && b == b'
  {
  }

  ghost function Smallest(freq: seq<nat>): (r: (nat, nat))
    requires HasTwo(freq)
    ensures TwoSmallest(freq, r.0, r.1)
  {
    TwoSmallestExists(freq);
    var a: nat, b: nat :| TwoSmallest(freq, a, b);
    (a, b)
  }

  /** One merge: the two smallest live nodes get a common parent with the next index. */
  ghost function Step(f: Forest): (f': Forest)
    requires |f.freq| == |f.tree| && HasTwo(f.freq)
    ensures |f'.freq| == |f'.tree| == |f.freq| + 1
  {
    var (a, b) := Smallest(f.freq);
    Forest(f.freq[a := 0][b := 0] + [f.freq[a] + f.freq[b]],
           f.tree + [Node(|f.tree|, f.tree[a], f.tree[b])])
  }

  /** The whole merge loop: it stops when fewer than two nodes are live or indices run out. */
  ghost function Run(f: Forest): (r: Forest)
    requires |f.freq| == |f.tree| <= NODES
    ensures |f.freq| <= |r.freq| == |r.tree| <= NODES
    ensures HasTwo(r.freq) ==> |r.freq| == NODES
    decreases NODES - |f.freq|
  {
    if |f.freq| < NODES && HasTwo(f.freq) then Run(Step(f)) else f
  }

  ghost function Start(table: seq<nat>): (f: Forest)
    ensures |f.freq| == |f.tree| == |table|
  {
    Forest(table, seq(|table|, i requires 0 <= i < |table| => Leaf(i, table[i])))
  }

  ghost predicate SoundAt(f: Forest, table: seq<nat>, i: nat)
    requires |f.freq| == |f.tree| && i < |f.freq|
  {
    f.freq[i] != 0 ==> f.freq[i] == Weight(f.tree[i]) && Sound(f.tree[i], table) && Fair(f.tree[i])
  }

  ghost predicate Apart(f: Forest, i: nat, j: nat)
    requires |f.freq| == |f.tree| && i < |f.freq| && j < |f.freq|
  {
    i != j && f.freq[i] != 0 && f.freq[j] != 0 ==> Leaves(f.tree[i]) !! Leaves(f.tree[j])
  }

  /** Symbol s is a leaf of the live tree at i. */
  ghost predicate OwnedAt(f: Forest, s: nat, i: nat)
    requires |f.freq| == |f.tree|
  {
    Live(f.freq, i) && s in Leaves(f.tree[i])
  }

  ghost predicate Owned(f: Forest, s: nat)
    requires |f.freq| == |f.tree|
  {
    exists i: nat :: OwnedAt(f, s, i)
  }

  /** The node at i is a leaf exactly for symbols; inner nodes hang over earlier, dead nodes. */
  ghost predicate Shaped(f: Forest, i: nat)
    requires |f.freq| == |f.tree| && i < |f.freq|
  {
    var t := f.tree[i];
    && t.id == i
    && (t.Leaf? <==> i < SYMBOLS)
    && (t.Node? ==>
          && t.left.id < i && t.right.id < i && t.left.id != t.right.id
          && f.tree[t.left.id] == t.left && f.tree[t.right.id] == t.right
          && f.freq[t.left.id] == 0 && f.freq[t.right.id] == 0)
  }

  ghost predicate Inv(f: Forest, table: seq<nat>) {
    && |table| == SYMBOLS <= |f.freq| == |f.tree| <= NODES
    && (forall i: nat :: i < |f.freq| ==> SoundAt(f, table, i))
    && (forall i: nat :: i < |f.freq| ==> Shaped(f, i))
    && (forall i: nat, j: nat :: i < |f.freq| && j < |f.freq| ==> Apart(f, i, j))
    && (forall s: nat :: s < SYMBOLS && table[s] != 0 ==> Owned(f, s))
    && (exists m: nat :: Separates(f, m))
  }

  /** m lies between every child of a live root and every live root. */
  ghost predicate Separates(f: Forest, m: nat)
    requires |f.freq| == |f.tree|
  {
    forall i: nat :: Live(f.freq, i) ==> m <= f.freq[i] && KidsAtMost(f.tree[i], m)
  }

  lemma {:induction false} StartInv(table: seq<nat>)
    requires |table| == SYMBOLS
    ensures Inv(Start(table), table)
  {
    var f := Start(table);
    assert Separates(f, 0);
    forall s: nat | s < SYMBOLS && table[s] != 0 ensures Owned(f, s) {
      assert OwnedAt(f, s, s);
    }
  }

  lemma {:induction false} StepOwned(f: Forest, table: seq<nat>, s: nat)
    requires Inv(f, table) && |f.freq| < NODES && HasTwo(f.freq)
    requires s < SYMBOLS && table[s] != 0
    ensures Owned(Step(f), s)
  {
    var (a, b) := Smallest(f.freq);
    assert Owned(f, s);
    var i: nat :| OwnedAt(f, s, i);
    if i == a || i == b {
      assert OwnedAt(Step(f), s, |f.freq|);
    } else {
      assert OwnedAt(Step(f), s, i);
    }
  }

  lemma {:induction false} StepApart(f: Forest, table: seq<nat>, i: nat, j: nat)
    requires Inv(f, table) && |f.freq| < NODES && HasTwo(f.freq)
    requires i <= |f.freq| && j <= |f.freq|
    ensures Apart(Step(f), i, j)
  {
    var n := |f.freq|;
    var (a, b) := Smallest(f.freq);
    if i < n && j < n {
      assert Apart(f, i, j);
    } else if i < n {
      assert Apart(f, i, a) && Apart(f, i, b);
    } else if j < n {
      assert Apart(f, a, j) && Apart(f, b, j);
    }
  }

  lemma {:induction false} StepShaped(f: Forest, table: seq<nat>, i: nat)
    requires Inv(f, table) && |f.freq| < NODES && HasTwo(f.freq)
    requires i <= |f.freq|
    ensures Shaped(Step(f), i)
  {
    var (a, b) := Smallest(f.freq);
    if i < |f.freq| {
      assert Shaped(f, i);
    } else {
      assert Shaped(f, a) && Shaped(f, b);
    }
  }

  lemma {:induction false} StepSound(f: Forest, table: seq<nat>, i: nat)
    requires Inv(f, table) && |f.freq| < NODES && HasTwo(f.freq)
    requires i <= |f.freq|
    ensures SoundAt(Step(f), table, i)
  {
    var (a, b) := Smallest(f.freq);
    if i < |f.freq| {
      assert SoundAt(f, table, i);
    } else {
      assert SoundAt(f, table, a) && SoundAt(f, table, b);
      assert Shaped(f, a) && Shaped(f, b);
      assert Apart(f, a, b);
      var m: nat :| Separates(f, m);
      assert Live(f.freq, a) && Live(f.freq, b);
      assert Step(f).tree[i] == Node(|f.tree|, f.tree[a], f.tree[b]);
    }
  }

  lemma {:induction false} StepSeparates(f: Forest, table: seq<nat>)
    requires Inv(f, table) && |f.freq| < NODES && HasTwo(f.freq)
    ensures exists m: nat :: Separates(Step(f), m)
  {
    var (a, b) := Smallest(f.freq);
    var m: nat :| Separates(f, m);
    var f' := Step(f);
    assert Live(f.freq, a) && Live(f.freq, b);
    assert SoundAt(f, table, a) && SoundAt(f, table, b);
    forall i: nat | Live(f'.freq, i)
      ensures f.freq[b] <= f'.freq[i] && KidsAtMost(f'.tree[i], f.freq[b])
    {
      if i < |f.freq| {
        assert Live(f.freq, i) && Before(f.freq, b, i);
      }
    }
    assert Separates(f', f.freq[b]);
  }

  lemma {:induction false} StepInv(f: Forest, table: seq<nat>)
    requires Inv(f, table) && |f.freq| < NODES && HasTwo(f.freq)
    ensures Inv(Step(f), table)
  {
    var f' := Step(f);
    forall i: nat | i < |f'.freq| ensures SoundAt(f', table, i) && Shaped(f', i) {
      StepSound(f, table, i);
      StepShaped(f, table, i);
    }
    forall i: nat, j: nat | i < |f'.freq| && j < |f'.freq| ensures Apart(f', i, j) {
      StepApart(f, table, i, j);
    }
    forall s: nat | s < SYMBOLS && table[s] != 0 ensures Owned(f', s) {
      StepOwned(f, table, s);
    }
    StepSeparates(f, table);
  }

  lemma {:induction false} RunInv(f: Forest, table: seq<nat>)
    requires Inv(f, table)
    ensures Inv(Run(f), table)
    decreases NODES - |f.freq|
  {
    if |f.freq| < NODES && HasTwo(f.freq) {
      StepInv(f, table);
      RunInv(Step(f), table);
    }
  }

  // Conservation and counting

  /** A merge keeps the total live weight and removes one live node. */
  lemma {:induction false} StepCounts(f: Forest)
    requires |f.freq| == |f.tree| && HasTwo(f.freq)
    ensures Total(Step(f).freq) == Total(f.freq)
    ensures LiveCount(Step(f).freq) == LiveCount(f.freq) - 1
  {
    var (a, b) := Smallest(f.freq);
    var n := |f.freq|;
    var fs := Step(f).freq;
    SumUpdateTwo(n, FreqAt(f.freq), FreqAt(fs), a, b);
    SumUpdateTwo(n, LiveMark(f.freq), LiveMark(fs), a, b);
  }

  lemma {:induction false} RunCounts(f: Forest)
    requires |f.freq| == |f.tree| <= NODES
    ensures Total(Run(f).freq) == Total(f.freq)
    ensures LiveCount(Run(f).freq) + |Run(f).freq| == LiveCount(f.freq) + |f.freq|
    decreases NODES - |f.freq|
  {
    if |f.freq| < NODES && HasTwo(f.freq) {
      StepCounts(f);
      RunCounts(Step(f));
    }
  }

  lemma {:induction false} HasTwoIffCount(freq: seq<nat>)
    ensures HasTwo(freq) <==> LiveCount(freq) >= 2
  {
    if HasTwo(freq) {
      var i, j :| Live(freq, i) && Live(freq, j) && i < j;
      SumAtLeastTwo(|freq|, LiveMark(freq), i, j);
    } else if exists i :: Live(freq, i) {
      var i :| Live(freq, i);
      var g := (k: nat) => if k == i then 1 else 0;
      var o := (k: nat) => 0;
      forall k: nat | k < |freq| ensures LiveMark(freq)(k) == g(k) {
        assert Live(freq, k) ==> k == i by {
          assert !(Live(freq, k) && Live(freq, i) && k < i);
          assert !(Live(freq, i) && Live(freq, k) && i < k);
        }
      }
      SumExt(|freq|, LiveMark(freq), g);
      SumUpdate(|freq|, o, g, i);
      SumZero(|freq|, o);
    } else {
      forall k: nat | k < |freq| ensures LiveMark(freq)(k) == 0 {
        assert !Live(freq, k);
      }
      SumZero(|freq|, LiveMark(freq));
    }
  }

  lemma {:induction false} SomeLive(freq: seq<nat>) returns (i: nat)
    requires LiveCount(freq) >= 1
    ensures Live(freq, i)
  {
    assert exists k: nat :: Live(freq, k) by {
      if forall k: nat :: k < |freq| ==> freq[k] == 0 {
        SumZero(|freq|, LiveMark(freq));
      } else {
        var k: nat :| k < |freq| && freq[k] != 0;
        assert Live(freq, k);
      }
    }
    i :| Live(freq, i);
  }

  // Height bound

  ghost function Fib(n: nat): nat {
    if n < 2 then n else Fib(n - 1) + Fib(n - 2)
  }

  lemma {:induction false} FibMono(m: nat, n: nat)
    requires m <= n
    ensures Fib(m) <= Fib(n)
  {
    if m < n {
      FibMono(m, n - 1);
    }
  }

  lemma {:induction false} FibStep(n: nat)
    ensures Fib(n + 2) == Fib(n + 1) + Fib(n) && Fib(1) == Fib(2) == 1
  {
  }

  /** A tree of height k weighs at least the Fibonacci number k + 2. */
  lemma {:induction false} FibonacciWeight(t: Tree)
    requires Fair(t)
    ensures Weight(t) >= Fib(Height(t) + 2)
  {
    hide Fib;
    FibStep(Height(t));
    if t.Node? {
      FibonacciWeight(t.left);
      FibonacciWeight(t.right);
      FairPositive(t.left);
      FairPositive(t.right);
      if Height(t.left) >= Height(t.right) {
        FibonacciSibling(t.left, Weight(t.right));
      } else {
        FibonacciSibling(t.right, Weight(t.left));
      }
    }
  }

  /** What a fair sibling of tall must weigh. */
  lemma {:induction false} FibonacciSibling(tall: Tree, w: nat)
    requires Fair(tall) && KidsAtMost(tall, w) && w > 0
    ensures w >= Fib(Height(tall) + 1)
  {
    hide Fib;
    FibStep(0);
    if tall.Node? {
      FibonacciWeight(tall.left);
      FibonacciWeight(tall.right);
    }
  }

  lemma {:induction false} FairPositive(t: Tree)
    requires Fair(t)
    ensures Weight(t) > 0
  {
    if t.Node? {
      FairPositive(t.left);
    }
  }

  lemma {:induction false} Fib25()
    ensures Fib(25) == 75025
  {
    assert Fib(10) == 55 && Fib(11) == 89;
    assert Fib(14) == 377 && Fib(15) == 610;
    assert Fib(18) == 2584 && Fib(19) == 4181;
    assert Fib(22) == 17711 && Fib(23) == 28657;
  }

  /** Bytes below 256 for the symbols, and weight 1 for the end mark. */
  ghost predicate Table(table: seq<nat>) {
    && |table| == SYMBOLS
    && table[256] == 1
    && forall i :: 0 <= i < 256 ==> table[i] < 256
  }

  lemma {:induction false} TotalBound(table: seq<nat>)
    requires Table(table)
    ensures Total(table) <= 255 * 256 + 1 < CEILING
  {
    TotalPrefixBound(table, 256);
  }

  lemma {:induction false} TotalPrefixBound(table: seq<nat>, n: nat)
    requires Table(table) && n <= 256
    ensures Sum(n, FreqAt(table)) <= 255 * n
  {
    if n > 0 {
      TotalPrefixBound(table, n - 1);
    }
  }

  /** No live tree the loop can reach is higher than 22. */
  lemma {:induction false} HeightBound(f: Forest, table: seq<nat>, i: nat)
    requires Table(table) && Inv(f, table) && Total(f.freq) == Total(table)
    requires Live(f.freq, i)
    ensures Height(f.tree[i]) <= 22
    ensures f.freq[i] < CEILING
  {
    hide Fib, Fair, Sound, Shaped, Apart, Owned, Separates, Height, Weight;
    assert SoundAt(f, table, i);
    SumAtLeast(|f.freq|, FreqAt(f.freq), i);
    TotalBound(table);
    FibonacciWeight(f.tree[i]);
    Fib25();
    if Height(f.tree[i]) >= 23 {
      FibMono(25, Height(f.tree[i]) + 2);
    }
  }
}
