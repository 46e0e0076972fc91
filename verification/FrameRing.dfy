/** The ring of decoded frames shared by the decoder thread, which fills slots, and the display
    thread, which shows and releases them, in atomic steps. */
module FrameRing {
  import opened Options

  type Frame = int

  /** Idle: outside the queue functions. Filling: a writable slot has been handed out.
      Advanced: windex has moved, size has not. */
  datatype WriterPc = WIdle | Filling | Advanced

  /** Using: a readable slot has been handed out. Released: the slot at rindex has been given up,
      rindex has not moved. Moved: rindex has moved, size has not. */
  datatype ReaderPc = RIdle | Using | Released | Moved

  /** written and shown are histories: frames pushed, and frames passed by the display thread;
      gone counts how often rindex has moved. */
  datatype Ring = Ring(max: nat, keepLast: bool, slots: seq<Option<Frame>>, rindex: nat, windex: nat, size: int,
                       rindexShown: nat, wpc: WriterPc, rpc: ReaderPc,
                       written: seq<Frame>, shown: seq<Frame>, gone: nat)

  predicate Shape(s: Ring) {
    s.max > 0 && |s.slots| == s.max && s.rindex < s.max && s.windex < s.max
  }

  function Empty(max: nat, keepLast: bool): Ring {
    Ring(max, keepLast, seq(max, i => None), 0, 0, 0, 0, WIdle, RIdle, [], [], 0)
  }

  // Which slots the queue functions name

  function Peek(s: Ring): nat
    requires Shape(s)
  {
    (s.rindex + s.rindexShown) % s.max
  }

  function PeekNext(s: Ring): nat
    requires Shape(s)
  {
    (s.rindex + s.rindexShown + 1) % s.max
  }

  function PeekLast(s: Ring): nat {
    s.rindex
  }

  function Remaining(s: Ring): int {
    s.size - s.rindexShown
  }

  function After(i: nat, max: nat): nat {
    if i + 1 == max then 0 else i + 1
  }

  // Writer steps

  predicate CanPeekWritable(s: Ring) {
    s.wpc == WIdle && s.size < s.max
  }

  function PeekWritable(s: Ring): Ring {
    s.(wpc := Filling)
  }

  function Fill(s: Ring, f: Frame): Ring
    requires Shape(s)
  {
    s.(slots := s.slots[s.windex := Some(f)])
  }

  predicate CanAdvance(s: Ring)
    requires Shape(s)
  {
    s.wpc == Filling && s.slots[s.windex].Some?
  }

  function AdvanceWrite(s: Ring): Ring
    requires Shape(s) && CanAdvance(s)
  {
    s.(windex := After(s.windex, s.max), wpc := Advanced, written := s.written + [s.slots[s.windex].value])
  }

  function CommitWrite(s: Ring): Ring {
    s.(size := s.size + 1, wpc := WIdle)
  }

  // Reader steps

  predicate CanPeekReadable(s: Ring) {
    s.rpc == RIdle && Remaining(s) > 0
  }

  function PeekReadable(s: Ring): Ring {
    s.(rpc := Using)
  }

  predicate CanPass(s: Ring)
    requires Shape(s)
  {
    s.rpc == Using && s.slots[Peek(s)].Some?
  }

  /** frame_queue_next up to the release: the first frame of a keep-last queue only counts as shown. */
  function Pass(s: Ring): Ring
    requires Shape(s) && CanPass(s)
  {
    var s' := s.(shown := s.shown + [s.slots[Peek(s)].value]);
    if s.keepLast && s.rindexShown == 0 then s'.(rindexShown := 1, rpc := RIdle)
    else s'.(slots := s.slots[s.rindex := None], rpc := Released)
  }

  function AdvanceRead(s: Ring): Ring {
    s.(rindex := After(s.rindex, s.max), rpc := Moved, gone := s.gone + 1)
  }

  function CommitRead(s: Ring): Ring {
    s.(size := s.size - 1, rpc := RIdle)
  }

  ghost predicate WriterStep(s: Ring, t: Ring) {
    Shape(s) &&
    (|| (CanPeekWritable(s) && t == PeekWritable(s))
     || (s.wpc == Filling && exists f :: t == Fill(s, f))
     || (CanAdvance(s) && t == AdvanceWrite(s))
     || (s.wpc == Advanced && t == CommitWrite(s)))
  }

  ghost predicate ReaderStep(s: Ring, t: Ring) {
    Shape(s) &&
    (|| (CanPeekReadable(s) && t == PeekReadable(s))
     || (CanPass(s) && t == Pass(s))
     || (s.rpc == Released && t == AdvanceRead(s))
     || (s.rpc == Moved && t == CommitRead(s)))
  }

  ghost predicate Step(s: Ring, t: Ring) {
    WriterStep(s, t) || ReaderStep(s, t)
  }

  // The invariant

  /** Frame number k of the history sits in its slot. */
  ghost predicate Stored(s: Ring, k: nat)
    requires Shape(s) && k < |s.written|
  {
    s.slots[k % s.max] == Some(s.written[k])
  }

  ghost predicate Inv(s: Ring) {
    && Shape(s)
    && s.rindexShown <= (if s.keepLast then 1 else 0)
    && (s.keepLast && s.rindexShown == 0 ==> s.gone == 0 && s.rpc != Released)
    && s.gone <= |s.written| <= s.gone + s.max
    && (s.wpc == Filling ==> |s.written| < s.gone + s.max)
    && s.windex == |s.written| % s.max && s.rindex == s.gone % s.max
    && s.size == |s.written| - s.gone - (if s.wpc == Advanced then 1 else 0) + (if s.rpc == Moved then 1 else 0)
    && s.size + (if s.wpc == WIdle then 0 else 1) <= s.max
    && (s.rpc == Released ==> s.gone < |s.written| && s.size > s.rindexShown)
    && (s.rpc == Moved ==> s.size > s.rindexShown)
    && (s.rpc == RIdle ==> s.size >= s.rindexShown)
    && (s.rpc == Using ==> s.size > s.rindexShown)
    && (forall k: nat :: s.gone <= k < |s.written| && !(s.rpc == Released && k == s.gone) ==> Stored(s, k))
    && |s.shown| == s.gone + s.rindexShown + (if s.rpc == Released then 1 else 0)
    && |s.shown| <= |s.written| && s.shown == s.written[..|s.shown|]
  }

  // Arithmetic of wrapping indices

  lemma {:induction false} AfterIsModulo(n: nat, m: nat)
    requires m > 0
    ensures (n + 1) % m == After(n % m, m)
  {
    var q, r := n / m, n % m;
    assert n == q * m + r;
    if r + 1 == m {
      assert n + 1 == (q + 1) * m;
      ModuloOf(n + 1, m, q + 1, 0);
    } else {
      ModuloOf(n + 1, m, q, r + 1);
    }
  }

  lemma {:induction false} ModuloOf(x: nat, m: nat, q: nat, r: nat)
    requires m > 0 && r < m && x == q * m + r
    ensures x % m == r
  {
    var n: int := m;
    var d := x / n - q;
    assert x == x / n * n + x % n;
    assert d * n == x / n * n - q * n;
    assert d >= 1 ==> d * n >= n;
    assert d <= -1 ==> d * n <= -n;
  }

  /** Within one turn of the ring, different frame numbers have different slots. */
  lemma {:induction false} SlotsDiffer(a: nat, b: nat, m: nat)
    requires m > 0 && a < b < a + m
    ensures a % m != b % m
  {
    var n: int := m;
    var d := b / n - a / n;
    assert a == a / n * n + a % n && b == b / n * n + b % n;
    assert d * n == b / n * n - a / n * n;
    assert d * n >= n || d * n <= 0 by {
      assert d >= 1 ==> d * n >= n;
      assert d <= 0 ==> d * n <= 0;
    }
  }

  /** The slot j places after rindex belongs to the frame j after the first live one. */
  lemma {:induction false} SlotOf(gone: nat, j: nat, m: nat)
    requires m > 0
    ensures (gone % m + j) % m == (gone + j) % m
  {
    var base := gone % m + j;
    var q, p, r := gone / m, base / m, base % m;
    assert gone == q * m + gone % m;
    assert base == p * m + r;
    AddFactors(q, p, m);
    ModuloOf(gone + j, m, q + p, r);
  }

  lemma {:induction false} AddFactors(a: nat, b: nat, m: nat)
    ensures (a + b) * m == a * m + b * m
  {
  }

  // Steps keep the invariant

  lemma {:induction false} EmptyInv(max: nat, keepLast: bool)
    requires max > 0
    ensures Inv(Empty(max, keepLast))
  {
  }

  lemma {:induction false} FillKeeps(s: Ring, f: Frame)
    requires Inv(s) && s.wpc == Filling
    ensures Inv(Fill(s, f))
  {
    var t := Fill(s, f);
    forall k: nat | t.gone <= k < |t.written| && !(t.rpc == Released && k == t.gone) ensures Stored(t, k) {
      assert Stored(s, k);
      SlotsDiffer(k, |s.written|, s.max);
    }
  }

  lemma {:induction false} AdvanceWriteKeeps(s: Ring)
    requires Inv(s) && CanAdvance(s)
    ensures Inv(AdvanceWrite(s))
  {
    var t := AdvanceWrite(s);
    AfterIsModulo(|s.written|, s.max);
    forall k: nat | t.gone <= k < |t.written| && !(t.rpc == Released && k == t.gone) ensures Stored(t, k) {
      if k < |s.written| {
        assert Stored(s, k);
      }
    }
  }

  /** The readable slot holds the frame that is next to be shown. */
  lemma {:induction false} PeekIsNextFrame(s: Ring)
    requires Inv(s) && s.rpc == Using
    ensures s.gone + s.rindexShown < |s.written|
    ensures s.slots[Peek(s)] == Some(s.written[s.gone + s.rindexShown])
    ensures |s.shown| == s.gone + s.rindexShown
  {
    SlotOf(s.gone, s.rindexShown, s.max);
    assert Stored(s, s.gone + s.rindexShown);
  }

  /** Releasing the slot at rindex leaves the later frames where they are. */
  lemma {:induction false} ReleaseKeepsOthers(s: Ring, k: nat)
    requires Shape(s) && s.rindex == s.gone % s.max && s.gone < k < s.gone + s.max && k < |s.written| && Stored(s, k)
    ensures Stored(s.(slots := s.slots[s.rindex := None]), k)
  {
    SlotsDiffer(s.gone, k, s.max);
  }

  lemma {:induction false} PassKeeps(s: Ring)
    requires Inv(s) && CanPass(s)
    ensures Inv(Pass(s))
  {
    PeekIsNextFrame(s);
    hide Peek, Stored;
    var t := Pass(s);
    var n := s.gone + s.rindexShown;
    assert s.written[..n] + [s.written[n]] == s.written[..n + 1];
    if s.keepLast && s.rindexShown == 0 {
      assert t == s.(rindexShown := 1, rpc := RIdle, shown := t.shown);
      SlotsDecide(s, t);
    } else {
      var r := s.(slots := s.slots[s.rindex := None]);
      assert t == r.(rpc := Released, shown := t.shown);
      SlotsDecide(r, t);
      forall k: nat | t.gone < k < |t.written| ensures Stored(t, k) {
        assert Stored(s, k);
        ReleaseKeepsOthers(s, k);
      }
    }
  }

  lemma {:induction false} SlotsDecide(s: Ring, t: Ring)
    requires Shape(s) && Shape(t) && s.slots == t.slots && s.max == t.max && s.written == t.written
    ensures forall k: nat :: k < |s.written| ==> Stored(s, k) == Stored(t, k)
  {
  }

  lemma {:induction false} AdvanceReadKeeps(s: Ring)
    requires Inv(s) && s.rpc == Released
    ensures Inv(AdvanceRead(s))
  {
    var t := AdvanceRead(s);
    AfterIsModulo(s.gone, s.max);
    forall k: nat | t.gone <= k < |t.written| ensures Stored(t, k) {
      assert Stored(s, k);
    }
  }

  lemma {:induction false} StepKeeps(s: Ring, t: Ring)
    requires Inv(s) && Step(s, t)
    ensures Inv(t)
  {
    hide Stored, Peek;
    if s.wpc == Filling && exists f :: t == Fill(s, f) {
      var f :| t == Fill(s, f);
      FillKeeps(s, f);
    } else if CanAdvance(s) && t == AdvanceWrite(s) {
      AdvanceWriteKeeps(s);
    } else if CanPass(s) && t == Pass(s) {
      PassKeeps(s);
    } else if s.rpc == Released && t == AdvanceRead(s) {
      AdvanceReadKeeps(s);
    } else {
      assert t == s.(wpc := t.wpc, rpc := t.rpc, size := t.size);
      StoredSame(s, t);
    }
  }

  lemma {:induction false} StoredSame(s: Ring, t: Ring)
    requires Shape(s) && t == s.(wpc := t.wpc, rpc := t.rpc, size := t.size)
    ensures forall k: nat :: k < |s.written| ==> Stored(s, k) == Stored(t, k)
  {
  }

  // What the invariant is for

  /** While a slot is being filled, the reader cannot name it: none of the slots that size covers,
      and so neither the last, the current nor the next frame, is the one being written. */
  lemma {:induction false} WriterIsAlone(s: Ring, j: nat)
    requires Inv(s) && s.wpc == Filling && j < s.size
    ensures (s.rindex + j) % s.max != s.windex || (s.rpc == Moved && j == s.size - 1)
    ensures s.rpc != Moved && (s.size > 0 || s.rindexShown > 0) ==> PeekLast(s) != s.windex
    ensures s.rpc == Using ==> Peek(s) != s.windex
    ensures s.rpc == Using && Remaining(s) > 1 ==> PeekNext(s) != s.windex
  {
    FramesElsewhere(s, j);
    if s.rpc != Moved {
      FramesElsewhere(s, 0);
    }
    if s.rpc == Using {
      FramesElsewhere(s, s.rindexShown);
      if Remaining(s) > 1 {
        FramesElsewhere(s, s.rindexShown + 1);
      }
    }
  }

  lemma {:induction false} FramesElsewhere(s: Ring, j: nat)
    requires Inv(s) && s.wpc == Filling
    ensures j < |s.written| - s.gone ==> (s.rindex + j) % s.max != s.windex
    ensures j == 0 ==> (s.rindex + j) % s.max == s.rindex
  {
    SlotOf(s.gone, j, s.max);
    if j < |s.written| - s.gone {
      SlotsDiffer(s.gone + j, |s.written|, s.max);
    }
    if j == 0 {
      ModuloOf(s.rindex, s.max, 0, s.rindex);
    }
  }

  /** In a keep-last queue the frame passed last is in its slot, and nobody writes there; until
      the release is under way it is also the frame that PeekLast names. */
  lemma {:induction false} LastShownIsKept(s: Ring)
    requires Inv(s) && s.keepLast && s.shown != []
    ensures var k := (|s.shown| - 1) % s.max;
            && s.slots[k] == Some(s.shown[|s.shown| - 1])
            && (s.wpc == Filling ==> s.windex != k)
            && (s.rpc != Released ==> PeekLast(s) == k)
  {
    var n := |s.shown| - 1;
    assert s.gone <= n < |s.written| && s.shown[n] == s.written[n];
    assert Stored(s, n);
    if s.wpc == Filling {
      SlotsDiffer(n, |s.written|, s.max);
    }
  }

  // Runs

  ghost predicate IsRun(run: seq<Ring>, max: nat, keepLast: bool) {
    && run != [] && run[0] == Empty(max, keepLast)
    && forall i :: 0 <= i < |run| - 1 ==> Step(run[i], run[i + 1])
  }

  lemma {:induction false} RunInv(run: seq<Ring>, max: nat, keepLast: bool, n: nat)
    requires max > 0 && IsRun(run, max, keepLast) && n < |run|
    ensures Inv(run[n]) && run[n].max == max && run[n].keepLast == keepLast
  {
    if n == 0 {
      EmptyInv(max, keepLast);
    } else {
      RunInv(run, max, keepLast, n - 1);
      assert Step(run[n - 1], run[n - 1 + 1]);
      StepKeeps(run[n - 1], run[n]);
    }
  }

  /** From one pass of a keep-last queue to the next, through release, index and size steps and
      whatever the writer does, the frame passed stays in its slot and is not written over. */
  lemma {:induction false} KeptFrameUntouched(run: seq<Ring>, max: nat, m: nat, n: nat)
    requires max > 0 && IsRun(run, max, true) && m < n < |run|
    requires Shape(run[m]) && CanPass(run[m]) && run[m + 1] == Pass(run[m])
    requires forall i :: m < i < n ==> run[i + 1].shown == run[i].shown
    ensures var k := Peek(run[m]);
            && run[n].slots != [] && k < |run[n].slots| && run[n].slots[k] == run[m].slots[k]
            && (run[n].wpc == Filling ==> run[n].windex != k)
            && (run[n].rpc != Released ==> PeekLast(run[n]) == k)
            && run[n].shown == run[m + 1].shown
    decreases n
  {
    hide Inv, Peek, Stored, CanPass, Pass, Step;
    RunInv(run, max, true, m);
    RunInv(run, max, true, n);
    InvShape(run[n]);
    PassedSlot(run[m]);
    hide IsRun;
    if m + 1 < n {
      KeptFrameUntouched(run, max, m, n - 1);
      assert run[n - 1 + 1].shown == run[n - 1].shown;
    }
    LastShownIsKept(run[n]);
  }

  lemma {:induction false} InvShape(s: Ring)
    requires Inv(s)
    ensures Shape(s)
  {
  }

  lemma {:induction false} PassedSlot(s: Ring)
    requires Inv(s) && CanPass(s)
    ensures var t := Pass(s);
            t.shown != [] && (|t.shown| - 1) % s.max == Peek(s) && s.slots[Peek(s)] == Some(t.shown[|t.shown| - 1])
  {
    PeekIsNextFrame(s);
    SlotOf(s.gone, s.rindexShown, s.max);
  }

  /** Over every interleaving: frames are shown in the order written, none lost or repeated, at
      most max of them live at once, and whoever uses a frame has it to themselves. */
  lemma {:induction false} RingIsQueue(run: seq<Ring>, max: nat, keepLast: bool, n: nat)
    requires max > 0 && IsRun(run, max, keepLast) && n < |run|
    ensures var s := run[n];
            && Shape(s) && s.max == max && s.shown <= s.written && 0 <= s.size <= max && |s.written| - s.gone <= max
            && (s.rpc == Using ==> |s.shown| < |s.written| && s.slots[Peek(s)] == Some(s.written[|s.shown|]))
            && (s.rpc == Using && Remaining(s) > 1 ==>
                  |s.shown| + 1 < |s.written| && s.slots[PeekNext(s)] == Some(s.written[|s.shown| + 1]))
            && (s.rpc == RIdle && s.wpc != Advanced ==> Remaining(s) == |s.written| - |s.shown|)
            && (s.rpc == Using && s.wpc == Filling ==> Peek(s) != s.windex && PeekLast(s) != s.windex)
            && (keepLast && s.shown != [] ==>
                  var k := (|s.shown| - 1) % max;
                  s.slots[k] == Some(s.shown[|s.shown| - 1]) && (s.wpc == Filling ==> k != s.windex))
  {
    RunInv(run, max, keepLast, n);
    var s := run[n];
    if keepLast && s.shown != [] {
      LastShownIsKept(s);
    }
    if s.rpc == Using {
      PeekIsNextFrame(s);
      if Remaining(s) > 1 {
        SlotOf(s.gone, s.rindexShown + 1, s.max);
        assert Stored(s, s.gone + s.rindexShown + 1);
      }
      if s.wpc == Filling {
        WriterIsAlone(s, 0);
      }
    }
  }

  // The object: each method is one atomic step

  class FrameQueue {
    const maxSize: nat
    const keepLast: bool
    const queue: array<Option<Frame>>
    var rindex: nat
    var windex: nat
    var size: int
    var rindexShown: nat
    ghost var wpc: WriterPc
    ghost var rpc: ReaderPc
    ghost var written: seq<Frame>
    ghost var shown: seq<Frame>
    ghost var gone: nat

    ghost function State(): Ring
      reads this, queue
    {
      Ring(maxSize, keepLast, queue[..], rindex, windex, size, rindexShown, wpc, rpc, written, shown, gone)
    }

    ghost predicate Valid()
      reads this, queue
    {
      Inv(State())
    }

    constructor (maxSize: nat, capacity: nat, keepLast: bool)
      requires maxSize > 0 && capacity > 0
      ensures Valid() && fresh(queue)
      ensures State() == Empty(if maxSize < capacity then maxSize else capacity, keepLast)
    {
      var m := if maxSize < capacity then maxSize else capacity;
      this.maxSize, this.keepLast := m, keepLast;
      queue := new Option<Frame>[m](i => None);
      rindex, windex, size, rindexShown := 0, 0, 0, 0;
      wpc, rpc, written, shown, gone := WIdle, RIdle, [], [], 0;
      new;
      EmptyInv(m, keepLast);
      assert queue[..] == seq(m, i => None);
    }

    /** The slot to fill, when there is room. */
    method TryPeekWritable() returns (slot: Option<nat>)
      requires Valid() && wpc == WIdle
      modifies this`wpc
      ensures Valid() && (slot.Some? <==> old(size) < maxSize)
      ensures State() == if slot.Some? then PeekWritable(old(State())) else old(State())
      ensures slot.Some? ==> slot.value == windex
    {
      if size >= maxSize {
        return None;
      }
      ghost var s := State();
      wpc := Filling;
      StepKeeps(s, State());
      slot := Some(windex);
    }

    method FillSlot(f: Frame)
      requires Valid() && wpc == Filling
      modifies queue
      ensures Valid() && State() == Fill(old(State()), f)
    {
      FillKeeps(State(), f);
      queue[windex] := Some(f);
      assert State() == Fill(old(State()), f);
    }

    /** frame_queue_push, first part. */
    method StepWriteIndex()
      requires Valid() && CanAdvance(State())
      modifies this`windex, this`wpc, this`written
      ensures Valid() && State() == AdvanceWrite(old(State()))
    {
      AdvanceWriteKeeps(State());
      written := written + [queue[windex].value];
      windex := windex + 1;
      if windex == maxSize {
        windex := 0;
      }
      wpc := Advanced;
    }

    /** frame_queue_push, second part, under the lock. */
    method StepWriteSize()
      requires Valid() && wpc == Advanced
      modifies this`size, this`wpc
      ensures Valid() && State() == CommitWrite(old(State()))
    {
      StepKeeps(State(), CommitWrite(State()));
      size := size + 1;
      wpc := WIdle;
    }

    /** The frame to show, when there is one. */
    method TryPeekReadable() returns (slot: Option<nat>)
      requires Valid() && rpc == RIdle
      modifies this`rpc
      ensures Valid() && (slot.Some? <==> old(size) - rindexShown > 0)
      ensures State() == if slot.Some? then PeekReadable(old(State())) else old(State())
      ensures slot.Some? ==> slot.value == Peek(State()) && queue[slot.value] == Some(written[|shown|])
    {
      hide Stored;
      if size - rindexShown <= 0 {
        return None;
      }
      StepKeeps(State(), PeekReadable(State()));
      rpc := Using;
      PeekIsNextFrame(State());
      hide Inv;
      slot := Some((rindex + rindexShown) % maxSize);
    }

    /** frame_queue_next, first part. */
    method PassFrame() returns (released: bool)
      requires Valid() && CanPass(State())
      modifies this`rindexShown, this`rpc, this`shown, queue
      ensures Valid() && State() == Pass(old(State()))
      ensures released <==> rpc == Released
    {
      PassKeeps(State());
      shown := shown + [queue[(rindex + rindexShown) % maxSize].value];
      if keepLast && rindexShown == 0 {
        rindexShown := 1;
        rpc := RIdle;
        return false;
      }
      queue[rindex] := None;
      rpc := Released;
      assert State() == Pass(old(State()));
      released := true;
    }

    /** frame_queue_next, second part. */
    method StepReadIndex()
      requires Valid() && rpc == Released
      modifies this`rindex, this`rpc, this`gone
      ensures Valid() && State() == AdvanceRead(old(State()))
    {
      AdvanceReadKeeps(State());
      rindex := rindex + 1;
      if rindex == maxSize {
        rindex := 0;
      }
      rpc := Moved;
      gone := gone + 1;
    }

    /** frame_queue_next, last part, under the lock. */
    method StepReadSize()
      requires Valid() && rpc == Moved
      modifies this`size, this`rpc
      ensures Valid() && State() == CommitRead(old(State()))
    {
      StepKeeps(State(), CommitRead(State()));
      size := size - 1;
      rpc := RIdle;
    }
  }
}
