/** The driver of an output stream's bitstream filter chain. A filter is a deterministic
    transducer: what it emits for an input depends on the inputs it has had so far. */
module BsfChain {

  type Packet = int

  datatype Item = Data(p: Packet) | Eof

  /** hist: everything sent to the filter; pending: what it has not handed out yet. */
  datatype Filter = Filter(emit: (seq<Item>, Item) -> seq<Packet>, hist: seq<Item>, pending: seq<Packet>)

  predicate Ended(f: Filter) {
    |f.hist| > 0 && f.hist[|f.hist| - 1] == Eof
  }

  predicate Drained(f: Filter) {
    f.pending == []
  }

  function AsItems(ps: seq<Packet>): (r: seq<Item>)
    ensures |r| == |ps| && forall i :: 0 <= i < |r| ==> r[i] == Data(ps[i])
  {
    seq(|ps|, i requires 0 <= i < |ps| => Data(ps[i]))
  }

  /** End marks occur only at the end. */
  ghost predicate Stream(items: seq<Item>) {
    forall i :: 0 <= i < |items| - 1 ==> items[i] != Eof
  }

  ghost predicate Closes(items: seq<Item>) {
    |items| > 0 && items[|items| - 1] == Eof
  }

  /** All that a filter emits for items after hist. */
  ghost function Outs(emit: (seq<Item>, Item) -> seq<Packet>, hist: seq<Item>, items: seq<Item>): seq<Packet>
    decreases |items|
  {
    if items == [] then [] else emit(hist, items[0]) + Outs(emit, hist + [items[0]], items[1..])
  }

  /** What the next stage gets: the emitted packets, then the end mark if there was one. */
  ghost function Onward(f: Filter, items: seq<Item>): seq<Item> {
    AsItems(Outs(f.emit, f.hist, items)) + if Closes(items) then [Eof] else []
  }

  ghost function PacketsOf(items: seq<Item>): seq<Packet> {
    if items == [] then []
    else (if items[0].Data? then [items[0].p] else []) + PacketsOf(items[1..])
  }

  datatype Outcome = Outcome(fs: seq<Filter>, out: seq<Packet>, work: nat)

  ghost function Fed(fs: seq<Filter>, lvl: nat, items: seq<Item>): (r: seq<Filter>)
    requires lvl < |fs|
    ensures |r| == |fs|
  {
    fs[lvl := fs[lvl].(hist := fs[lvl].hist + items)]
  }

  /** The reference: whole item lists pass filter after filter. work counts the driver's steps. */
  ghost function Flow(fs: seq<Filter>, lvl: nat, items: seq<Item>): (r: Outcome)
    requires lvl <= |fs|
    ensures |r.fs| == |fs|
    decreases |fs| - lvl
  {
    if lvl == |fs| then Outcome(fs, PacketsOf(items), |items|)
    else
      var r := Flow(Fed(fs, lvl, items), lvl + 1, Onward(fs[lvl], items));
      r.(work := r.work + 2 * |items|)
  }

  lemma {:induction false} OutsAppend(emit: (seq<Item>, Item) -> seq<Packet>, hist: seq<Item>, xs: seq<Item>, ys: seq<Item>)
    ensures Outs(emit, hist, xs + ys) == Outs(emit, hist, xs) + Outs(emit, hist + xs, ys)
    decreases |xs|
  {
    if xs == [] {
      assert xs + ys == ys && hist + xs == hist;
    } else {
      OutsAppend(emit, hist + [xs[0]], xs[1..], ys);
      assert (xs + ys)[1..] == xs[1..] + ys;
      assert hist + [xs[0]] + xs[1..] == hist + xs;
    }
  }

  lemma {:induction false} PacketsAppend(xs: seq<Item>, ys: seq<Item>)
    ensures PacketsOf(xs + ys) == PacketsOf(xs) + PacketsOf(ys)
  {
    if xs == [] {
      assert xs + ys == ys;
    } else {
      PacketsAppend(xs[1..], ys);
      assert (xs + ys)[1..] == xs[1..] + ys;
    }
  }

  lemma {:induction false} OnwardAppend(f: Filter, xs: seq<Item>, ys: seq<Item>)
    requires !Closes(xs)
    ensures Onward(f, xs + ys) == Onward(f, xs) + Onward(f.(hist := f.hist + xs), ys)
    ensures !Closes(Onward(f, xs))
  {
    OutsAppend(f.emit, f.hist, xs, ys);
    var a, b := Outs(f.emit, f.hist, xs), Outs(f.emit, f.hist + xs, ys);
    assert AsItems(a + b) == AsItems(a) + AsItems(b);
    if ys == [] {
      assert xs + ys == xs;
    } else {
      assert (xs + ys)[|xs + ys| - 1] == ys[|ys| - 1];
    }
  }

  /** Feeding a list in two parts is the same as feeding it at once. */
  lemma {:induction false} FlowAppend(fs: seq<Filter>, lvl: nat, xs: seq<Item>, ys: seq<Item>)
    requires lvl <= |fs| && !Closes(xs)
    ensures var r := Flow(fs, lvl, xs);
            var s := Flow(r.fs, lvl, ys);
            Flow(fs, lvl, xs + ys) == Outcome(s.fs, r.out + s.out, r.work + s.work)
    decreases |fs| - lvl
  {
    hide Onward, PacketsOf;
    if lvl == |fs| {
      PacketsAppend(xs, ys);
    } else {
      var f := fs[lvl];
      OnwardAppend(f, xs, ys);
      var fs1 := Fed(fs, lvl, xs);
      FlowAppend(Fed(fs, lvl, xs + ys), lvl + 1, Onward(f, xs), Onward(fs1[lvl], ys));
      var g := fs1[lvl].(hist := fs1[lvl].hist + ys);
      assert g.hist == f.hist + (xs + ys);
      assert fs1[lvl := g] == Fed(fs, lvl, xs + ys);
      FlowFrame(fs1, lvl + 1, Onward(f, xs), lvl, g);
      FlowKeeps(fs1, lvl + 1, Onward(f, xs), lvl);
    }
  }

  /** A flow from lvl on neither reads nor changes the filters before lvl. */
  lemma {:induction false} FlowFrame(fs: seq<Filter>, lvl: nat, items: seq<Item>, k: nat, g: Filter)
    requires k < lvl <= |fs|
    ensures var r := Flow(fs, lvl, items);
            Flow(fs[k := g], lvl, items) == r.(fs := r.fs[k := g])
    decreases |fs| - lvl
  {
    if lvl < |fs| {
      FlowFrame(Fed(fs, lvl, items), lvl + 1, Onward(fs[lvl], items), k, g);
      assert Fed(fs, lvl, items)[k := g] == Fed(fs[k := g], lvl, items);
    }
  }

  lemma {:induction false} FlowKeeps(fs: seq<Filter>, lvl: nat, items: seq<Item>, k: nat)
    requires k < lvl <= |fs|
    ensures Flow(fs, lvl, items).fs[k] == fs[k]
    decreases |fs| - lvl
  {
    if lvl < |fs| {
      FlowKeeps(Fed(fs, lvl, items), lvl + 1, Onward(fs[lvl], items), k);
    }
  }

  lemma {:induction false} FlowNothing(fs: seq<Filter>, lvl: nat)
    requires lvl <= |fs|
    ensures Flow(fs, lvl, []) == Outcome(fs, [], 0)
    decreases |fs| - lvl
  {
    if lvl < |fs| {
      assert fs[lvl].hist + [] == fs[lvl].hist;
      assert Fed(fs, lvl, []) == fs;
      assert Onward(fs[lvl], []) == [];
      FlowNothing(fs, lvl + 1);
    }
  }

  /** Pending packets are none of Flow's business, and histories only grow. */
  lemma {:induction false} FlowShape(fs: seq<Filter>, lvl: nat, items: seq<Item>, k: nat)
    requires lvl <= k < |fs|
    ensures var g := Flow(fs, lvl, items).fs[k];
            g.pending == fs[k].pending && g.emit == fs[k].emit && fs[k].hist <= g.hist
    decreases |fs| - lvl
  {
    if k == lvl {
      FlowKeeps(Fed(fs, lvl, items), lvl + 1, Onward(fs[lvl], items), lvl);
    } else {
      FlowShape(Fed(fs, lvl, items), lvl + 1, Onward(fs[lvl], items), k);
    }
  }

  ghost function CountEof(items: seq<Item>): nat {
    if items == [] then 0 else (if items[0] == Eof then 1 else 0) + CountEof(items[1..])
  }

  lemma {:induction false} CountAppend(xs: seq<Item>, ys: seq<Item>)
    ensures CountEof(xs + ys) == CountEof(xs) + CountEof(ys)
  {
    if xs == [] {
      assert xs + ys == ys;
    } else {
      CountAppend(xs[1..], ys);
      assert (xs + ys)[1..] == xs[1..] + ys;
    }
  }

  lemma {:induction false} CountNone(items: seq<Item>)
    requires forall i :: 0 <= i < |items| ==> items[i] != Eof
    ensures CountEof(items) == 0
  {
    if items != [] {
      CountNone(items[1..]);
    }
  }

  lemma {:induction false} CountStream(items: seq<Item>)
    requires Stream(items)
    ensures CountEof(items) == if Closes(items) then 1 else 0
  {
    if items != [] {
      var init := items[..|items| - 1];
      assert items == init + [items[|items| - 1]];
      CountNone(init);
      CountAppend(init, [items[|items| - 1]]);
    }
  }

  /** Every filter gets exactly as many end marks as the stream has, and gets it last. */
  lemma {:induction false} OneEofEach(fs: seq<Filter>, lvl: nat, items: seq<Item>, k: nat)
    requires lvl <= k < |fs| && Stream(items)
    ensures var g := Flow(fs, lvl, items).fs[k];
            && CountEof(g.hist) == CountEof(fs[k].hist) + (if Closes(items) then 1 else 0)
            && (Closes(items) ==> Ended(g))
            && (!Closes(items) && !Ended(fs[k]) ==> !Ended(g))
    decreases |fs| - lvl
  {
    if k == lvl {
      FlowKeeps(Fed(fs, lvl, items), lvl + 1, Onward(fs[lvl], items), lvl);
      CountAppend(fs[k].hist, items);
      CountStream(items);
    } else {
      hide Outs, CountEof;
      OneEofEach(Fed(fs, lvl, items), lvl + 1, Onward(fs[lvl], items), k);
    }
  }

  // The driver's loop

  /** What filter f still has to hand out, the end mark included. */
  ghost function Backlog(f: Filter): seq<Item> {
    AsItems(f.pending) + if Ended(f) then [Eof] else []
  }

  ghost function Emptied(fs: seq<Filter>, k: nat): (r: seq<Filter>)
    requires k < |fs|
    ensures |r| == |fs|
  {
    fs[k := fs[k].(pending := [])]
  }

  /** What the loop still has to do at idx: the backlog of filter idx-1 flows on, then, unless
      that filter has ended, the backlogs before it. */
  ghost function Owed(fs: seq<Filter>, idx: nat): (r: Outcome)
    requires idx <= |fs|
    ensures |r.fs| == |fs|
    decreases idx
  {
    if idx == 0 then Outcome(fs, [], 0)
    else
      var f := fs[idx - 1];
      var r := Flow(Emptied(fs, idx - 1), idx, Backlog(f));
      if Ended(f) then r
      else
        var s := Owed(r.fs, idx - 1);
        Outcome(s.fs, r.out + s.out, r.work + s.work + 1)
  }

  function Accept(f: Filter, item: Item): Filter {
    f.(hist := f.hist + [item], pending := f.pending + f.emit(f.hist, item))
  }

  /** An item sent to a drained, open filter: its output is what the next stage is owed. */
  lemma {:induction false} BacklogAfterAccept(f: Filter, item: Item)
    requires Drained(f) && !Ended(f)
    ensures Backlog(Accept(f, item)) == Onward(f, [item])
    ensures Ended(Accept(f, item)) == (item == Eof)
  {
    assert Outs(f.emit, f.hist + [item], []) == [];
    assert [item][1..] == [];
    assert Outs(f.emit, f.hist, [item]) == f.emit(f.hist, item) + [];
    assert f.pending + f.emit(f.hist, item) == Outs(f.emit, f.hist, [item]);
  }

  /** The first filter has just been given the item. */
  lemma {:induction false} OwedStart(fs: seq<Filter>, item: Item)
    requires |fs| > 0 && Drained(fs[0]) && !Ended(fs[0])
    ensures var r := Flow(fs, 0, [item]);
            var o := Owed(fs[0 := Accept(fs[0], item)], 1);
            o.fs == r.fs && o.out == r.out && o.work <= r.work
  {
    var fs1 := fs[0 := Accept(fs[0], item)];
    BacklogAfterAccept(fs[0], item);
    assert Emptied(fs1, 0) == Fed(fs, 0, [item]);
    var r := Flow(Emptied(fs1, 0), 1, Backlog(fs1[0]));
    assert r.out + [] == r.out;
  }

  /** A drained, open filter owes nothing: the loop steps back. */
  lemma {:induction false} OwedBack(fs: seq<Filter>, idx: nat)
    requires 0 < idx <= |fs| && Drained(fs[idx - 1]) && !Ended(fs[idx - 1])
    ensures var o, o' := Owed(fs, idx), Owed(fs, idx - 1);
            o'.fs == o.fs && o'.out == o.out && o'.work < o.work
  {
    assert Emptied(fs, idx - 1) == fs;
    assert Backlog(fs[idx - 1]) == [];
    FlowNothing(fs, idx);
    assert [] + Owed(fs, idx - 1).out == Owed(fs, idx - 1).out;
  }

  lemma {:induction false} BacklogPop(f: Filter)
    requires f.pending != []
    ensures Backlog(f) == [Data(f.pending[0])] + Backlog(f.(pending := f.pending[1..]))
  {
  }

  /** After the last filter, a packet is written. */
  lemma {:induction false} OwedWrite(fs: seq<Filter>, p: Packet)
    requires |fs| > 0 && fs[|fs| - 1].pending != [] && p == fs[|fs| - 1].pending[0]
    ensures var k := |fs| - 1;
            var o, o' := Owed(fs, |fs|), Owed(fs[k := fs[k].(pending := fs[k].pending[1..])], |fs|);
            o'.fs == o.fs && o.out == [p] + o'.out && o'.work < o.work
  {
    var k := |fs| - 1;
    var f := fs[k];
    var g := f.(pending := f.pending[1..]);
    BacklogPop(f);
    assert Emptied(fs, k) == Emptied(fs[k := g], k);
    PacketsAppend([Data(p)], Backlog(g));
    assert PacketsOf([Data(p)]) == [p] + PacketsOf([]);
    assert Ended(f) == Ended(g);
    var fs' := Emptied(fs, k);
    if !Ended(f) {
      var s := Owed(fs', k);
      assert [p] + PacketsOf(Backlog(g)) + s.out == [p] + (PacketsOf(Backlog(g)) + s.out);
    }
  }

  /** Before the last filter, the packet goes one stage down. */
  lemma {:induction false} OwedSend(fs: seq<Filter>, idx: nat)
    requires 0 < idx < |fs| && fs[idx - 1].pending != [] && Drained(fs[idx]) && !Ended(fs[idx])
    ensures var f := fs[idx - 1];
            var fs2 := fs[idx - 1 := f.(pending := f.pending[1..])]
                         [idx := Accept(fs[idx], Data(f.pending[0]))];
            var o, o' := Owed(fs, idx), Owed(fs2, idx + 1);
            o'.fs == o.fs && o'.out == o.out && o'.work < o.work
  {
    hide Flow, Onward, Backlog, Accept;
    var f := fs[idx - 1];
    var item := Data(f.pending[0]);
    var g := f.(pending := f.pending[1..]);
    var fs2 := fs[idx - 1 := g][idx := Accept(fs[idx], item)];
    var base := Emptied(fs, idx - 1);
    BacklogPop(f);
    BacklogAfterAccept(fs[idx], item);
    FlowAppend(base, idx, [item], Backlog(g));
    var r := Flow(base, idx, [item]);
    var s := Flow(r.fs, idx, Backlog(g));
    // the part below: one item through filter idx
    var down := Flow(Emptied(fs2, idx), idx + 1, Backlog(fs2[idx]));
    FlowOne(base, idx, item);
    assert Emptied(fs2, idx) == Fed(base, idx, [item])[idx - 1 := g] by {
      AcceptEmptied(fs[idx], item);
    }
    FlowFrame(Fed(base, idx, [item]), idx + 1, Backlog(fs2[idx]), idx - 1, g);
    assert down.fs == r.fs[idx - 1 := g] && down.out == r.out;
    FlowKeeps(base, idx, [item], idx - 1);
    assert Emptied(down.fs, idx - 1) == r.fs;
    assert Ended(f) == Ended(g) && !Ended(fs2[idx]);
    OwedUnfold(fs, idx);
    OwedUnfold(fs2, idx + 1);
    OwedUnfold(down.fs, idx);
    if !Ended(f) {
      var t := Owed(s.fs, idx - 1);
      assert (r.out + s.out) + t.out == r.out + (s.out + t.out);
    }
  }

  lemma {:induction false} AcceptEmptied(f: Filter, item: Item)
    requires Drained(f)
    ensures Accept(f, item).(pending := []) == f.(hist := f.hist + [item])
  {
  }

  lemma {:induction false} FlowOne(fs: seq<Filter>, lvl: nat, item: Item)
    requires lvl < |fs|
    ensures var r, d := Flow(fs, lvl, [item]), Flow(Fed(fs, lvl, [item]), lvl + 1, Onward(fs[lvl], [item]));
            r == d.(work := d.work + 2)
  {
  }

  lemma {:induction false} OwedUnfold(fs: seq<Filter>, idx: nat)
    requires 0 < idx <= |fs|
    ensures var f := fs[idx - 1];
            var r := Flow(Emptied(fs, idx - 1), idx, Backlog(f));
            Owed(fs, idx) == if Ended(f) then r
                             else var s := Owed(r.fs, idx - 1); Outcome(s.fs, r.out + s.out, r.work + s.work + 1)
  {
  }

  /** An ended, drained filter passes its end mark on. */
  lemma {:induction false} OwedSendEof(fs: seq<Filter>, idx: nat)
    requires 0 < idx < |fs| && Drained(fs[idx - 1]) && Ended(fs[idx - 1]) && Drained(fs[idx]) && !Ended(fs[idx])
    ensures var o, o' := Owed(fs, idx), Owed(fs[idx := Accept(fs[idx], Eof)], idx + 1);
            o'.fs == o.fs && o'.out == o.out && o'.work < o.work
  {
    hide Flow, Onward, Accept;
    var fs2 := fs[idx := Accept(fs[idx], Eof)];
    assert Emptied(fs, idx - 1) == fs;
    assert Backlog(fs[idx - 1]) == [Eof];
    BacklogAfterAccept(fs[idx], Eof);
    FlowOne(fs, idx, Eof);
    assert Emptied(fs2, idx) == Fed(fs, idx, [Eof]) by {
      AcceptEmptied(fs[idx], Eof);
    }
    OwedUnfold(fs, idx);
    OwedUnfold(fs2, idx + 1);
  }

  /** At the end of the chain an end mark leaves nothing to do. */
  lemma {:induction false} OwedFinish(fs: seq<Filter>)
    requires |fs| > 0 && Drained(fs[|fs| - 1]) && Ended(fs[|fs| - 1])
    ensures Owed(fs, |fs|).fs == fs && Owed(fs, |fs|).out == []
  {
    assert Emptied(fs, |fs| - 1) == fs;
    assert Backlog(fs[|fs| - 1]) == [Eof];
    assert PacketsOf([Eof]) == [] + PacketsOf([]);
  }

  datatype Received = Got(p: Packet) | Again | End

  class OutputStream {
    var bsf: seq<Filter>
    var written: seq<Packet>

    constructor (filters: seq<Filter>)
      ensures bsf == filters && written == []
    {
      bsf, written := filters, [];
    }

    /** All filters drained and still open: the state between calls. */
    ghost predicate Ready()
      reads this
    {
      forall k :: 0 <= k < |bsf| ==> Drained(bsf[k]) && !Ended(bsf[k])
    }

    method SendPacket(i: nat, item: Item)
      requires i < |bsf| && !Ended(bsf[i])
      modifies this`bsf
      ensures bsf == old(bsf)[i := Accept(old(bsf)[i], item)]
    {
      bsf := bsf[i := Accept(bsf[i], item)];
    }

    method ReceivePacket(i: nat) returns (r: Received)
      requires i < |bsf|
      modifies this`bsf
      ensures r.Got? <==> old(bsf)[i].pending != []
      ensures r.Got? ==> r.p == old(bsf)[i].pending[0]
                         && bsf == old(bsf)[i := old(bsf)[i].(pending := old(bsf)[i].pending[1..])]
      ensures !r.Got? ==> bsf == old(bsf) && (r.End? <==> Ended(bsf[i]))
    {
      var f := bsf[i];
      if f.pending != [] {
        r := Got(f.pending[0]);
        bsf := bsf[i := f.(pending := f.pending[1..])];
      } else {
        r := if Ended(f) then End else Again;
      }
    }

    /** Sends one packet, or the end mark, through the chain. */
    method OutputPacket(item: Item)
      requires Ready()
      modifies this
      ensures var r := Flow(old(bsf), 0, [item]); bsf == r.fs && written == old(written) + r.out
      ensures forall k :: 0 <= k < |bsf| ==> Drained(bsf[k])
      ensures item != Eof ==> Ready()
      ensures item == Eof ==> forall k :: 0 <= k < |bsf| ==>
                Ended(bsf[k]) && CountEof(bsf[k].hist) == CountEof(old(bsf)[k].hist) + 1
    {
      ghost var r := Flow(bsf, 0, [item]);
      forall k | 0 <= k < |bsf|
        ensures Drained(r.fs[k]) && (item == Eof <==> Ended(r.fs[k]))
        ensures CountEof(r.fs[k].hist) == CountEof(bsf[k].hist) + if item == Eof then 1 else 0
      {
        FlowShape(bsf, 0, [item], k);
        OneEofEach(bsf, 0, [item], k);
      }
      if |bsf| > 0 {
        RunChain(item);
      } else if item.Data? {
        written := written + [item.p];
        assert PacketsOf([item]) == [item.p] + PacketsOf([]);
      } else {
        assert PacketsOf([item]) == [] + PacketsOf([]);
      }
    }

    method RunChain(item: Item)
      requires Ready() && |bsf| > 0
      modifies this
      ensures var r := Flow(old(bsf), 0, [item]); bsf == r.fs && written == old(written) + r.out
    {
      hide Flow, Owed;
      OwedStart(bsf, item);
      SendPacket(0, item);
      ghost var goal := Flow(old(bsf), 0, [item]);
      var eof := false;
      var idx := 1;
      while idx > 0
        invariant 0 <= idx <= |bsf| == |old(bsf)| && !eof
        invariant forall k :: idx <= k < |bsf| ==> Drained(bsf[k]) && !Ended(bsf[k])
        invariant Owed(bsf, idx).fs == goal.fs
        invariant written + Owed(bsf, idx).out == old(written) + goal.out
        decreases Owed(bsf, idx).work
      {
        ghost var fs0 := bsf;
        var r := ReceivePacket(idx - 1);
        if r.Again? {
          OwedBack(fs0, idx);
          idx := idx - 1;
          continue;
        } else if r.End? {
          eof := true;
        }
        if idx < |bsf| {
          if eof {
            OwedSendEof(fs0, idx);
          } else {
            OwedSend(fs0, idx);
          }
          SendPacket(idx, if eof then Eof else Data(r.p));
          idx := idx + 1;
          eof := false;
        } else if eof {
          OwedFinish(bsf);
          return;
        } else {
          OwedWrite(fs0, r.p);
          written := written + [r.p];
        }
      }
      OwedNothing(bsf);
    }
  }

  lemma {:induction false} OwedNothing(fs: seq<Filter>)
    ensures Owed(fs, 0) == Outcome(fs, [], 0)
  {
  }

  // Whole runs

  /** One call after another. */
  ghost function Calls(fs: seq<Filter>, items: seq<Item>): (r: (seq<Filter>, seq<Packet>))
    ensures |r.0| == |fs|
    decreases |items|
  {
    if items == [] then (fs, [])
    else
      var r := Flow(fs, 0, items[..1]);
      var s := Calls(r.fs, items[1..]);
      (s.0, r.out + s.1)
  }

  /** A run of calls writes exactly the composition of the filters applied to the whole input. */
  lemma {:induction false} RunIsComposition(fs: seq<Filter>, items: seq<Item>)
    requires Stream(items)
    ensures Calls(fs, items) == (Flow(fs, 0, items).fs, Flow(fs, 0, items).out)
    decreases |items|
  {
    if items == [] {
      FlowNothing(fs, 0);
    } else if |items| == 1 {
      var r := Flow(fs, 0, items[..1]);
      assert items[..1] == items && items[1..] == [];
      assert r.out + [] == r.out;
    } else {
      FlowAppend(fs, 0, items[..1], items[1..]);
      assert items == items[..1] + items[1..];
      RunIsComposition(Flow(fs, 0, items[..1]).fs, items[1..]);
    }
  }
}
