/** Reassembly of 4XM frames that arrive in chunks, interleaved by frame id, in a table of slots. */
module CFrames {

  const SLOTS: nat := 100
  const UINT_MAX: nat := 0xFFFF_FFFF
  const PADDING: nat := 64

  type Byte = nat

  /** id 0 marks a slot never used or emptied by completion. */
  datatype Slot = Slot(id: int, data: seq<Byte>)

  datatype Chunk = Chunk(id: int, whole: int, payload: seq<Byte>)

  /** NoSlot: neither a slot with the id nor an empty one. */
  datatype Outcome = Invalid | Incomplete | Complete(frame: seq<Byte>) | NoSlot

  ghost predicate HoldsAt(slots: seq<Slot>, id: int, i: int) {
    0 <= i < |slots| && slots[i].id == id
  }

  /** Where a chunk goes: the first slot with its id, else the last empty slot. */
  ghost predicate Chosen(slots: seq<Slot>, id: int, k: nat) {
    && k < |slots|
    && if exists i :: HoldsAt(slots, id, i)
       then slots[k].id == id && forall i :: 0 <= i < k ==> slots[i].id != id
       else slots[k].data == [] && forall i :: k < i < |slots| ==> slots[i].data != []
  }

  ghost predicate HasRoom(slots: seq<Slot>, id: int) {
    exists i :: 0 <= i < |slots| && (HoldsAt(slots, id, i) || slots[i].data == [])
  }

  /** The slot table after a chunk has gone to slot k, and the outcome. */
  ghost function Deliver(slots: seq<Slot>, c: Chunk, k: nat): (r: (seq<Slot>, Outcome))
    requires k < |slots|
    ensures |r.0| == |slots|
  {
    var had := slots[k].data;
    var data := had + c.payload;
    if |data| > UINT_MAX - PADDING then (slots[k := Slot(c.id, had)], Invalid)
    else if |data| >= c.whole then (slots[k := Slot(0, [])], Complete(data))
    else (slots[k := Slot(c.id, data)], Incomplete)
  }

  /** Used ids are distinct, and unused slots are empty. */
  ghost predicate Tidy(slots: seq<Slot>) {
    && |slots| == SLOTS
    && (forall i :: 0 <= i < |slots| && slots[i].id == 0 ==> slots[i].data == [])
    && (forall i, j :: 0 <= i < j < |slots| && slots[i].id != 0 ==> slots[i].id != slots[j].id)
  }

  /** What has been collected for an id. */
  ghost function Collected(slots: seq<Slot>, id: int): seq<Byte> {
    if i :| HoldsAt(slots, id, i) then slots[i].data else []
  }

  lemma {:induction false} CollectedAt(slots: seq<Slot>, id: int, i: nat)
    requires Tidy(slots) && HoldsAt(slots, id, i) && id != 0
    ensures Collected(slots, id) == slots[i].data
  {
  }

  /** A chunk with a non-zero id extends what that id has collected, completes it or leaves it,
      and does not disturb any other id. */
  lemma {:induction false} DeliverMeaning(slots: seq<Slot>, c: Chunk, k: nat, other: int)
    requires Tidy(slots) && c.id != 0 && Chosen(slots, c.id, k) && other != 0
    ensures var (slots', r) := Deliver(slots, c, k);
            var data := Collected(slots, c.id) + c.payload;
            && Tidy(slots')
            && (|data| > UINT_MAX - PADDING <==> r == Invalid)
            && (r != Invalid ==> (r == Complete(data) <==> |data| >= c.whole) && (r.Complete? ==> r.frame == data))
            && Collected(slots', other)
               == if other != c.id || r == Invalid then Collected(slots, other)
                  else if r.Complete? then [] else data
  {
    var (slots', r) := Deliver(slots, c, k);
    DeliverTidy(slots, c, k);
    ChosenCollected(slots, c.id, k);
    if HoldsAt(slots', c.id, k) {
      CollectedAt(slots', c.id, k);
    } else {
      GoneAfterwards(slots, c, k);
    }
    if other != c.id {
      OtherUndisturbed(slots, slots', c.id, k, other);
    }
  }

  lemma {:induction false} DeliverTidy(slots: seq<Slot>, c: Chunk, k: nat)
    requires Tidy(slots) && c.id != 0 && Chosen(slots, c.id, k)
    ensures Tidy(Deliver(slots, c, k).0)
  {
    OnlyOne(slots, c.id, k);
  }

  lemma {:induction false} OnlyOne(slots: seq<Slot>, id: int, k: nat)
    requires Tidy(slots) && id != 0 && Chosen(slots, id, k)
    ensures forall i :: 0 <= i < |slots| && i != k ==> slots[i].id != id
  {
    if exists j :: HoldsAt(slots, id, j) {
      forall i | 0 <= i < |slots| && i != k ensures slots[i].id != id {
        assert i < k ==> slots[i].id != slots[k].id;
        assert k < i ==> slots[k].id != slots[i].id;
      }
    } else {
      forall i | 0 <= i < |slots| ensures slots[i].id != id {
        assert !HoldsAt(slots, id, i);
      }
    }
  }

  lemma {:induction false} ChosenCollected(slots: seq<Slot>, id: int, k: nat)
    requires Tidy(slots) && id != 0 && Chosen(slots, id, k)
    ensures Collected(slots, id) == slots[k].data
  {
    if i :| HoldsAt(slots, id, i) {
      assert HoldsAt(slots, id, k);
      CollectedAt(slots, id, k);
    }
  }

  lemma {:induction false} GoneAfterwards(slots: seq<Slot>, c: Chunk, k: nat)
    requires Tidy(slots) && c.id != 0 && Chosen(slots, c.id, k) && Deliver(slots, c, k).1.Complete?
    ensures Collected(Deliver(slots, c, k).0, c.id) == []
  {
    var slots' := Deliver(slots, c, k).0;
    OnlyOne(slots, c.id, k);
    assert forall i :: !HoldsAt(slots', c.id, i);
  }

  lemma {:induction false} OtherUndisturbed(slots: seq<Slot>, slots': seq<Slot>, id: int, k: nat, other: int)
    requires Tidy(slots) && Tidy(slots') && id != 0 && other != 0 && other != id && Chosen(slots, id, k)
    requires slots' == slots[k := slots'[k]] && slots'[k].id in {0, id}
    ensures Collected(slots', other) == Collected(slots, other)
  {
    if i :| HoldsAt(slots', other, i) {
      assert HoldsAt(slots, other, i);
      CollectedAt(slots, other, i);
      CollectedAt(slots', other, i);
    } else if i :| HoldsAt(slots, other, i) {
      assert i == k by {
        assert i != k ==> HoldsAt(slots', other, i);
      }
      CollectedAt(slots, other, i);
    }
  }

  /** The payloads of one id since its frame was last completed, in arrival order. */
  ghost function Own(history: seq<Chunk>, id: int): seq<Byte> {
    if history == [] then []
    else
      var c := history[|history| - 1];
      var before := Own(history[..|history| - 1], id);
      if c.id != id then before
      else if |before + c.payload| >= c.whole then [] else before + c.payload
  }

  /** With id 0 the empty slots look like matches: a chunk joins earlier id-0 data exactly when no
      slot before that data has id 0. */
  lemma {:induction false} ZeroIdJoinsIff(slots: seq<Slot>, k: nat, d: nat)
    requires |slots| == SLOTS && Chosen(slots, 0, k)
    requires d < |slots| && slots[d].id == 0 && slots[d].data != []
    requires forall i :: 0 <= i < |slots| && slots[i].id == 0 && i != d ==> slots[i].data == []
    ensures slots[k].data == slots[d].data <==> forall i :: 0 <= i < d ==> slots[i].id != 0
  {
    assert HoldsAt(slots, 0, d);
    if k != d {
      assert slots[k].data == [];
    }
  }

  /** What an id-0 chunk does when slot d has all the id-0 data there is, or nothing has any: where it
      joins, it extends or completes that data; otherwise it starts over and leaves the data behind. */
  lemma {:induction false} ZeroIdDelivers(slots: seq<Slot>, c: Chunk, k: nat, d: nat)
    requires |slots| == SLOTS && c.id == 0 && Chosen(slots, 0, k) && d < |slots| && slots[d].id == 0
    requires forall i :: 0 <= i < |slots| && slots[i].id == 0 && i != d ==> slots[i].data == []
    ensures var (slots', r) := Deliver(slots, c, k);
            var joins := slots[d].data == [] || forall i :: 0 <= i < d ==> slots[i].id != 0;
            var data := if joins then slots[d].data + c.payload else c.payload;
            && (r == Invalid <==> |data| > UINT_MAX - PADDING)
            && (r != Invalid ==> if |data| >= c.whole then r == Complete(data) else r == Incomplete)
            && (forall i :: 0 <= i < |slots| && slots[i].id != 0 ==> slots'[i] == slots[i])
            && (!joins ==> slots'[d] == slots[d])
            && (r == Complete(data) ==> slots'[k] == Slot(0, [])) && (r == Incomplete ==> slots'[k] == Slot(0, data))
  {
    assert HoldsAt(slots, 0, d);
    ZeroIdJoinsOrNot(slots, k, d);
  }

  lemma {:induction false} ZeroIdJoinsOrNot(slots: seq<Slot>, k: nat, d: nat)
    requires |slots| == SLOTS && Chosen(slots, 0, k) && d < |slots| && slots[d].id == 0
    ensures slots[k].id == 0 && k <= d
    ensures k == d <==> forall i :: 0 <= i < d ==> slots[i].id != 0
  {
    assert HoldsAt(slots, 0, d);
  }

  // A run in which an id-0 frame falls apart

  ghost predicate Follows(slots: seq<Slot>, c: Chunk, slots': seq<Slot>) {
    exists k: nat :: Chosen(slots, c.id, k) && slots' == Deliver(slots, c, k).0
  }

  ghost predicate IsRun(tables: seq<seq<Slot>>, cs: seq<Chunk>) {
    && |tables| == |cs| + 1 && tables[0] == Filled(0)
    && forall i :: 0 <= i < |cs| ==> Follows(tables[i], cs[i], tables[i + 1])
  }

  /** The table with its last n slots in use. */
  ghost function Filled(n: nat): seq<Slot> {
    seq(SLOTS, i => if i >= SLOTS - n then Slot(i + 1, [9]) else Slot(0, []))
  }

  lemma {:induction false} RunGrows(tables: seq<seq<Slot>>, cs: seq<Chunk>, c: Chunk, k: nat, slots: seq<Slot>)
    requires IsRun(tables, cs) && Chosen(tables[|cs|], c.id, k) && slots == Deliver(tables[|cs|], c, k).0
    ensures IsRun(tables + [slots], cs + [c]) && (tables + [slots])[|cs| + 1] == slots
    ensures Own(cs + [c], 0) == if c.id != 0 then Own(cs, 0)
                                else if |Own(cs, 0) + c.payload| >= c.whole then [] else Own(cs, 0) + c.payload
  {
    assert Follows(tables[|cs|], c, slots);
    hide Chosen, Deliver, Follows, Own;
    OwnStep(cs, c, 0);
    var tables', cs' := tables + [slots], cs + [c];
    forall i | 0 <= i < |cs'| ensures Follows(tables'[i], cs'[i], tables'[i + 1]) {
      assert tables'[i] == tables[i] && (i < |cs| ==> tables'[i + 1] == tables[i + 1] && cs'[i] == cs[i]);
    }
  }

  /** New ids fill the table from its end. */
  lemma {:induction false} Fill(n: nat) returns (tables: seq<seq<Slot>>, cs: seq<Chunk>)
    requires n <= SLOTS
    ensures IsRun(tables, cs) && |cs| == n && tables[n] == Filled(n) && Own(cs, 0) == []
  {
    if n == 0 {
      tables, cs := [Filled(0)], [];
    } else {
      hide IsRun, Own;
      tables, cs := Fill(n - 1);
      FillOne(n);
      RunGrows(tables, cs, Filler(SLOTS - n), SLOTS - n, Filled(n));
      tables, cs := tables + [Filled(n)], cs + [Filler(SLOTS - n)];
    }
  }

  /** The first half of a frame with the id that goes to the given slot. */
  ghost function Filler(slot: nat): Chunk {
    Chunk(slot + 1, 2, [9])
  }

  lemma {:induction false} FillOne(n: nat)
    requires 0 < n <= SLOTS
    ensures Chosen(Filled(n - 1), Filler(SLOTS - n).id, SLOTS - n)
    ensures Deliver(Filled(n - 1), Filler(SLOTS - n), SLOTS - n) == (Filled(n), Incomplete)
  {
    var slots := Filled(n - 1);
    var id := Filler(SLOTS - n).id;
    assert forall i :: !HoldsAt(slots, id, i);
    assert [] + [9] == [9];
    assert slots[SLOTS - n := Slot(SLOTS - n + 1, [9])] == Filled(n);
  }

  /** The full table, with the given slots emptied by completion. */
  ghost function Used(empty: set<int>, zero: set<int>): seq<Slot> {
    seq(SLOTS, i => if i in empty then Slot(0, []) else if i in zero then Slot(0, [1]) else Slot(i + 1, [9]))
  }

  /** The second half of a frame completes it and empties its slot. */
  lemma {:induction false} CompleteOne(k: nat, zero: set<int>)
    requires k < SLOTS && k !in zero
    ensures Chosen(Used({}, zero), Filler(k).id, k)
    ensures Deliver(Used({}, zero), Filler(k), k) == (Used({k}, zero), Complete([9, 9]))
  {
    var slots := Used({}, zero);
    assert HoldsAt(slots, k + 1, k);
    assert [9] + [9] == [9, 9];
    assert slots[k := Slot(0, [])] == Used({k}, zero);
  }

  /** From the empty table: fill it, complete the frame in slot 50, put half of an id-0 frame there,
      complete the frame in slot 0. The other half then goes to slot 0, and the frame, whose payloads
      are all there, is not completed. */
  lemma {:induction false} ZeroIdFallsApart() returns (tables: seq<seq<Slot>>, cs: seq<Chunk>, last: Chunk)
    ensures IsRun(tables, cs) && last.id == 0
    ensures Own(cs, 0) + last.payload == [1, 2] && last.whole == 2
    ensures forall k: nat :: Chosen(tables[|cs|], 0, k) <==> k == 0
    ensures Deliver(tables[|cs|], last, 0).1 == Incomplete
  {
    hide IsRun, Own, Chosen, Deliver, Filled, Used;
    tables, cs := Fill(SLOTS);
    FullTable();
    CompleteOne(50, {});
    RunGrows(tables, cs, Filler(50), 50, Used({50}, {}));
    tables, cs := tables + [Used({50}, {})], cs + [Filler(50)];
    FirstHalf();
    RunGrows(tables, cs, Chunk(0, 2, [1]), 50, Used({}, {50}));
    assert [] + [1] == [1];
    tables, cs := tables + [Used({}, {50})], cs + [Chunk(0, 2, [1])];
    CompleteOne(0, {50});
    RunGrows(tables, cs, Filler(0), 0, Used({0}, {50}));
    tables, cs := tables + [Used({0}, {50})], cs + [Filler(0)];
    last := Chunk(0, 2, [2]);
    SecondHalf();
  }

  lemma {:induction false} FullTable()
    ensures Filled(SLOTS) == Used({}, {})
  {
  }

  lemma {:induction false} FirstHalf()
    ensures Chosen(Used({50}, {}), 0, 50)
    ensures Deliver(Used({50}, {}), Chunk(0, 2, [1]), 50) == (Used({}, {50}), Incomplete)
  {
    var slots := Used({50}, {});
    assert HoldsAt(slots, 0, 50);
    assert [] + [1] == [1];
    assert slots[50 := Slot(0, [1])] == Used({}, {50});
  }

  lemma {:induction false} SecondHalf()
    ensures forall k: nat :: Chosen(Used({0}, {50}), 0, k) <==> k == 0
    ensures Deliver(Used({0}, {50}), Chunk(0, 2, [2]), 0).1 == Incomplete
  {
    var slots := Used({0}, {50});
    assert HoldsAt(slots, 0, 0);
    assert [] + [2] == [2];
  }

  // When there is room

  /** The ids other than the given one and 0 with data that is not complete yet. */
  ghost function Unfinished(history: seq<Chunk>, id: int): set<int> {
    set c | c in history && c.id != 0 && c.id != id && Own(history, c.id) != [] :: c.id
  }

  /** What the table holds for each id is what the history says it should. */
  ghost predicate Matches(slots: seq<Slot>, history: seq<Chunk>) {
    && Tidy(slots)
    && forall id :: id != 0 ==> Collected(slots, id) == Own(history, id)
  }

  lemma {:induction false} OwnOccurs(history: seq<Chunk>, id: int) returns (c: Chunk)
    requires Own(history, id) != []
    ensures c in history && c.id == id
    decreases |history|
  {
    c := history[|history| - 1];
    if c.id != id {
      c := OwnOccurs(history[..|history| - 1], id);
    }
  }

  /** The ids other than the given one that hold data in the first n slots. */
  ghost function Busy(slots: seq<Slot>, n: nat, id: int): set<int>
    requires n <= |slots|
  {
    if n == 0 then {}
    else Busy(slots, n - 1, id) + if slots[n - 1].data != [] && slots[n - 1].id != id then {slots[n - 1].id} else {}
  }

  lemma {:induction false} BusyIds(slots: seq<Slot>, n: nat, id: int)
    requires n <= |slots|
    ensures forall x :: x in Busy(slots, n, id) <==>
                        x != id && exists i :: HoldsAt(slots, x, i) && i < n && slots[i].data != []
  {
    if n > 0 {
      BusyIds(slots, n - 1, id);
      assert HoldsAt(slots, slots[n - 1].id, n - 1);
    }
  }

  lemma {:induction false} BusyCount(slots: seq<Slot>, n: nat, id: int)
    requires Tidy(slots) && n <= |slots|
    ensures |Busy(slots, n, id)| <= n
    ensures |Busy(slots, n, id)| == n <==> forall i :: 0 <= i < n ==> slots[i].data != [] && slots[i].id != id
  {
    hide Tidy;
    if n > 0 {
      BusyCount(slots, n - 1, id);
      NotYetBusy(slots, n, id);
    }
  }

  lemma {:induction false} NotYetBusy(slots: seq<Slot>, n: nat, id: int)
    requires Tidy(slots) && 0 < n <= |slots|
    ensures slots[n - 1].data != [] ==> slots[n - 1].id !in Busy(slots, n - 1, id)
  {
    hide Busy;
    BusyIds(slots, n - 1, id);
  }

  /** A chunk finds no slot exactly when as many other ids as there are slots wait for the rest of
      their data. */
  lemma {:induction false} RoomIff(slots: seq<Slot>, history: seq<Chunk>, id: int)
    requires Matches(slots, history) && id != 0
    ensures HasRoom(slots, id) <==> |Unfinished(history, id)| < SLOTS
  {
    hide Own;
    BusyIds(slots, SLOTS, id);
    BusyCount(slots, SLOTS, id);
    forall x ensures x in Busy(slots, SLOTS, id) <==> x in Unfinished(history, id) {
      if i :| HoldsAt(slots, x, i) && slots[i].data != [] {
        CollectedAt(slots, x, i);
        var c := OwnOccurs(history, x);
      }
    }
    assert Busy(slots, SLOTS, id) == Unfinished(history, id);
  }

  /** A hundred unfinished frames fill the table, and the next id has nowhere to go. */
  lemma {:induction false} NoRoomHappens() returns (tables: seq<seq<Slot>>, cs: seq<Chunk>)
    ensures IsRun(tables, cs) && |cs| == SLOTS && !HasRoom(tables[SLOTS], SLOTS + 1)
  {
    tables, cs := Fill(SLOTS);
  }

  class Decoder {
    const version: nat
    const cfrm: array<Slot>
    ghost var history: seq<Chunk>

    ghost predicate Valid()
      reads this
    {
      cfrm.Length == SLOTS
    }

    ghost predicate Faithful()
      reads this, cfrm
    {
      Matches(cfrm[..], history)
    }

    constructor (version: nat)
      ensures Valid() && Faithful() && fresh(cfrm) && history == [] && this.version == version
    {
      this.version := version;
      cfrm := new Slot[SLOTS](i => Slot(0, []));
      history := [];
      new;
      forall id | id != 0 ensures Collected(cfrm[..], id) == [] {
        assert forall i :: !HoldsAt(cfrm[..], id, i);
      }
    }

    /** The two scans over the table: a matching slot, remembering the last empty one; -1 if neither
        exists. */
    method FindSlot(id: int) returns (i: int)
      requires Valid()
      ensures i == -1 <==> !HasRoom(cfrm[..], id)
      ensures i != -1 ==> i >= 0 && Chosen(cfrm[..], id, i)
    {
      var free := -1;
      i := 0;
      while i < SLOTS
        invariant 0 <= i <= SLOTS
        invariant forall k :: 0 <= k < i ==> !HoldsAt(cfrm[..], id, k)
        invariant -1 <= free < i
        invariant free >= 0 ==> cfrm[free].data == []
        invariant forall k :: free < k < i ==> cfrm[k].data != []
      {
        if cfrm[i].id == id {
          assert HoldsAt(cfrm[..], id, i);
          forall k | 0 <= k < i ensures cfrm[..][k].id != id {
            assert !HoldsAt(cfrm[..], id, k);
          }
          return;
        }
        if |cfrm[i].data| == 0 {
          free := i;
        }
        i := i + 1;
      }
      i := free;
    }

    /** A chunk of a frame. */
    method ReceiveChunk(c: Chunk) returns (r: Outcome, ghost k: nat)
      requires Valid()
      modifies this`history, cfrm
      ensures Valid()
      ensures version <= 1 || c.whole < 0 ==> r == Invalid && cfrm[..] == old(cfrm[..]) && history == old(history)
      ensures version > 1 && c.whole >= 0 && !HasRoom(old(cfrm[..]), c.id) ==>
                r == NoSlot && cfrm[..] == old(cfrm[..]) && history == old(history)
      ensures version > 1 && c.whole >= 0 && HasRoom(old(cfrm[..]), c.id) ==>
                && Chosen(old(cfrm[..]), c.id, k) && (cfrm[..], r) == Deliver(old(cfrm[..]), c, k)
                && history == if r == Invalid then old(history) else old(history) + [c]
      ensures version > 1 && c.whole >= 0 && c.id != 0 && old(Faithful()) ==>
                var data := Own(old(history), c.id) + c.payload;
                && Faithful()
                && r == if |Unfinished(old(history), c.id)| >= SLOTS then NoSlot
                        else if |data| > UINT_MAX - PADDING then Invalid
                        else if |data| >= c.whole then Complete(data) else Incomplete
    {
      hide Own, Unfinished, HasRoom;
      k := 0;
      if version <= 1 {
        return Invalid, k;
      }
      if c.whole < 0 {
        return Invalid, k;
      }
      if Faithful() && c.id != 0 {
        RoomIff(cfrm[..], history, c.id);
      }
      var i := FindSlot(c.id);
      if i == -1 {
        return NoSlot, k;
      }
      k := i;
      ghost var slots := cfrm[..];
      if cfrm[i].id != c.id {
        cfrm[i] := Slot(c.id, cfrm[i].data);
      }
      if |c.payload| > UINT_MAX - PADDING - |cfrm[i].data| {
        r := Invalid;
      } else {
        cfrm[i] := Slot(c.id, cfrm[i].data + c.payload);
        if |cfrm[i].data| >= c.whole {
          r := Complete(cfrm[i].data);
          cfrm[i] := Slot(0, []);
        } else {
          r := Incomplete;
        }
        history := history + [c];
      }
      assert cfrm[..] == Deliver(slots, c, i).0;
      if c.id != 0 && old(Faithful()) {
        DeliverTidy(slots, c, i);
        ChosenCollected(slots, c.id, i);
        forall id | id != 0 ensures Collected(cfrm[..], id) == Own(history, id) {
          DeliverMeaning(slots, c, i, id);
          OwnStep(old(history), c, id);
        }
      }
    }
  }

  lemma {:induction false} OwnStep(history: seq<Chunk>, c: Chunk, id: int)
    ensures Own(history + [c], id) ==
            if c.id != id then Own(history, id)
            else if |Own(history, id) + c.payload| >= c.whole then [] else Own(history, id) + c.payload
  {
    assert (history + [c])[..|history|] == history;
  }
}
