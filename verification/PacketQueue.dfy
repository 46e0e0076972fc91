/** The ffplay packet queue: a linked list with serial numbers, counters and an abort flag. */
module PacketQueue {

  /** flush marks the special packet that starts a new serial. */
  datatype Packet = Packet(id: int, size: nat, duration: int, flush: bool)

  datatype Entry = Entry(pkt: Packet, serial: int)

  /** The queue as a sequence. */
  datatype Queue = Queue(entries: seq<Entry>, abort: bool, serial: int)

  datatype Fetched = Aborted | Empty | Got(entry: Entry)

  const FLUSH: Packet := Packet(0, 0, 0, true)

  /** Bytes charged per list node on top of the packet: the size of a node, whose value is a platform
      matter that nothing below depends on. */
  const OVERHEAD: nat := 104

  // The sequence operations

  function Put(q: Queue, p: Packet): (r: (Queue, bool)) {
    if q.abort then (q, false)
    else
      var serial := if p.flush then q.serial + 1 else q.serial;
      (q.(entries := q.entries + [Entry(p, serial)], serial := serial), true)
  }

  function Get(q: Queue): (r: (Queue, Fetched)) {
    if q.abort then (q, Aborted)
    else if q.entries == [] then (q, Empty)
    else (q.(entries := q.entries[1..]), Got(q.entries[0]))
  }

  function Cleared(q: Queue): Queue {
    q.(entries := [])
  }

  function Stopped(q: Queue): Queue {
    q.(abort := true)
  }

  function Started(q: Queue): Queue {
    Put(q.(abort := false), FLUSH).0
  }

  ghost function TotalSize(es: seq<Entry>): int {
    if es == [] then 0 else es[0].pkt.size + OVERHEAD + TotalSize(es[1..])
  }

  ghost function TotalDuration(es: seq<Entry>): int {
    if es == [] then 0 else es[0].pkt.duration + TotalDuration(es[1..])
  }

  lemma {:induction false} TotalsAppend(es: seq<Entry>, e: Entry)
    ensures TotalSize(es + [e]) == TotalSize(es) + e.pkt.size + OVERHEAD
    ensures TotalDuration(es + [e]) == TotalDuration(es) + e.pkt.duration
  {
    if es != [] {
      TotalsAppend(es[1..], e);
      assert (es + [e])[1..] == es[1..] + [e];
    } else {
      assert [e][1..] == [];
    }
  }

  lemma {:induction false} TotalsHead(es: seq<Entry>)
    requires es != []
    ensures TotalSize(es) == es[0].pkt.size + OVERHEAD + TotalSize(es[1..])
    ensures TotalDuration(es) == es[0].pkt.duration + TotalDuration(es[1..])
  {
  }

  /** Serials never fall from head to tail and never exceed the queue's. */
  ghost predicate Ordered(q: Queue) {
    && (forall i, j :: 0 <= i < j < |q.entries| ==> q.entries[i].serial <= q.entries[j].serial)
    && (forall i :: 0 <= i < |q.entries| ==> q.entries[i].serial <= q.serial)
  }

  lemma {:induction false} OperationsKeepOrder(q: Queue, p: Packet)
    requires Ordered(q)
    ensures Ordered(Put(q, p).0) && Ordered(Get(q).0) && Ordered(Cleared(q)) && Ordered(Stopped(q)) && Ordered(Started(q))
  {
  }

  /** First in, first out: putting at one end and taking from the other commute, except on an
      empty queue, where the packet just put comes back. */
  lemma {:induction false} FirstInFirstOut(q: Queue, p: Packet)
    requires !q.abort
    ensures var q' := Put(q, p).0;
            if q.entries == [] then Get(q') == (q'.(entries := []), Got(Entry(p, q'.serial)))
            else Get(q').1 == Get(q).1 && Get(q').0 == Put(Get(q).0, p).0
  {
    var q' := Put(q, p).0;
    if q.entries != [] {
      assert q'.entries[1..] == q.entries[1..] + [Entry(p, q'.serial)];
    } else {
      assert q'.entries[1..] == [];
    }
  }

  // The queue as a history of puts

  /** How many flush packets are among ps. */
  ghost function Flushes(ps: seq<Packet>): nat {
    if ps == [] then 0 else Flushes(ps[..|ps| - 1]) + if ps[|ps| - 1].flush then 1 else 0
  }

  /** The packet put at position k, with the number of flush packets up to it. */
  ghost predicate PutAt(puts: seq<Packet>, k: int, e: Entry) {
    0 <= k < |puts| && e.pkt == puts[k] && e.serial == Flushes(puts[..k + 1])
  }

  /** Position in the history of the head of the queue. */
  ghost function HeadAt(q: Queue, puts: seq<Packet>): int {
    |puts| - |q.entries|
  }

  /** The queue holds the last of the packets put, each with the count of flush packets at its time. */
  ghost predicate Traced(q: Queue, puts: seq<Packet>) {
    && |q.entries| <= |puts| && q.serial == Flushes(puts)
    && forall i :: 0 <= i < |q.entries| ==> PutAt(puts, HeadAt(q, puts) + i, q.entries[i])
  }

  lemma {:induction false} PutAtGrows(puts: seq<Packet>, p: Packet)
    ensures forall k, e :: PutAt(puts, k, e) ==> PutAt(puts + [p], k, e)
    ensures Flushes(puts + [p]) == Flushes(puts) + if p.flush then 1 else 0
  {
    assert (puts + [p])[..|puts|] == puts;
    forall k, e | PutAt(puts, k, e) ensures PutAt(puts + [p], k, e) {
      assert (puts + [p])[..k + 1] == puts[..k + 1];
    }
  }

  lemma {:induction false} TracedPush(q: Queue, puts: seq<Packet>, p: Packet)
    requires Traced(q, puts)
    ensures var serial := q.serial + if p.flush then 1 else 0;
            Traced(Queue(q.entries + [Entry(p, serial)], q.abort, serial), puts + [p])
  {
    PutAtGrows(puts, p);
    PutAtEnd(puts, p);
    hide PutAt, Flushes;
    var serial := q.serial + if p.flush then 1 else 0;
    var q' := Queue(q.entries + [Entry(p, serial)], q.abort, serial);
    assert HeadAt(q', puts + [p]) == HeadAt(q, puts);
    forall i | 0 <= i < |q'.entries| ensures PutAt(puts + [p], HeadAt(q', puts + [p]) + i, q'.entries[i]) {
      if i < |q.entries| {
        assert PutAt(puts, HeadAt(q, puts) + i, q.entries[i]);
      }
    }
  }

  lemma {:induction false} PutAtEnd(puts: seq<Packet>, p: Packet)
    ensures PutAt(puts + [p], |puts|, Entry(p, Flushes(puts) + if p.flush then 1 else 0))
  {
    assert (puts + [p])[..|puts|] == puts && (puts + [p])[..|puts| + 1] == puts + [p];
  }

  /** Serials count flush packets: a put is refused exactly by an aborted queue, a flush packet and a
      start raise the serial by one, nothing else does. */
  lemma {:induction false} PutTraced(q: Queue, puts: seq<Packet>, p: Packet)
    requires Traced(q, puts)
    ensures var (q', ok) := Put(q, p);
            && (ok <==> !q.abort) && Traced(q', if ok then puts + [p] else puts)
            && q'.serial == q.serial + (if ok && p.flush then 1 else 0) && q'.abort == q.abort
            && |q'.entries| == |q.entries| + (if ok then 1 else 0)
  {
    TracedPush(q, puts, p);
    hide Traced;
  }

  lemma {:induction false} StartTraced(q: Queue, puts: seq<Packet>)
    requires Traced(q, puts)
    ensures Traced(Started(q), puts + [FLUSH]) && !Started(q).abort && Started(q).serial == q.serial + 1
  {
    PutTraced(q.(abort := false), puts, FLUSH);
  }

  /** Taking gives the packets in the order put, nothing on an aborted queue; emptying and aborting
      keep the serial. */
  lemma {:induction false} GetTraced(q: Queue, puts: seq<Packet>)
    requires Traced(q, puts)
    ensures var (q', r) := Get(q);
            && Traced(q', puts) && q'.serial == q.serial && q'.abort == q.abort
            && (r == Aborted <==> q.abort) && (r == Empty <==> !q.abort && HeadAt(q, puts) == |puts|)
            && (r.Got? ==> PutAt(puts, HeadAt(q, puts), r.entry) && HeadAt(q', puts) == HeadAt(q, puts) + 1)
            && (!r.Got? ==> q' == q)
    ensures Traced(Cleared(q), puts) && HeadAt(Cleared(q), puts) == |puts| && Cleared(q).abort == q.abort
    ensures Traced(Stopped(q), puts) && HeadAt(Stopped(q), puts) == HeadAt(q, puts) && Stopped(q).abort
  {
    if !q.abort && q.entries != [] {
      assert PutAt(puts, HeadAt(q, puts) + 0, q.entries[0]);
      forall i | 0 <= i < |q.entries| - 1 ensures PutAt(puts, HeadAt(q, puts) + 1 + i, q.entries[1..][i]) {
        assert PutAt(puts, HeadAt(q, puts) + (i + 1), q.entries[i + 1]);
      }
    }
  }

  lemma {:induction false} FlushesGrow(puts: seq<Packet>, a: nat, b: nat)
    requires a <= b <= |puts|
    ensures Flushes(puts[..a]) <= Flushes(puts[..b])
    ensures Flushes(puts[..a]) == Flushes(puts[..b]) <==> forall f :: a <= f < b ==> !puts[f].flush
    decreases b
  {
    if a < b {
      FlushesGrow(puts, a, b - 1);
      assert puts[..b][..b - 1] == puts[..b - 1];
    }
  }

  /** Packets put before a flush packet have smaller serials than it and all that follow. */
  lemma {:induction false} SeekSeparates(puts: seq<Packet>, a: int, f: int, b: int, d: Entry, e: Entry)
    requires a < f <= b && PutAt(puts, a, d) && PutAt(puts, b, e) && puts[f].flush
    ensures d.serial < e.serial
  {
    FlushesGrow(puts, a + 1, b + 1);
  }

  // The linked list

  class Node {
    const pkt: Packet
    const serial: int
    var next: Node?

    constructor (pkt: Packet, serial: int)
      ensures this.pkt == pkt && this.serial == serial && next == null
    {
      this.pkt, this.serial, next := pkt, serial, null;
    }
  }

  class PacketQueue {
    var firstPkt: Node?
    var lastPkt: Node?
    var nbPackets: int
    var size: int
    var duration: int
    var abortRequest: bool
    var serial: int
    ghost var nodes: seq<Node>

    ghost predicate Linked()
      reads this, nodes
    {
      && (forall i, j :: 0 <= i < j < |nodes| ==> nodes[i] != nodes[j])
      && (forall i :: 0 <= i < |nodes| - 1 ==> nodes[i].next == nodes[i + 1])
      && (nodes == [] ==> firstPkt == null && lastPkt == null)
      && (nodes != [] ==> firstPkt == nodes[0] && lastPkt == nodes[|nodes| - 1] && lastPkt.next == null)
    }

    static ghost function EntriesOf(ns: seq<Node>): (r: seq<Entry>)
      ensures |r| == |ns| && forall i :: 0 <= i < |r| ==> r[i] == Entry(ns[i].pkt, ns[i].serial)
    {
      seq(|ns|, i requires 0 <= i < |ns| => Entry(ns[i].pkt, ns[i].serial))
    }

    ghost function State(): Queue
      reads this
    {
      Queue(EntriesOf(nodes), abortRequest, serial)
    }

    /** The list is well linked, its counters count it, and its serials are ordered. */
    ghost predicate Valid()
      reads this, nodes
    {
      && Linked() && Ordered(State())
      && nbPackets == |nodes|
      && size == TotalSize(EntriesOf(nodes))
      && duration == TotalDuration(EntriesOf(nodes))
    }

    constructor ()
      ensures Valid() && State() == Queue([], true, 0) && nodes == []
    {
      firstPkt, lastPkt, nbPackets, size, duration, abortRequest, serial := null, null, 0, 0, 0, true, 0;
      nodes := [];
    }

    method PutPrivate(pkt: Packet) returns (ok: bool)
      requires Valid()
      modifies this, nodes
      ensures Valid() && (State(), ok) == Put(old(State()), pkt)
      ensures serial == old(serial) + if pkt.flush && !old(abortRequest) then 1 else 0
      ensures fresh(set n | n in nodes && n !in old(nodes))
    {
      hide Ordered, TotalSize, TotalDuration;
      if abortRequest {
        return false;
      }
      OperationsKeepOrder(State(), pkt);
      ghost var es := EntriesOf(nodes);
      if pkt.flush {
        serial := serial + 1;
      }
      var pkt1 := new Node(pkt, serial);
      if lastPkt == null {
        firstPkt := pkt1;
      } else {
        lastPkt.next := pkt1;
      }
      lastPkt := pkt1;
      nbPackets := nbPackets + 1;
      size := size + (pkt.size + OVERHEAD);
      duration := duration + pkt.duration;
      nodes := nodes + [pkt1];
      TotalsAppend(es, Entry(pkt, serial));
      assert EntriesOf(nodes) == es + [Entry(pkt, serial)];
      assert State() == Put(old(State()), pkt).0;
      ok := true;
    }

    /** One pass of the get loop: Empty is where a blocking caller waits. */
    method GetOnce() returns (r: Fetched)
      requires Valid()
      modifies this
      ensures Valid() && (State(), r) == Get(old(State()))
      ensures nodes == old(nodes) || (old(nodes) != [] && nodes == old(nodes)[1..])
    {
      hide Ordered, TotalSize, TotalDuration;
      if abortRequest {
        return Aborted;
      }
      var pkt1 := firstPkt;
      if pkt1 == null {
        return Empty;
      }
      OperationsKeepOrder(State(), FLUSH);
      firstPkt := pkt1.next;
      if firstPkt == null {
        lastPkt := null;
      }
      nbPackets := nbPackets - 1;
      size := size - (pkt1.pkt.size + OVERHEAD);
      duration := duration - pkt1.pkt.duration;
      TotalsHead(EntriesOf(nodes));
      assert EntriesOf(nodes)[1..] == EntriesOf(nodes[1..]);
      ghost var was := nodes;
      assert |was| > 1 ==> was[0].next == was[1];
      nodes := nodes[1..];
      forall i | 0 <= i < |nodes| - 1 ensures nodes[i].next == nodes[i + 1] {
        assert nodes[i] == was[i + 1] && nodes[i + 1] == was[i + 2];
      }
      assert State() == Get(old(State())).0;
      r := Got(Entry(pkt1.pkt, pkt1.serial));
    }

    /** Walks the list, releasing every packet. */
    method Flush() returns (ghost released: seq<Packet>)
      requires Valid()
      modifies this
      ensures Valid() && State() == Cleared(old(State()))
      ensures |released| == |old(nodes)| && forall i :: 0 <= i < |released| ==> released[i] == old(nodes)[i].pkt
    {
      released := [];
      var pkt := firstPkt;
      while pkt != null
        invariant |released| <= |nodes|
        invariant pkt == (if |released| < |nodes| then nodes[|released|] else null)
        invariant forall i :: 0 <= i < |released| ==> released[i] == nodes[i].pkt
        decreases |nodes| - |released|
      {
        var pkt1 := pkt.next;
        released := released + [pkt.pkt];
        pkt := pkt1;
      }
      lastPkt := null;
      firstPkt := null;
      nbPackets := 0;
      size := 0;
      duration := 0;
      nodes := [];
    }

    method Abort()
      requires Valid()
      modifies this`abortRequest
      ensures Valid() && State() == Stopped(old(State()))
    {
      hide Ordered, TotalSize, TotalDuration;
      ghost var q := State();
      OperationsKeepOrder(q, FLUSH);
      abortRequest := true;
      assert State() == Stopped(q);
    }

    method Start()
      requires Valid()
      modifies this, nodes
      ensures Valid() && State() == Started(old(State()))
      ensures serial == old(serial) + 1 && !abortRequest
    {
      abortRequest := false;
      var ok := PutPrivate(FLUSH);
    }
  }
}
