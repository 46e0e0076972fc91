/** One stream of the player as interleaved atomic steps: the reading thread puts packets and
    seeks, the control thread aborts, joins and restarts, and the decoder thread fetches packets
    and feeds the codec. Old packets never mix with new ones inside the codec. */
module DecoderSerial {
  import opened PacketQueue
  import opened Options

  /** Where the decoder thread is in its loop. */
  datatype Pc =
    | Top       // about to compare the queue's serial with the packet serial
    | Receive   // they agreed: about to ask the codec for a frame
    | Deliver   // has a frame: about to hand it to the frame queue
    | Fetch     // about to take the pending packet or one from the queue
    | Fetched   // holds a packet: about to compare serials again
    | Checked   // they agreed: about to flush the codec or feed it
    | Returned  // the thread has ended

  /** A packet taken from the queue; put is a history: its position among all packets put. */
  datatype Held = Held(entry: Entry, put: int)

  /** What the codec experienced: a flush for a flush packet, a flush at its end of stream, a packet.
      serial: the decoder's packet serial at that time; queueSerial and checked: the queue's serial and
      the number of packets put when the packet passed its check. */
  datatype CodecEvent =
    | Flushed(serial: int)
    | Drained(serial: int)
    | Sent(held: Held, serial: int, queueSerial: int, checked: nat)

  datatype Decoder = Decoder(pc: Pc, pktSerial: int, hand: Option<Held>, checkedAt: int, checked: nat,
                             pending: Option<Held>, finished: int, log: seq<CodecEvent>)

  datatype ReaderPc = Reading | Seeking

  /** puts is a history: every packet the queue has accepted. */
  datatype System = System(q: Queue, puts: seq<Packet>, reader: ReaderPc, alive: bool, d: Decoder)

  function NewDecoder(): Decoder {
    Decoder(Top, -1, None, 0, 0, None, 0, [])
  }

  /** Before the stream is opened for the first time. */
  function Initial(): System {
    System(Queue([], true, 0), [], Reading, false, NewDecoder())
  }

  /** The history after a put. */
  function PutsAfter(s: System, p: Packet): seq<Packet> {
    if s.q.abort then s.puts else s.puts + [p]
  }

  // Steps of the reading thread

  ghost predicate ReaderPut(s: System, t: System, p: Packet) {
    s.reader == Reading && !p.flush && t == s.(q := Put(s.q, p).0, puts := PutsAfter(s, p))
  }

  /** First half of a seek: the queue is emptied. */
  ghost predicate SeekFlush(s: System, t: System) {
    s.reader == Reading && t == s.(q := Cleared(s.q), reader := Seeking)
  }

  /** Second half: the flush packet starts a new serial, unless the queue is aborted. */
  ghost predicate SeekPut(s: System, t: System) {
    s.reader == Seeking && t == s.(q := Put(s.q, FLUSH).0, puts := PutsAfter(s, FLUSH), reader := Reading)
  }

  // Steps of the control thread

  ghost predicate AbortStep(s: System, t: System) {
    s.alive && t == s.(q := Stopped(s.q))
  }

  /** After the decoder thread has ended the queue is emptied and the decoder destroyed. */
  ghost predicate Join(s: System, t: System) {
    s.alive && s.q.abort && s.d.pc == Returned && t == s.(q := Cleared(s.q), alive := false)
  }

  /** A new decoder with a new codec; the queue is started with a flush packet. */
  ghost predicate Restart(s: System, t: System) {
    !s.alive && t == s.(q := Started(s.q), puts := s.puts + [FLUSH], alive := true, d := NewDecoder())
  }

  // Steps of the decoder thread

  ghost predicate CompareTop(s: System, t: System) {
    s.d.pc == Top && t == s.(d := s.d.(pc := if s.q.serial == s.d.pktSerial then Receive else Fetch))
  }

  /** The codec may have a frame, be at its end, or ask for more; any other error asks again. */
  ghost predicate ReceiveFrame(s: System, t: System) {
    s.d.pc == Receive &&
    if s.q.abort then t == s.(d := s.d.(pc := Returned))
    else
      || t == s.(d := s.d.(pc := Deliver))
      || t == s.(d := s.d.(pc := Top, finished := s.d.pktSerial, log := s.d.log + [Drained(s.d.pktSerial)]))
      || t == s.(d := s.d.(pc := Fetch))
      || t == s
  }

  /** The frame is queued or discarded; on an aborted queue there is no slot and the thread ends. */
  ghost predicate DeliverFrame(s: System, t: System) {
    s.d.pc == Deliver &&
    (t == s.(d := s.d.(pc := Top)) || (s.q.abort && t == s.(d := s.d.(pc := Returned))))
  }

  /** An empty queue blocks the thread, so there is no step then. */
  ghost predicate FetchPacket(s: System, t: System) {
    s.d.pc == Fetch &&
    if s.d.pending.Some? then t == s.(d := s.d.(pc := Fetched, hand := s.d.pending, pending := None))
    else
      match Get(s.q).1
      case Aborted => t == s.(d := s.d.(pc := Returned))
      case Empty => false
      case Got(e) =>
        t == s.(q := Get(s.q).0,
                d := s.d.(pc := Fetched, hand := Some(Held(e, HeadAt(s.q, s.puts))), pktSerial := e.serial))
  }

  ghost predicate CompareFetched(s: System, t: System) {
    s.d.pc == Fetched &&
    t == s.(d := if s.q.serial == s.d.pktSerial then s.d.(pc := Checked, checkedAt := s.q.serial, checked := |s.puts|)
                 else s.d.(pc := Fetch, hand := None))
  }

  /** A flush packet flushes the codec; others are sent, or kept when the codec is not ready. A
      subtitle decoder also keeps a null packet that it has decoded, to decode it again. */
  ghost predicate FeedCodec(s: System, t: System) {
    s.d.pc == Checked && s.d.hand.Some? &&
    if s.d.hand.value.entry.pkt.flush then
      t == s.(d := s.d.(pc := Top, hand := None, finished := 0, log := s.d.log + [Flushed(s.d.pktSerial)]))
    else
      || t == s.(d := s.d.(pc := Top, hand := None,
                           log := s.d.log + [Sent(s.d.hand.value, s.d.pktSerial, s.d.checkedAt, s.d.checked)]))
      || t == s.(d := s.d.(pc := Top, hand := None, pending := s.d.hand))
      || (s.d.hand.value.entry.pkt.size == 0
          && t == s.(d := s.d.(pc := Top, hand := None, pending := s.d.hand,
                               log := s.d.log + [Sent(s.d.hand.value, s.d.pktSerial, s.d.checkedAt, s.d.checked)])))
  }

  ghost predicate DecoderStep(s: System, t: System) {
    s.alive && (CompareTop(s, t) || ReceiveFrame(s, t) || DeliverFrame(s, t) || FetchPacket(s, t) || CompareFetched(s, t) || FeedCodec(s, t))
  }

  ghost predicate Step(s: System, t: System) {
    || (exists p :: ReaderPut(s, t, p))
    || SeekFlush(s, t) || SeekPut(s, t)
    || AbortStep(s, t) || Join(s, t) || Restart(s, t)
    || DecoderStep(s, t)
  }

  // The invariant

  ghost predicate FlushAt(es: seq<Entry>, serial: int, i: int) {
    0 <= i < |es| && es[i].pkt.flush && es[i].serial == serial
  }

  /** The decoder has already taken the flush packet of this serial, or it comes before index n. */
  ghost predicate Announced(es: seq<Entry>, taken: int, serial: int, n: int) {
    taken == serial || exists i :: FlushAt(es, serial, i) && i < n
  }

  /** Every ordinary packet in the queue is preceded by the flush packet of its serial, and so
      would be a packet put next by a reader that is not in the middle of a seek. */
  ghost predicate QueueInv(s: System) {
    && Ordered(s.q) && s.d.pktSerial <= s.q.serial && -1 <= s.d.pktSerial && 0 <= s.q.serial
    && (forall i :: 0 <= i < |s.q.entries| ==> s.d.pktSerial <= s.q.entries[i].serial)
    && (forall i :: 0 <= i < |s.q.entries| && !s.q.entries[i].pkt.flush ==>
          Announced(s.q.entries, s.d.pktSerial, s.q.entries[i].serial, i))
    && (s.reader == Reading && !s.q.abort ==>
          Announced(s.q.entries, s.d.pktSerial, s.q.serial, |s.q.entries|))
    && (!s.alive ==> s.q.abort)
    && (!s.alive ==> s.q.entries == [])
  }

  /** Serial of the data the codec may hold: that of its last event. */
  ghost function CodecSerial(log: seq<CodecEvent>): Option<int> {
    if log == [] then None else Some(log[|log| - 1].serial)
  }

  ghost predicate Pure(log: seq<CodecEvent>, i: int)
    requires 0 <= i < |log|
  {
    log[i].Sent? ==>
      && i > 0 && log[i - 1].serial == log[i].serial
      && log[i].held.entry.serial == log[i].serial == log[i].queueSerial && !log[i].held.entry.pkt.flush
  }

  ghost predicate LogInv(log: seq<CodecEvent>, pktSerial: int) {
    && (forall i :: 0 <= i < |log| ==> Pure(log, i))
    && (forall i, j :: 0 <= i < j < |log| ==> log[i].serial <= log[j].serial)
    && (forall i :: 0 <= i < |log| ==> log[i].serial <= pktSerial)
  }

  ghost predicate HoldsFlush(d: Decoder) {
    (d.pc == Fetched || d.pc == Checked) && d.hand.Some? && d.hand.value.entry.pkt.flush
  }

  ghost predicate DecoderInv(s: System) {
    var d := s.d;
    && LogInv(d.log, d.pktSerial)
    && ((d.pc == Fetched || d.pc == Checked) <==> d.hand.Some?)
    && (d.hand.Some? ==> d.hand.value.entry.serial == d.pktSerial && d.pending.None?)
    && (d.pending.Some? ==> d.pending.value.entry.serial == d.pktSerial && !d.pending.value.entry.pkt.flush)
    && (d.pktSerial == s.q.serial && !HoldsFlush(d) ==> CodecSerial(d.log) == Some(d.pktSerial))
    && (d.pc == Receive ==> CodecSerial(d.log) == Some(d.pktSerial))
    && (d.pc == Checked ==> d.checkedAt == d.pktSerial)
    && (d.pc == Checked && !HoldsFlush(d) ==> CodecSerial(d.log) == Some(d.pktSerial))
  }

  ghost predicate Inv(s: System) {
    QueueInv(s) && DecoderInv(s)
  }

  lemma {:induction false} InitialInv()
    ensures Inv(Initial())
  {
  }

  /** Ordinary packets keep the queue part; the decoder does not notice. */
  lemma {:induction false} PutKeeps(s: System, t: System, p: Packet)
    requires Inv(s) && ReaderPut(s, t, p)
    ensures Inv(t)
  {
    OperationsKeepOrder(s.q, p);
    if !s.q.abort {
      AnnouncedGrows(s.q.entries, Entry(p, s.q.serial), s.d.pktSerial);
      var n := |s.q.entries|;
      assert t.q.entries == s.q.entries + [Entry(p, s.q.serial)];
      forall i | 0 <= i < |t.q.entries| && !t.q.entries[i].pkt.flush
        ensures Announced(t.q.entries, t.d.pktSerial, t.q.entries[i].serial, i)
      {
        if i < n {
          assert t.q.entries[i] == s.q.entries[i];
        }
      }
    }
  }

  lemma {:induction false} AnnouncedGrows(es: seq<Entry>, e: Entry, taken: int)
    ensures forall serial, n :: n <= |es| && Announced(es, taken, serial, n) ==> Announced(es + [e], taken, serial, n)
    ensures forall serial :: Announced(es, taken, serial, |es|) ==> Announced(es + [e], taken, serial, |es| + 1)
  {
    forall serial, n | n <= |es| && Announced(es, taken, serial, n) ensures Announced(es + [e], taken, serial, n) {
      if taken != serial {
        var i :| FlushAt(es, serial, i) && i < n;
        assert FlushAt(es + [e], serial, i);
      }
    }
    forall serial | Announced(es, taken, serial, |es|) ensures Announced(es + [e], taken, serial, |es| + 1) {
      if taken != serial {
        var i :| FlushAt(es, serial, i) && i < |es|;
        assert FlushAt(es + [e], serial, i);
      }
    }
  }

  /** A flush packet announces its own serial. */
  lemma {:induction false} FlushPutKeeps(s: System, t: System)
    requires Inv(s) && SeekPut(s, t)
    ensures Inv(t)
  {
    OperationsKeepOrder(s.q, FLUSH);
    if !s.q.abort {
      FlushAnnounces(s.q, s.d.pktSerial);
    }
  }

  /** The queue part after a flush packet has been put on a running queue. */
  lemma {:induction false} FlushAnnounces(q: Queue, taken: int)
    requires !q.abort && Ordered(q)
    requires forall i :: 0 <= i < |q.entries| && !q.entries[i].pkt.flush ==>
               Announced(q.entries, taken, q.entries[i].serial, i)
    ensures var r := Put(q, FLUSH).0;
            && (forall i :: 0 <= i < |r.entries| && !r.entries[i].pkt.flush ==>
                  Announced(r.entries, taken, r.entries[i].serial, i))
            && Announced(r.entries, taken, r.serial, |r.entries|)
  {
    var r := Put(q, FLUSH).0;
    var e := Entry(FLUSH, q.serial + 1);
    assert r.entries == q.entries + [e];
    AnnouncedGrows(q.entries, e, taken);
    assert FlushAt(r.entries, r.serial, |q.entries|);
    forall i | 0 <= i < |r.entries| && !r.entries[i].pkt.flush
      ensures Announced(r.entries, taken, r.entries[i].serial, i)
    {
      assert i < |q.entries| && r.entries[i] == q.entries[i];
    }
  }

  lemma {:induction false} RestartKeeps(s: System, t: System)
    requires Inv(s) && Restart(s, t)
    ensures Inv(t)
  {
    FlushAnnounces(s.q.(abort := false), -1);
  }

  /** Taking the head: a packet of a new serial is that serial's flush packet. */
  lemma {:induction false} GetKeeps(s: System, t: System)
    requires Inv(s) && s.alive && FetchPacket(s, t) && s.d.pending.None? && Get(s.q).1.Got?
    ensures Inv(t)
  {
    var es := s.q.entries;
    var e := es[0];
    OperationsKeepOrder(s.q, FLUSH);
    if !e.pkt.flush {
      assert Announced(es, s.d.pktSerial, e.serial, 0);
    }
    forall i | 0 <= i < |t.q.entries| && !t.q.entries[i].pkt.flush
      ensures Announced(t.q.entries, t.d.pktSerial, t.q.entries[i].serial, i)
    {
      assert t.q.entries[i] == es[i + 1];
      AnnouncedShrinks(es, s.d.pktSerial, es[i + 1].serial, i + 1);
    }
    if s.reader == Reading && !s.q.abort {
      AnnouncedShrinks(es, s.d.pktSerial, s.q.serial, |es|);
    }
  }

  /** Dropping the head keeps a serial announced, counting the head as taken. */
  lemma {:induction false} AnnouncedShrinks(es: seq<Entry>, taken: int, serial: int, n: int)
    requires es != [] && n <= |es| && Announced(es, taken, serial, n)
    requires taken <= es[0].serial && es[0].serial <= serial
    ensures Announced(es[1..], es[0].serial, serial, n - 1)
  {
    if es[0].serial != serial {
      var i :| FlushAt(es, serial, i) && i < n;
      assert FlushAt(es[1..], serial, i - 1);
    }
  }

  lemma {:induction false} LogGrows(log: seq<CodecEvent>, pktSerial: int, e: CodecEvent)
    requires LogInv(log, pktSerial) && e.serial == pktSerial
    requires e.Sent? ==> CodecSerial(log) == Some(pktSerial) && e.held.entry.serial == e.queueSerial == pktSerial
                         && !e.held.entry.pkt.flush
    ensures LogInv(log + [e], pktSerial) && CodecSerial(log + [e]) == Some(pktSerial)
  {
    forall i | 0 <= i < |log + [e]| ensures Pure(log + [e], i) {
      if i < |log| {
        assert Pure(log, i);
      }
    }
  }

  lemma {:induction false} DecoderKeeps(s: System, t: System)
    requires Inv(s) && DecoderStep(s, t)
    ensures Inv(t)
  {
    hide Pure, Announced, Ordered;
    if FetchPacket(s, t) && s.d.pending.None? && Get(s.q).1.Got? {
      GetKeeps(s, t);
    } else if s.d.pc == Receive || s.d.pc == Checked {
      if s.d.pc == Checked && !s.d.hand.value.entry.pkt.flush {
        LogGrows(s.d.log, s.d.pktSerial, Sent(s.d.hand.value, s.d.pktSerial, s.d.checkedAt, s.d.checked));
      }
      LogGrows(s.d.log, s.d.pktSerial, Flushed(s.d.pktSerial));
      LogGrows(s.d.log, s.d.pktSerial, Drained(s.d.pktSerial));
      assert t.q == s.q && t.reader == s.reader && t.alive == s.alive && t.d.pktSerial == s.d.pktSerial;
    } else {
      assert t.q == s.q && t.reader == s.reader && t.alive == s.alive && t.d.pktSerial == s.d.pktSerial;
    }
  }

  /** Every step of every thread keeps the invariant. */
  lemma {:induction false} StepKeeps(s: System, t: System)
    requires Inv(s) && Step(s, t)
    ensures Inv(t)
  {
    if p :| ReaderPut(s, t, p) {
      PutKeeps(s, t, p);
    } else if SeekPut(s, t) {
      FlushPutKeeps(s, t);
    } else if Restart(s, t) {
      RestartKeeps(s, t);
    } else if DecoderStep(s, t) {
      DecoderKeeps(s, t);
    }
  }
}
