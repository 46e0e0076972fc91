/** Runs of the player's threads: where each packet that the codec gets was put, and what that says
    about seeks, order and the end of the stream. */
module DecoderRuns {
  import opened PacketQueue
  import opened DecoderSerial
  import opened Options

  // Positions of packets among all puts

  /** What the log says of its packet i. */
  ghost predicate SentWell(puts: seq<Packet>, log: seq<CodecEvent>, i: int)
    requires 0 <= i < |log|
  {
    log[i].Sent? ==>
      && PutAt(puts, log[i].held.put, log[i].held.entry)
      && log[i].held.put < log[i].checked <= |puts| && log[i].queueSerial == Flushes(puts[..log[i].checked])
  }

  /** Packet h was put after all those in the log, or is a null packet decoded again. */
  ghost predicate Later(log: seq<CodecEvent>, h: Held) {
    forall i :: 0 <= i < |log| && log[i].Sent? ==>
      log[i].held.put < h.put || (log[i].held.put == h.put && h.entry.pkt.size == 0)
  }

  ghost predicate LogInOrder(log: seq<CodecEvent>) {
    forall j :: 0 <= j < |log| && log[j].Sent? ==> Later(log[..j], log[j].held)
  }

  ghost predicate HeldWell(s: System, h: Held) {
    PutAt(s.puts, h.put, h.entry) && h.put < HeadAt(s.q, s.puts) && Later(s.d.log, h)
  }

  /** The serial of the last end of stream since the last flush packet, or 0. */
  ghost function FinishedOf(log: seq<CodecEvent>): int {
    if log == [] then 0
    else
      match log[|log| - 1]
      case Flushed(_) => 0
      case Drained(serial) => serial
      case Sent(_, _, _, _) => FinishedOf(log[..|log| - 1])
  }

  ghost predicate LogTraced(puts: seq<Packet>, head: int, log: seq<CodecEvent>) {
    && (forall i :: 0 <= i < |log| ==> SentWell(puts, log, i))
    && (forall i :: 0 <= i < |log| && log[i].Sent? ==> log[i].held.put < head)
    && LogInOrder(log)
  }

  ghost predicate HistoryInv(s: System) {
    && Traced(s.q, s.puts)
    && (s.d.hand.Some? ==> HeldWell(s, s.d.hand.value))
    && (s.d.pending.Some? ==> HeldWell(s, s.d.pending.value))
    && (s.d.pc == Checked ==>
          && s.d.hand.Some? && s.d.hand.value.put < s.d.checked <= |s.puts|
          && s.d.checkedAt == Flushes(s.puts[..s.d.checked]))
    && LogTraced(s.puts, HeadAt(s.q, s.puts), s.d.log)
    && s.d.finished == FinishedOf(s.d.log)
  }

  lemma {:induction false} InitialHistory()
    ensures HistoryInv(Initial())
  {
  }

  /** Further puts and a head that moves on disturb nothing already recorded. */
  lemma {:induction false} HistoryGrows(s: System, t: System, p: Packet)
    requires HistoryInv(s) && t.d == s.d && Traced(t.q, t.puts)
    requires t.puts in {s.puts, s.puts + [p]} && HeadAt(t.q, t.puts) >= HeadAt(s.q, s.puts)
    ensures HistoryInv(t)
  {
    PutAtGrows(s.puts, p);
    LogTracedKept(s.puts, p, HeadAt(s.q, s.puts), HeadAt(t.q, t.puts), s.d.log);
    assert s.d.checked <= |s.puts| ==> (s.puts + [p])[..s.d.checked] == s.puts[..s.d.checked];
    hide PutAt, Flushes, Traced, Later, LogTraced;
  }

  lemma {:induction false} LogTracedKept(puts: seq<Packet>, p: Packet, head: int, head': int, log: seq<CodecEvent>)
    requires LogTraced(puts, head, log) && head <= head'
    ensures LogTraced(puts, head', log) && LogTraced(puts + [p], head', log)
  {
    PutAtGrows(puts, p);
    hide PutAt, Flushes, LogInOrder;
    forall i | 0 <= i < |log| ensures SentWell(puts + [p], log, i) {
      assert SentWell(puts, log, i);
      if log[i].Sent? {
        assert (puts + [p])[..log[i].checked] == puts[..log[i].checked];
      }
    }
  }

  /** The log grows by a packet checked in order, or by a flush. */
  lemma {:induction false} LogTracedGrows(puts: seq<Packet>, head: int, log: seq<CodecEvent>, e: CodecEvent)
    requires LogTraced(puts, head, log)
    requires e.Sent? ==> SentWell(puts, [e], 0) && e.held.put < head && Later(log, e.held)
    ensures LogTraced(puts, head, log + [e])
    ensures FinishedOf(log + [e]) == if e.Flushed? then 0 else if e.Drained? then e.serial else FinishedOf(log)
  {
    hide PutAt, Flushes, Later;
    var log' := log + [e];
    assert log'[..|log|] == log;
    forall i | 0 <= i < |log'| ensures SentWell(puts, log', i) && (log'[i].Sent? ==> Later(log'[..i], log'[i].held)) {
      if i < |log| {
        assert SentWell(puts, log, i) && log'[..i] == log[..i];
      } else {
        assert [e][0] == log'[i];
      }
    }
  }

  lemma {:induction false} LaterGrows(log: seq<CodecEvent>, e: CodecEvent, h: Held)
    requires Later(log, h)
    requires e.Sent? ==> e.held.put == h.put && h.entry.pkt.size == 0
    ensures Later(log + [e], h)
  {
  }

  lemma {:induction false} FetchHistory(s: System, t: System)
    requires HistoryInv(s) && FetchPacket(s, t) && s.d.pending.None? && Get(s.q).1.Got?
    ensures HistoryInv(t)
  {
    GetTraced(s.q, s.puts);
    hide PutAt, Flushes, Traced;
  }

  lemma {:induction false} ReceiveHistory(s: System, t: System)
    requires HistoryInv(s) && DecoderInv(s) && ReceiveFrame(s, t)
    ensures HistoryInv(t)
  {
    LogTracedGrows(s.puts, HeadAt(s.q, s.puts), s.d.log, Drained(s.d.pktSerial));
    if s.d.pending.Some? {
      LaterGrows(s.d.log, Drained(s.d.pktSerial), s.d.pending.value);
    }
    hide PutAt, Flushes, Later, LogTraced, Traced, FinishedOf;
  }

  lemma {:induction false} FeedHistory(s: System, t: System)
    requires HistoryInv(s) && DecoderInv(s) && FeedCodec(s, t)
    ensures HistoryInv(t)
  {
    var h := s.d.hand.value;
    var e := if h.entry.pkt.flush then Flushed(s.d.pktSerial) else Sent(h, s.d.pktSerial, s.d.checkedAt, s.d.checked);
    LogTracedGrows(s.puts, HeadAt(s.q, s.puts), s.d.log, e);
    if h.entry.pkt.size == 0 {
      LaterGrows(s.d.log, e, h);
    }
    hide PutAt, Flushes, Later, LogTraced, Traced, FinishedOf;
  }

  /** The decoder's own steps. */
  lemma {:induction false} DecoderHistory(s: System, t: System)
    requires HistoryInv(s) && DecoderInv(s) && DecoderStep(s, t)
    ensures HistoryInv(t)
  {
    if s.d.pc == Receive {
      ReceiveHistory(s, t);
    } else if s.d.pc == Checked {
      FeedHistory(s, t);
    } else if s.d.pc == Fetch && s.d.pending.None? && Get(s.q).1.Got? {
      FetchHistory(s, t);
    } else {
      CheckCounts(s);
      hide PutAt, Flushes, Later, LogTraced, Traced, FinishedOf;
    }
  }

  lemma {:induction false} CheckCounts(s: System)
    requires Traced(s.q, s.puts)
    ensures s.q.serial == Flushes(s.puts[..|s.puts|]) && HeadAt(s.q, s.puts) <= |s.puts|
  {
    assert s.puts[..|s.puts|] == s.puts;
  }

  lemma {:induction false} HistoryKeeps(s: System, t: System)
    requires Inv(s) && HistoryInv(s) && Step(s, t)
    ensures HistoryInv(t)
  {
    GetTraced(s.q, s.puts);
    if p :| ReaderPut(s, t, p) {
      PutTraced(s.q, s.puts, p);
      HistoryGrows(s, t, p);
    } else if SeekPut(s, t) {
      PutTraced(s.q, s.puts, FLUSH);
      HistoryGrows(s, t, FLUSH);
    } else if Restart(s, t) {
      StartTraced(s.q, s.puts);
    } else if DecoderStep(s, t) {
      DecoderHistory(s, t);
    } else {
      HistoryGrows(s, t, FLUSH);
    }
  }

  // Runs

  ghost predicate IsRun(run: seq<System>) {
    && run != [] && run[0] == Initial()
    && forall i :: 0 <= i < |run| - 1 ==> Step(run[i], run[i + 1])
  }

  lemma {:induction false} RunInv(run: seq<System>, n: nat)
    requires IsRun(run) && n < |run|
    ensures Inv(run[n]) && HistoryInv(run[n])
  {
    if n == 0 {
      InitialInv();
      InitialHistory();
    } else {
      RunInv(run, n - 1);
      assert Step(run[n - 1], run[n - 1 + 1]);
      StepKeeps(run[n - 1], run[n]);
      HistoryKeeps(run[n - 1], run[n]);
    }
  }

  /** In the codec's history, index f is the flush that opens the segment of index i. */
  ghost predicate OpensSegment(log: seq<CodecEvent>, f: int, i: int) {
    && 0 <= f < i < |log| && !log[f].Sent? && log[f].serial == log[i].serial
    && forall k :: f < k <= i ==> log[k].Sent? && log[k].serial == log[i].serial
  }

  lemma {:induction false} SegmentOpens(log: seq<CodecEvent>, i: nat) returns (f: int)
    requires i < |log| && log[i].Sent? && forall k :: 0 <= k < |log| ==> Pure(log, k)
    ensures OpensSegment(log, f, i)
  {
    assert Pure(log, i);
    if !log[i - 1].Sent? {
      f := i - 1;
    } else {
      f := SegmentOpens(log, i - 1);
    }
  }

  /** Over every interleaving: each packet the codec got had the queue's serial when checked, and
      between it and the last flush before it the codec got only packets of that same serial. */
  lemma {:induction false} NoMixing(run: seq<System>, n: nat, i: nat)
    requires IsRun(run) && n < |run| && i < |run[n].d.log| && run[n].d.log[i].Sent?
    ensures var log := run[n].d.log;
            && log[i].held.entry.serial == log[i].queueSerial
            && (exists f :: OpensSegment(log, f, i))
            && forall j :: 0 <= j < i ==> log[j].serial <= log[i].serial
  {
    RunInv(run, n);
    var log := run[n].d.log;
    assert Pure(log, i);
    var f := SegmentOpens(log, i);
  }

  /** Over every interleaving: no flush packet was put between a packet that the codec got and its
      check, so nothing from before a seek is sent once the seek's flush packet is in the queue. */
  lemma {:induction false} NothingFromBeforeSeek(run: seq<System>, n: nat, i: nat)
    requires IsRun(run) && n < |run| && i < |run[n].d.log| && run[n].d.log[i].Sent?
    ensures var e, puts := run[n].d.log[i], run[n].puts;
            && 0 <= e.held.put < e.checked <= |puts| && puts[e.held.put] == e.held.entry.pkt
            && forall f :: e.held.put < f < e.checked ==> !puts[f].flush
  {
    RunInv(run, n);
    var log, puts := run[n].d.log, run[n].puts;
    assert Pure(log, i) && SentWell(puts, log, i);
    FlushesGrow(puts, log[i].held.put + 1, log[i].checked);
  }

  /** Over every interleaving: the codec gets packets in the order they were put, each once, except
      for null packets that a subtitle decoder decodes again. */
  lemma {:induction false} InOrderOnce(run: seq<System>, n: nat, i: nat, j: nat)
    requires IsRun(run) && n < |run| && i < j < |run[n].d.log| && run[n].d.log[i].Sent? && run[n].d.log[j].Sent?
    ensures var a, b := run[n].d.log[i].held, run[n].d.log[j].held;
            a.put < b.put || (a == b && a.entry.pkt.size == 0)
  {
    RunInv(run, n);
    var log := run[n].d.log;
    assert SentWell(run[n].puts, log, i) && SentWell(run[n].puts, log, j);
    assert Later(log[..j], log[j].held) && log[..j][i] == log[i];
  }

  /** Event i is the end of stream with this serial, and only packets followed. */
  ghost predicate EndsAt(log: seq<CodecEvent>, serial: int, i: int) {
    0 <= i < |log| && log[i] == Drained(serial) && forall k :: i < k < |log| ==> log[k].Sent?
  }

  /** The stream counts as finished for a serial exactly when the codec came to its end in it and
      no flush packet has been taken since. */
  lemma {:induction false} FinishedMeans(run: seq<System>, n: nat, serial: int)
    requires IsRun(run) && n < |run| && serial != 0
    ensures run[n].d.finished == serial <==> exists i :: EndsAt(run[n].d.log, serial, i)
  {
    RunInv(run, n);
    FinishedAt(run[n].d.log, serial);
  }

  lemma {:induction false} FinishedAt(log: seq<CodecEvent>, serial: int)
    requires serial != 0
    ensures FinishedOf(log) == serial <==> exists i :: EndsAt(log, serial, i)
    decreases |log|
  {
    if log != [] {
      var n := |log| - 1;
      var init := log[..n];
      FinishedAt(init, serial);
      if log[n].Sent? {
        if i :| EndsAt(init, serial, i) {
          assert EndsAt(log, serial, i);
        }
        if i :| EndsAt(log, serial, i) {
          assert EndsAt(init, serial, i);
        }
      } else if log[n] == Drained(serial) {
        assert EndsAt(log, serial, n);
      }
    }
  }

  /** Runs that feed the codec exist: open the stream, flush, put a packet, send it. */
  lemma {:induction false} SomeRunSends(p: Packet) returns (run: seq<System>)
    requires !p.flush
    ensures |run| == 12 && IsRun(run)
    ensures run[11].d.log == [Flushed(1), Sent(Held(Entry(p, 1), 1), 1, 1, 2)]
  {
    var q1 := Queue([Entry(FLUSH, 1)], false, 1);
    var q2 := Queue([], false, 1);
    var q3 := Queue([Entry(p, 1)], false, 1);
    var f, e, l := Some(Held(Entry(FLUSH, 1), 0)), Some(Held(Entry(p, 1), 1)), [Flushed(1)];
    var a := System(q1, [FLUSH], Reading, true, NewDecoder());
    var b := a.(d := a.d.(pc := Fetch));
    var c := b.(q := q2, d := b.d.(pc := Fetched, hand := f, pktSerial := 1));
    var d := c.(d := c.d.(pc := Checked, checkedAt := 1, checked := 1));
    var g := d.(d := d.d.(pc := Top, hand := None, finished := 0, log := l));
    var h := g.(q := q3, puts := [FLUSH, p]);
    var i := h.(d := h.d.(pc := Receive));
    var j := i.(d := i.d.(pc := Fetch));
    var k := j.(q := q2, d := j.d.(pc := Fetched, hand := e));
    var m := k.(d := k.d.(pc := Checked, checked := 2));
    var n := m.(d := m.d.(pc := Top, hand := None, log := l + [Sent(Held(Entry(p, 1), 1), 1, 1, 2)]));
    assert Restart(Initial(), a) && CompareTop(a, b) && FetchPacket(b, c) && CompareFetched(c, d);
    assert FeedCodec(d, g) && ReaderPut(g, h, p) && CompareTop(h, i) && ReceiveFrame(i, j);
    assert FetchPacket(j, k) && CompareFetched(k, m) && FeedCodec(m, n);
    run := [Initial(), a, b, c, d, g, h, i, j, k, m, n];
  }
}
