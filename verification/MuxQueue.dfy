/** From encoder to muxer: packets wait until the file header is written, the queue is then
    flushed, and every packet handed to the muxer has its timestamps repaired. */
module MuxQueue {
  import opened Options

  const NOPTS: int := -0x8000000000000000

  datatype Kind = Video | Audio | Subtitle | Other

  datatype Packet = Packet(payload: int, pts: int, dts: int)

  datatype FileCfg = FileCfg(noTimestamps: bool, nonStrict: bool, exitOnError: bool)

  /** dropTimestamps: the sync method discards timestamps for this kind of stream.
      rescale: conversion from the mux timebase to the stream timebase. */
  datatype StreamCfg = StreamCfg(kind: Kind, encodingNeeded: bool, vp9Copy: bool, maxFrames: nat, maxQueue: nat,
                                 dropTimestamps: bool, rescale: int -> int)

  /** frameNumber, queue, capacity, lastMuxDts and direct are the stream's fields (direct: the mux
      timebase has become the stream timebase); muxed, accepted and offered are histories. */
  datatype Stream = Stream(frameNumber: nat, queue: seq<Packet>, capacity: nat, lastMuxDts: int, direct: bool,
                           muxed: seq<Packet>, accepted: seq<Packet>, offered: seq<Packet>)


  function Min3(a: int, b: int, c: int): int {
    if a <= b && a <= c then a else if b <= c then b else c
  }

  function Max3(a: int, b: int, c: int): int {
    if a >= b && a >= c then a else if b >= c then b else c
  }

  // Timestamp repair

  function Rescale(c: StreamCfg, direct: bool, t: int): int {
    if t == NOPTS || direct then t else c.rescale(t)
  }

  function Converted(c: StreamCfg, direct: bool, p: Packet): Packet {
    if c.dropTimestamps then p.(pts := NOPTS, dts := NOPTS)
    else p.(pts := Rescale(c, direct, p.pts), dts := Rescale(c, direct, p.dts))
  }

  /** A decoding time after the presentation time is replaced, for both, by the middle one of
      these two and the successor of the last written decoding time. */
  function Guess(last: int, p: Packet): Packet {
    if p.dts != NOPTS && p.pts != NOPTS && p.dts > p.pts then
      var m := p.pts + p.dts + (last + 1) - Min3(p.pts, p.dts, last + 1) - Max3(p.pts, p.dts, last + 1);
      p.(pts := m, dts := m)
    else p
  }

  predicate Ordered(f: FileCfg, c: StreamCfg) {
    !f.noTimestamps && !c.kind.Other? && !c.vp9Copy
  }

  function Floor(f: FileCfg, last: int): int {
    last + if f.nonStrict then 0 else 1
  }

  predicate NeedsBump(f: FileCfg, c: StreamCfg, last: int, p: Packet) {
    Ordered(f, c) && p.dts != NOPTS && last != NOPTS && p.dts < Floor(f, last)
  }

  function Bump(f: FileCfg, c: StreamCfg, last: int, p: Packet): Packet {
    if NeedsBump(f, c, last, p) then
      var max := Floor(f, last);
      p.(pts := if p.pts >= p.dts then (if p.pts >= max then p.pts else max) else p.pts, dts := max)
    else p
  }

  function Candidate(f: FileCfg, c: StreamCfg, direct: bool, last: int, p: Packet): Packet {
    var q := Converted(c, direct, p);
    if f.noTimestamps then q else Guess(last, q)
  }

  function Repaired(f: FileCfg, c: StreamCfg, direct: bool, last: int, p: Packet): Packet {
    Bump(f, c, last, Candidate(f, c, direct, last, p))
  }

  /** Rescaling a defined timestamp gives a defined one. */
  ghost predicate Ranged(c: StreamCfg) {
    forall t :: t > NOPTS ==> c.rescale(t) > NOPTS
  }

  ghost predicate Representable(p: Packet) {
    p.pts >= NOPTS && p.dts >= NOPTS
  }

  /** The guess is the median of the three values. */
  lemma {:induction false} GuessIsMedian(last: int, p: Packet)
    requires p.dts != NOPTS && p.pts != NOPTS && p.dts > p.pts
    ensures var m := Guess(last, p).dts;
            && Guess(last, p).pts == m && m in {p.pts, p.dts, last + 1}
            && p.pts <= m <= p.dts
            && (p.pts <= last + 1 <= p.dts ==> m == last + 1)
  {
  }

  /** Decoding never comes after presentation, where both are defined. */
  ghost predicate DtsBeforePts(p: Packet) {
    p.pts != NOPTS && p.dts != NOPTS ==> p.dts <= p.pts
  }

  /** What a written packet looks like, and that the bump is the least legal one. */
  lemma {:induction false} RepairedIsLegal(f: FileCfg, c: StreamCfg, direct: bool, last: int, p: Packet)
    requires Ranged(c) && Representable(p) && last >= NOPTS && !f.noTimestamps
    ensures var r := Repaired(f, c, direct, last, p);
            && r.payload == p.payload && Representable(r) && DtsBeforePts(r)
            && (r.dts == NOPTS <==> c.dropTimestamps || p.dts == NOPTS)
            && (r.pts == NOPTS <==> c.dropTimestamps || p.pts == NOPTS)
    ensures Ordered(f, c) && last != NOPTS && !c.dropTimestamps && p.dts != NOPTS ==>
              var r := Repaired(f, c, direct, last, p);
              var least := Candidate(f, c, direct, last, p).dts;
              r.dts >= Floor(f, last) && r.dts >= least && (r.dts == Floor(f, last) || r.dts == least)
  {
  }

  // What a written packet's times are, from the rescaled times of the offered one

  function Max(a: int, b: int): int {
    if a >= b then a else b
  }

  /** The least legal decoding time from t on, in a format and stream that keep them in order. */
  function Legal(f: FileCfg, c: StreamCfg, last: int, t: int): int {
    if !f.noTimestamps && (c.kind.Video? || c.kind.Audio? || c.kind.Subtitle?) && !c.vp9Copy && last != NOPTS then
      Max(t, if f.nonStrict then last else last + 1)
    else t
  }

  /** The decoding time before it is made legal: one after the presentation time is replaced by
      the time between the two that is nearest to the successor of the last one. */
  function Wanted(f: FileCfg, last: int, pts: int, dts: int): int {
    if pts == NOPTS || dts <= pts || f.noTimestamps then dts
    else if last + 1 < pts then pts else if last + 1 > dts then dts else last + 1
  }

  /** r is what the times of p become: undefined ones stay undefined, the decoding time is the
      least legal one, and the presentation time moves only to stay with it. */
  ghost predicate TimesWritten(f: FileCfg, c: StreamCfg, direct: bool, last: int, p: Packet, r: Packet) {
    var pts := if p.pts == NOPTS || direct then p.pts else c.rescale(p.pts);
    var dts := if p.dts == NOPTS || direct then p.dts else c.rescale(p.dts);
    if c.dropTimestamps then r.pts == NOPTS && r.dts == NOPTS
    else if dts == NOPTS then r.dts == NOPTS && r.pts == pts
    else
      && r.dts == Legal(f, c, last, Wanted(f, last, pts, dts))
      && r.pts == if pts == NOPTS then NOPTS
                  else if dts <= pts then Max(pts, r.dts)
                  else if f.noTimestamps then pts
                  else r.dts
  }

  lemma {:induction false} RepairMeaning(f: FileCfg, c: StreamCfg, direct: bool, last: int, p: Packet)
    requires Ranged(c) && Representable(p)
    ensures TimesWritten(f, c, direct, last, p, Repaired(f, c, direct, last, p))
    ensures Repaired(f, c, direct, last, p).payload == p.payload
  {
  }

  /** A packet in order keeps both of its times. */
  lemma {:induction false} InOrderUntouched(f: FileCfg, c: StreamCfg, last: int, p: Packet)
    requires Ranged(c) && Representable(p) && !c.dropTimestamps && p.pts != NOPTS && p.dts != NOPTS && p.dts <= p.pts
    requires last != NOPTS ==> p.dts > last
    ensures Repaired(f, c, true, last, p) == p
  {
  }

  // The stream

  predicate Counted(c: StreamCfg) {
    !(c.kind.Video? && c.encodingNeeded)
  }

  ghost function Mux(f: FileCfg, c: StreamCfg, s: Stream, p: Packet): (r: Option<Stream>) {
    var q := Candidate(f, c, s.direct, s.lastMuxDts, p);
    if NeedsBump(f, c, s.lastMuxDts, q) && f.exitOnError then None
    else
      var r := Repaired(f, c, s.direct, s.lastMuxDts, p);
      Some(s.(lastMuxDts := r.dts, muxed := s.muxed + [r]))
  }

  /** The program exits exactly when it is told to and the decoding time would have to be raised. */
  lemma {:induction false} ExitIff(f: FileCfg, c: StreamCfg, s: Stream, p: Packet)
    requires Ranged(c) && Representable(p)
    ensures Mux(f, c, s, p).None? <==>
              var pts := if p.pts == NOPTS || s.direct then p.pts else c.rescale(p.pts);
              var dts := if p.dts == NOPTS || s.direct then p.dts else c.rescale(p.dts);
              var t := Wanted(f, s.lastMuxDts, pts, dts);
              f.exitOnError && !c.dropTimestamps && dts != NOPTS && Legal(f, c, s.lastMuxDts, t) > t
  {
  }

  /** Queueing a packet; None when the queue may not grow any more. */
  ghost function Enqueue(c: StreamCfg, s: Stream, p: Packet): (r: Option<Stream>) {
    if |s.queue| < s.capacity then Some(s.(queue := s.queue + [p]))
    else
      var grown := if 2 * |s.queue| <= c.maxQueue then 2 * |s.queue| else c.maxQueue;
      if grown <= |s.queue| then None else Some(s.(queue := s.queue + [p], capacity := grown))
  }

  /** A new packet for the stream: dropped past the frame limit, queued before the header, else muxed. */
  ghost function Write(f: FileCfg, c: StreamCfg, header: bool, s: Stream, p: Packet): (r: Option<Stream>) {
    var s0 := s.(offered := s.offered + [p]);
    if Counted(c) && s.frameNumber >= c.maxFrames then Some(s0)
    else
      var s1 := s0.(accepted := s.accepted + [p], frameNumber := s.frameNumber + if Counted(c) then 1 else 0);
      if header then Mux(f, c, s1, p) else Enqueue(c, s1, p)
  }

  /** The queue is handed to the muxer front first. */
  ghost function Drain(f: FileCfg, c: StreamCfg, s: Stream): (r: Option<Stream>)
    decreases |s.queue|
  {
    if s.queue == [] then Some(s)
    else
      match Mux(f, c, s.(queue := s.queue[1..]), s.queue[0])
      case None => None
      case Some(s1) => Drain(f, c, s1)
  }

  /** What happens to a stream when the header has been written. */
  ghost function Flush(f: FileCfg, c: StreamCfg, s: Stream): (r: Option<Stream>) {
    Drain(f, c, if s.queue == [] then s.(direct := true) else s)
  }

  ghost predicate AllRepresentable(ps: seq<Packet>) {
    forall i :: 0 <= i < |ps| ==> Representable(ps[i])
  }

  /** Neighbouring decoding times increase, strictly unless the format allows equal ones. */
  ghost predicate Rising(f: FileCfg, a: Packet, b: Packet) {
    a.dts != NOPTS && b.dts != NOPTS ==> b.dts >= Floor(f, a.dts)
  }

  /** The decoding time that packet k was repaired against. */
  ghost function Before(ps: seq<Packet>, k: nat): int
    requires k <= |ps|
  {
    if k == 0 then NOPTS else ps[k - 1].dts
  }

  ghost predicate MuxedWell(f: FileCfg, c: StreamCfg, s: Stream) {
    && s.lastMuxDts == Before(s.muxed, |s.muxed|)
    && AllRepresentable(s.muxed)
    && (!f.noTimestamps ==> forall i :: 0 <= i < |s.muxed| ==> DtsBeforePts(s.muxed[i]))
    && (Ordered(f, c) ==> forall i :: 0 <= i < |s.muxed| - 1 ==> Rising(f, s.muxed[i], s.muxed[i + 1]))
  }

  /** What the muxer got is the accepted packets in order, each repaired after the one before it. */
  ghost predicate Written(f: FileCfg, c: StreamCfg, direct: bool, muxed: seq<Packet>, accepted: seq<Packet>) {
    && |muxed| <= |accepted|
    && forall k :: 0 <= k < |muxed| ==> muxed[k] == Repaired(f, c, direct, Before(muxed, k), accepted[k])
  }

  /** Nothing is lost, duplicated or reordered between acceptance and the muxer. */
  ghost predicate Conserved(f: FileCfg, c: StreamCfg, header: bool, s: Stream) {
    && Written(f, c, s.direct, s.muxed, s.accepted) && s.queue == s.accepted[|s.muxed|..]
    && (header ==> s.queue == [])
    && (!header ==> s.muxed == [])
    && (Counted(c) ==>
          && s.frameNumber == |s.accepted|
          && s.accepted == s.offered[..if |s.offered| <= c.maxFrames then |s.offered| else c.maxFrames])
    && (!Counted(c) ==> s.accepted == s.offered)
  }

  /** The queue never outgrows its capacity, which is 8 until more is needed and allowed. */
  ghost predicate Bounded(c: StreamCfg, s: Stream) {
    |s.queue| <= s.capacity && 8 <= s.capacity <= if c.maxQueue >= 8 then c.maxQueue else 8
  }

  ghost predicate Inv(f: FileCfg, c: StreamCfg, header: bool, s: Stream) {
    && Ranged(c) && AllRepresentable(s.offered) && AllRepresentable(s.queue)
    && MuxedWell(f, c, s) && Conserved(f, c, header, s) && Bounded(c, s)
  }

  ghost function Fresh(): Stream {
    Stream(0, [], 8, NOPTS, false, [], [], [])
  }

  lemma {:induction false} FreshInv(f: FileCfg, c: StreamCfg)
    requires Ranged(c)
    ensures Inv(f, c, false, Fresh())
  {
  }

  lemma {:induction false} RepairedRises(f: FileCfg, c: StreamCfg, direct: bool, last: Packet, p: Packet)
    requires Ranged(c) && Representable(p) && Representable(last) && Ordered(f, c)
    ensures Rising(f, last, Repaired(f, c, direct, last.dts, p))
  {
  }

  lemma {:induction false} RepairedRepresentable(f: FileCfg, c: StreamCfg, direct: bool, last: int, p: Packet)
    requires Ranged(c) && Representable(p) && last >= NOPTS
    ensures Representable(Repaired(f, c, direct, last, p)) && Repaired(f, c, direct, last, p).payload == p.payload
  {
  }

  /** One more repaired packet. */
  lemma {:induction false} WrittenGrows(f: FileCfg, c: StreamCfg, direct: bool, muxed: seq<Packet>, accepted: seq<Packet>)
    requires Written(f, c, direct, muxed, accepted) && |muxed| < |accepted|
    ensures Written(f, c, direct, muxed + [Repaired(f, c, direct, Before(muxed, |muxed|), accepted[|muxed|])], accepted)
  {
    hide Repaired;
  }

  lemma {:induction false} MuxedWellGrows(f: FileCfg, c: StreamCfg, s: Stream, p: Packet)
    requires Ranged(c) && MuxedWell(f, c, s) && Representable(p)
    ensures var r := Repaired(f, c, s.direct, s.lastMuxDts, p);
            MuxedWell(f, c, s.(lastMuxDts := r.dts, muxed := s.muxed + [r]))
  {
    hide Repaired;
    RepairedRepresentable(f, c, s.direct, s.lastMuxDts, p);
    if !f.noTimestamps {
      RepairedIsLegal(f, c, s.direct, s.lastMuxDts, p);
    }
    if Ordered(f, c) && s.muxed != [] {
      RepairedRises(f, c, s.direct, s.muxed[|s.muxed| - 1], p);
    }
  }

  lemma {:induction false} MuxKeeps(f: FileCfg, c: StreamCfg, s: Stream, p: Packet)
    requires Ranged(c) && MuxedWell(f, c, s) && Representable(p)
    requires Written(f, c, s.direct, s.muxed, s.accepted) && |s.muxed| < |s.accepted| && s.accepted[|s.muxed|] == p
    ensures Mux(f, c, s, p).Some? ==>
              var s' := Mux(f, c, s, p).value;
              && MuxedWell(f, c, s') && Written(f, c, s.direct, s'.muxed, s.accepted)
              && |s'.muxed| == |s.muxed| + 1 && s' == s.(lastMuxDts := s'.lastMuxDts, muxed := s'.muxed)
  {
    assert s.lastMuxDts == Before(s.muxed, |s.muxed|);
    WrittenGrows(f, c, s.direct, s.muxed, s.accepted);
    MuxedWellGrows(f, c, s, p);
    hide Repaired, Candidate, NeedsBump, Written, MuxedWell;
  }

  /** s with p offered and accepted. */
  ghost function Taken(c: StreamCfg, s: Stream, p: Packet): Stream {
    s.(offered := s.offered + [p], accepted := s.accepted + [p],
       frameNumber := s.frameNumber + if Counted(c) then 1 else 0)
  }

  lemma {:induction false} EnqueueKeeps(f: FileCfg, c: StreamCfg, s: Stream, p: Packet)
    requires Inv(f, c, false, s) && Representable(p) && (Counted(c) ==> s.frameNumber < c.maxFrames)
    requires Enqueue(c, Taken(c, s, p), p).Some?
    ensures Inv(f, c, false, Enqueue(c, Taken(c, s, p), p).value)
  {
    hide MuxedWell, Repaired;
    HistoryIrrelevant(f, c, s, Enqueue(c, Taken(c, s, p), p).value);
  }

  lemma {:induction false} MuxNewKeeps(f: FileCfg, c: StreamCfg, s: Stream, p: Packet)
    requires Inv(f, c, true, s) && Representable(p) && (Counted(c) ==> s.frameNumber < c.maxFrames)
    requires Mux(f, c, Taken(c, s, p), p).Some?
    ensures Inv(f, c, true, Mux(f, c, Taken(c, s, p), p).value)
  {
    hide MuxedWell, Repaired, Mux;
    HistoryIrrelevant(f, c, s, Taken(c, s, p));
    MuxKeeps(f, c, Taken(c, s, p), p);
  }

  lemma {:induction false} DropKeeps(f: FileCfg, c: StreamCfg, header: bool, s: Stream, p: Packet)
    requires Inv(f, c, header, s) && Representable(p) && Counted(c) && s.frameNumber >= c.maxFrames
    ensures Inv(f, c, header, s.(offered := s.offered + [p]))
  {
    hide MuxedWell, Written;
    HistoryIrrelevant(f, c, s, s.(offered := s.offered + [p]));
  }

  /** A write keeps every invariant; before the header it exits exactly when the queue is full and
      already holds as many packets as allowed. */
  lemma {:induction false} WriteKeeps(f: FileCfg, c: StreamCfg, header: bool, s: Stream, p: Packet)
    requires Inv(f, c, header, s) && Representable(p)
    ensures Write(f, c, header, s, p).Some? ==> Inv(f, c, header, Write(f, c, header, s, p).value)
    ensures !header ==> (Write(f, c, header, s, p).None? <==>
                           (Counted(c) ==> s.frameNumber < c.maxFrames)
                           && |s.queue| == Max(8, c.maxQueue))
  {
    assert Bounded(c, s);
    hide Mux, Inv;
    if Counted(c) && s.frameNumber >= c.maxFrames {
      DropKeeps(f, c, header, s, p);
    } else if header {
      if Mux(f, c, Taken(c, s, p), p).Some? {
        MuxNewKeeps(f, c, s, p);
      }
    } else if Enqueue(c, Taken(c, s, p), p).Some? {
      EnqueueKeeps(f, c, s, p);
    }
  }

  /** MuxedWell looks only at the packets muxed so far and the last decoding time. */
  lemma {:induction false} HistoryIrrelevant(f: FileCfg, c: StreamCfg, s: Stream, t: Stream)
    requires s.muxed == t.muxed && s.lastMuxDts == t.lastMuxDts
    ensures MuxedWell(f, c, s) == MuxedWell(f, c, t)
  {
  }

  lemma {:induction false} DrainKeeps(f: FileCfg, c: StreamCfg, s: Stream)
    requires Ranged(c) && MuxedWell(f, c, s) && AllRepresentable(s.queue)
    requires Written(f, c, s.direct, s.muxed, s.accepted) && s.queue == s.accepted[|s.muxed|..]
    ensures Drain(f, c, s).Some? ==>
              var s' := Drain(f, c, s).value;
              && MuxedWell(f, c, s') && Written(f, c, s.direct, s'.muxed, s.accepted) && |s'.muxed| == |s.accepted|
              && s' == s.(queue := [], lastMuxDts := s'.lastMuxDts, muxed := s'.muxed)
    decreases |s.queue|
  {
    hide Mux, MuxedWell, Repaired;
    if s.queue != [] {
      var s0 := s.(queue := s.queue[1..]);
      HistoryIrrelevant(f, c, s, s0);
      MuxKeeps(f, c, s0, s.queue[0]);
      if Mux(f, c, s0, s.queue[0]).Some? {
        DrainKeeps(f, c, Mux(f, c, s0, s.queue[0]).value);
      }
    }
  }

  /** Writing the header flushes the queue in order and keeps every invariant. */
  lemma {:induction false} FlushKeeps(f: FileCfg, c: StreamCfg, s: Stream)
    requires Inv(f, c, false, s)
    ensures Flush(f, c, s).Some? ==> Inv(f, c, true, Flush(f, c, s).value)
  {
    hide MuxedWell, Drain, Repaired;
    var s0 := if s.queue == [] then s.(direct := true) else s;
    HistoryIrrelevant(f, c, s, s0);
    DrainKeeps(f, c, s0);
  }

  // Whole runs of a file with several streams

  datatype Event = NewPacket(i: nat, p: Packet) | Header

  datatype File = File(header: bool, streams: seq<Stream>)

  ghost predicate FileInv(f: FileCfg, cs: seq<StreamCfg>, s: File) {
    |s.streams| == |cs| && forall i :: 0 <= i < |cs| ==> Inv(f, cs[i], s.header, s.streams[i])
  }

  /** Flushes streams n.. in index order. */
  ghost function FlushFrom(f: FileCfg, cs: seq<StreamCfg>, ss: seq<Stream>, n: nat): (r: Option<seq<Stream>>)
    requires |cs| == |ss| && n <= |cs|
    ensures r.Some? ==> |r.value| == |ss| && forall i :: 0 <= i < n ==> r.value[i] == ss[i]
    ensures r.Some? ==> forall i :: n <= i < |ss| ==>
              Flush(f, cs[i], ss[i]).Some? && r.value[i] == Flush(f, cs[i], ss[i]).value
    decreases |cs| - n
  {
    hide Flush;
    if n == |cs| then Some(ss)
    else
      match Flush(f, cs[n], ss[n])
      case None => None
      case Some(s') => FlushFrom(f, cs, ss[n := s'], n + 1)
  }

  ghost predicate Sensible(cs: seq<StreamCfg>, s: File, e: Event) {
    match e
    case NewPacket(i, p) => i < |cs| && Representable(p)
    case Header => !s.header
  }

  /** None means that the program exits. */
  ghost function FileStep(f: FileCfg, cs: seq<StreamCfg>, s: File, e: Event): (r: Option<File>)
    requires |s.streams| == |cs| && Sensible(cs, s, e)
    ensures r.Some? ==> |r.value.streams| == |cs|
  {
    match e
    case NewPacket(i, p) =>
      (match Write(f, cs[i], s.header, s.streams[i], p)
       case None => None
       case Some(s') => Some(s.(streams := s.streams[i := s'])))
    case Header =>
      match FlushFrom(f, cs, s.streams, 0)
      case None => None
      case Some(ss) => Some(File(true, ss))
  }

  lemma {:induction false} FileStepKeeps(f: FileCfg, cs: seq<StreamCfg>, s: File, e: Event)
    requires FileInv(f, cs, s) && Sensible(cs, s, e)
    ensures FileStep(f, cs, s, e).Some? ==> FileInv(f, cs, FileStep(f, cs, s, e).value)
  {
    hide Inv, Write, Flush;
    match e
    case NewPacket(i, p) => WriteKeeps(f, cs[i], s.header, s.streams[i], p);
    case Header =>
      forall i | 0 <= i < |cs| && Flush(f, cs[i], s.streams[i]).Some?
        ensures Inv(f, cs[i], true, Flush(f, cs[i], s.streams[i]).value)
      {
        FlushKeeps(f, cs[i], s.streams[i]);
      }
  }

  /** A run that does not exit: each event is sensible in the state it meets. */
  ghost function RunFile(f: FileCfg, cs: seq<StreamCfg>, s: File, es: seq<Event>): (r: Option<File>)
    requires |s.streams| == |cs|
    ensures r.Some? ==> |r.value.streams| == |cs|
    decreases |es|
  {
    if es == [] then Some(s)
    else if !Sensible(cs, s, es[0]) then None
    else
      match FileStep(f, cs, s, es[0])
      case None => None
      case Some(s') => RunFile(f, cs, s', es[1..])
  }

  lemma {:induction false} RunFileKeeps(f: FileCfg, cs: seq<StreamCfg>, s: File, es: seq<Event>)
    requires FileInv(f, cs, s)
    ensures RunFile(f, cs, s, es).Some? ==> FileInv(f, cs, RunFile(f, cs, s, es).value)
    decreases |es|
  {
    hide FileInv, FileStep;
    assert |s.streams| == |cs| by {
      FileInvLength(f, cs, s);
    }
    if es != [] && Sensible(cs, s, es[0]) {
      FileStepKeeps(f, cs, s, es[0]);
      if FileStep(f, cs, s, es[0]).Some? {
        RunFileKeeps(f, cs, FileStep(f, cs, s, es[0]).value, es[1..]);
      }
    }
  }

  lemma {:induction false} FileInvLength(f: FileCfg, cs: seq<StreamCfg>, s: File)
    requires FileInv(f, cs, s)
    ensures |s.streams| == |cs|
  {
  }

  // Decoding times of the packets written

  /** Defined decoding times rise, also across packets without one. */
  ghost predicate DtsRise(f: FileCfg, ps: seq<Packet>) {
    forall i, j :: 0 <= i < j < |ps| && ps[i].dts != NOPTS && ps[j].dts != NOPTS ==> ps[j].dts >= Floor(f, ps[i].dts)
  }

  /** The last defined decoding time, or NOPTS. */
  ghost function LastDefined(ps: seq<Packet>): int {
    if ps == [] then NOPTS
    else if ps[|ps| - 1].dts != NOPTS then ps[|ps| - 1].dts
    else LastDefined(ps[..|ps| - 1])
  }

  /** What the offered packet has to satisfy once a packet without decoding time has been written. */
  ghost predicate StaysInOrder(f: FileCfg, c: StreamCfg, direct: bool, muxed: seq<Packet>, p: Packet) {
    || Before(muxed, |muxed|) != NOPTS || c.dropTimestamps || p.dts == NOPTS
    || LastDefined(muxed) == NOPTS || Candidate(f, c, direct, NOPTS, p).dts >= Floor(f, LastDefined(muxed))
  }

  /** In a rising sequence the last defined decoding time is one of them and the largest. */
  lemma {:induction false} LastIsLargest(f: FileCfg, ps: seq<Packet>)
    requires DtsRise(f, ps)
    ensures forall i :: 0 <= i < |ps| && ps[i].dts != NOPTS ==> LastDefined(ps) != NOPTS && ps[i].dts <= LastDefined(ps)
    ensures LastDefined(ps) != NOPTS ==> exists i :: 0 <= i < |ps| && ps[i].dts == LastDefined(ps)
  {
    if ps != [] && ps[|ps| - 1].dts == NOPTS {
      var qs := ps[..|ps| - 1];
      LastIsLargest(f, qs);
      forall i | 0 <= i < |ps| && ps[i].dts != NOPTS ensures LastDefined(ps) != NOPTS && ps[i].dts <= LastDefined(ps) {
        assert ps[i] == qs[i];
      }
      if LastDefined(ps) != NOPTS {
        var i :| 0 <= i < |qs| && qs[i].dts == LastDefined(qs);
        assert ps[i] == qs[i];
      }
    }
  }

  lemma {:induction false} PushRisesIff(f: FileCfg, ps: seq<Packet>, r: Packet)
    requires DtsRise(f, ps)
    ensures DtsRise(f, ps + [r]) <==>
              r.dts == NOPTS || LastDefined(ps) == NOPTS || r.dts >= Floor(f, LastDefined(ps))
  {
    LastIsLargest(f, ps);
    var qs := ps + [r];
    if LastDefined(ps) != NOPTS {
      var i :| 0 <= i < |ps| && ps[i].dts == LastDefined(ps);
      assert qs[i] == ps[i] && qs[|ps|] == r;
    }
    assert forall i, j :: 0 <= i < j < |qs| && j < |ps| ==> qs[i] == ps[i] && qs[j] == ps[j];
  }

  /** Exactly when one more packet keeps the written decoding times rising. */
  lemma {:induction false} RepairKeepsOrderIff(f: FileCfg, c: StreamCfg, direct: bool, muxed: seq<Packet>, p: Packet)
    requires Ranged(c) && Representable(p) && AllRepresentable(muxed) && Ordered(f, c) && DtsRise(f, muxed)
    ensures var r := Repaired(f, c, direct, Before(muxed, |muxed|), p);
            DtsRise(f, muxed + [r]) <==> StaysInOrder(f, c, direct, muxed, p)
  {
    hide Candidate, Converted, Guess, DtsRise;
    var last := Before(muxed, |muxed|);
    RepairedIsLegal(f, c, direct, last, p);
    PushRisesIff(f, muxed, Repaired(f, c, direct, last, p));
  }

  ghost predicate AllStayInOrder(f: FileCfg, c: StreamCfg, direct: bool, muxed: seq<Packet>, accepted: seq<Packet>) {
    |muxed| <= |accepted| && forall k :: 0 <= k < |muxed| ==> StaysInOrder(f, c, direct, muxed[..k], accepted[k])
  }

  /** The same for whole sequences: they rise exactly when every packet stayed in order. */
  lemma {:induction false} WrittenRisesIff(f: FileCfg, c: StreamCfg, direct: bool, muxed: seq<Packet>, accepted: seq<Packet>)
    requires Ranged(c) && AllRepresentable(muxed) && AllRepresentable(accepted) && Ordered(f, c)
    requires Written(f, c, direct, muxed, accepted)
    ensures DtsRise(f, muxed) <==> AllStayInOrder(f, c, direct, muxed, accepted)
    decreases |muxed|
  {
    hide StaysInOrder, Repaired, Before, DtsRise, Written, AllStayInOrder, Ranged, Ordered;
    if muxed == [] {
      NothingRises(f, c, direct, accepted);
    } else {
      var n := |muxed| - 1;
      var init := muxed[..n];
      WrittenPrefix(f, c, direct, muxed, accepted);
      WrittenRisesIff(f, c, direct, init, accepted);
      if DtsRise(f, init) {
        RepairKeepsOrderIff(f, c, direct, init, accepted[n]);
      } else if DtsRise(f, muxed) {
        PrefixRises(f, muxed, n);
      }
    }
  }

  lemma {:induction false} NothingRises(f: FileCfg, c: StreamCfg, direct: bool, accepted: seq<Packet>)
    ensures DtsRise(f, []) && AllStayInOrder(f, c, direct, [], accepted)
  {
  }

  lemma {:induction false} WrittenPrefix(f: FileCfg, c: StreamCfg, direct: bool, muxed: seq<Packet>, accepted: seq<Packet>)
    requires muxed != [] && Written(f, c, direct, muxed, accepted)
    ensures var n := |muxed| - 1;
            var init := muxed[..n];
            && n < |accepted| && Written(f, c, direct, init, accepted)
            && muxed == init + [Repaired(f, c, direct, Before(init, n), accepted[n])]
            && (AllStayInOrder(f, c, direct, muxed, accepted) <==>
                  AllStayInOrder(f, c, direct, init, accepted) && StaysInOrder(f, c, direct, init, accepted[n]))
  {
    hide StaysInOrder, Repaired;
    var n := |muxed| - 1;
    var init := muxed[..n];
    forall k | 0 <= k < n ensures init[..k] == muxed[..k] && Before(init, k) == Before(muxed, k) {
    }
  }

  lemma {:induction false} PrefixRises(f: FileCfg, ps: seq<Packet>, n: nat)
    requires n <= |ps| && DtsRise(f, ps)
    ensures DtsRise(f, ps[..n])
  {
  }

  /** The packets that the events offer to stream i. */
  ghost function Offers(es: seq<Event>, i: nat): (r: seq<Packet>) {
    if es == [] then []
    else (match es[0] case NewPacket(j, p) => (if i == j then [p] else []) case Header => []) + Offers(es[1..], i)
  }

  lemma {:induction false} DrainOffers(f: FileCfg, c: StreamCfg, s: Stream)
    ensures Drain(f, c, s).Some? ==> Drain(f, c, s).value.offered == s.offered
    decreases |s.queue|
  {
    hide Repaired, Candidate, NeedsBump;
    if s.queue != [] {
      var r := Mux(f, c, s.(queue := s.queue[1..]), s.queue[0]);
      if r.Some? {
        DrainOffers(f, c, r.value);
      }
    }
  }

  lemma {:induction false} RunOffers(f: FileCfg, cs: seq<StreamCfg>, s: File, es: seq<Event>, i: nat)
    requires |s.streams| == |cs| && i < |cs|
    ensures RunFile(f, cs, s, es).Some? ==>
              RunFile(f, cs, s, es).value.streams[i].offered == s.streams[i].offered + Offers(es, i)
    decreases |es|
  {
    hide Drain, Repaired, Candidate, NeedsBump;
    if es != [] && Sensible(cs, s, es[0]) {
      var r := FileStep(f, cs, s, es[0]);
      if r.Some? {
        RunOffers(f, cs, r.value, es[1..], i);
        if es[0].Header? {
          DrainOffers(f, cs[i], if s.streams[i].queue == [] then s.streams[i].(direct := true) else s.streams[i]);
        }
      }
    }
  }

  lemma {:induction false} WrittenIsLegal(f: FileCfg, c: StreamCfg, direct: bool, muxed: seq<Packet>, accepted: seq<Packet>)
    requires Ranged(c) && AllRepresentable(accepted) && AllRepresentable(muxed) && Written(f, c, direct, muxed, accepted)
    ensures forall k :: 0 <= k < |muxed| ==>
              && muxed[k].payload == accepted[k].payload
              && TimesWritten(f, c, direct, Before(muxed, k), accepted[k], muxed[k])
    ensures !f.noTimestamps ==> forall k :: 0 <= k < |muxed| ==>
              (muxed[k].dts == NOPTS <==> c.dropTimestamps || accepted[k].dts == NOPTS)
  {
    hide Repaired;
    forall k | 0 <= k < |muxed|
      ensures muxed[k].payload == accepted[k].payload
      ensures TimesWritten(f, c, direct, Before(muxed, k), accepted[k], muxed[k])
      ensures !f.noTimestamps ==> (muxed[k].dts == NOPTS <==> c.dropTimestamps || accepted[k].dts == NOPTS)
    {
      RepairMeaning(f, c, direct, Before(muxed, k), accepted[k]);
      if !f.noTimestamps {
        RepairedIsLegal(f, c, direct, Before(muxed, k), accepted[k]);
      }
    }
  }

  lemma {:induction false} AllDefinedRises(f: FileCfg, c: StreamCfg, direct: bool, muxed: seq<Packet>, accepted: seq<Packet>)
    requires Ranged(c) && AllRepresentable(muxed) && AllRepresentable(accepted) && Ordered(f, c) && !c.dropTimestamps
    requires Written(f, c, direct, muxed, accepted) && forall k :: 0 <= k < |accepted| ==> accepted[k].dts != NOPTS
    ensures forall k, l :: 0 <= k < l < |muxed| ==> muxed[l].dts >= Floor(f, muxed[k].dts)
  {
    hide Repaired, Candidate;
    WrittenIsLegal(f, c, direct, muxed, accepted);
    WrittenRisesIff(f, c, direct, muxed, accepted);
    forall k | 0 <= k < |muxed| ensures StaysInOrder(f, c, direct, muxed[..k], accepted[k]) {
      assert k > 0 ==> Before(muxed[..k], k) == muxed[k - 1].dts;
    }
  }

  ghost function FreshFile(cs: seq<StreamCfg>): File {
    File(false, seq(|cs|, k => Fresh()))
  }

  /** From a fresh file, over any run that does not exit, for every stream: what the muxer got is
      what was accepted of what was offered, in order, once each, repaired, and nothing before the
      header; where order is enforced the defined decoding times rise exactly when every packet
      stayed in order, and so whenever all the offered ones are defined and not discarded. */
  lemma {:induction false} WholeRun(f: FileCfg, cs: seq<StreamCfg>, es: seq<Event>, i: nat)
    requires i < |cs| && forall k :: 0 <= k < |cs| ==> Ranged(cs[k])
    ensures var r := RunFile(f, cs, FreshFile(cs), es);
            r.Some? ==>
              var s, c := r.value.streams[i], cs[i];
              && Conserved(f, c, r.value.header, s) && s.offered == Offers(es, i)
              && s.accepted == (if (c.kind.Video? && c.encodingNeeded) || |s.offered| <= c.maxFrames then s.offered
                                else s.offered[..c.maxFrames])
              && (forall k :: 0 <= k < |s.muxed| ==>
                    && s.muxed[k].payload == s.accepted[k].payload
                    && TimesWritten(f, c, s.direct, Before(s.muxed, k), s.accepted[k], s.muxed[k]))
              && (!f.noTimestamps ==> forall k :: 0 <= k < |s.muxed| ==> DtsBeforePts(s.muxed[k]))
              && (Ordered(f, c) ==>
                    (DtsRise(f, s.muxed) <==> AllStayInOrder(f, c, s.direct, s.muxed, s.accepted)))
              && (Ordered(f, c) && !c.dropTimestamps
                  && (forall k :: 0 <= k < |Offers(es, i)| ==> Offers(es, i)[k].dts != NOPTS) ==>
                    forall k, l :: 0 <= k < l < |s.muxed| ==> s.muxed[l].dts >= Floor(f, s.muxed[k].dts))
  {
    hide AllStayInOrder, DtsRise, Repaired, RunFile;
    var start := FreshFile(cs);
    forall k | 0 <= k < |cs| ensures Inv(f, cs[k], false, start.streams[k]) {
      FreshInv(f, cs[k]);
    }
    RunFileKeeps(f, cs, start, es);
    RunOffers(f, cs, start, es, i);
    var r := RunFile(f, cs, start, es);
    if r.Some? {
      StreamAfterRun(f, cs[i], r.value.header, r.value.streams[i]);
    }
  }

  /** Streams change time base only with the header, and only with nothing in their queue. */
  ghost predicate BaseInv(s: File) {
    !s.header ==> forall i :: 0 <= i < |s.streams| ==> !s.streams[i].direct
  }

  lemma {:induction false} DrainKeepsBase(f: FileCfg, c: StreamCfg, s: Stream)
    ensures Drain(f, c, s).Some? ==> Drain(f, c, s).value.direct == s.direct
    decreases |s.queue|
  {
    hide Repaired, Candidate, NeedsBump;
    if s.queue != [] {
      var r := Mux(f, c, s.(queue := s.queue[1..]), s.queue[0]);
      if r.Some? {
        DrainKeepsBase(f, c, r.value);
      }
    }
  }

  lemma {:induction false} StepBase(f: FileCfg, cs: seq<StreamCfg>, s: File, e: Event, i: nat)
    requires |s.streams| == |cs| && i < |cs| && Sensible(cs, s, e) && BaseInv(s) && FileStep(f, cs, s, e).Some?
    ensures var s' := FileStep(f, cs, s, e).value;
            && BaseInv(s')
            && (s'.streams[i].direct <==> s.streams[i].direct || (e.Header? && s.streams[i].queue == []))
  {
    hide Drain, Repaired, Candidate, NeedsBump;
    if e.Header? {
      DrainKeepsBase(f, cs[i], if s.streams[i].queue == [] then s.streams[i].(direct := true) else s.streams[i]);
    }
  }

  lemma {:induction false} RunBase(f: FileCfg, cs: seq<StreamCfg>, s: File, es: seq<Event>, i: nat)
    requires |s.streams| == |cs| && i < |cs| && BaseInv(s) && RunFile(f, cs, s, es).Some?
    ensures var r := RunFile(f, cs, s, es).value;
            && BaseInv(r) && (s.header ==> r.header && r.streams[i].direct == s.streams[i].direct)
    decreases |es|
  {
    hide FileStep;
    if es != [] {
      StepBase(f, cs, s, es[0], i);
      StepHeader(f, cs, s, es[0]);
      RunBase(f, cs, FileStep(f, cs, s, es[0]).value, es[1..], i);
    }
  }

  lemma {:induction false} StepHeader(f: FileCfg, cs: seq<StreamCfg>, s: File, e: Event)
    requires |s.streams| == |cs| && Sensible(cs, s, e) && FileStep(f, cs, s, e).Some?
    ensures FileStep(f, cs, s, e).value.header <==> s.header || e.Header?
  {
  }

  lemma {:induction false} RunSplit(f: FileCfg, cs: seq<StreamCfg>, s: File, a: seq<Event>, b: seq<Event>)
    requires |s.streams| == |cs| && RunFile(f, cs, s, a + b).Some?
    ensures RunFile(f, cs, s, a).Some? && RunFile(f, cs, RunFile(f, cs, s, a).value, b) == RunFile(f, cs, s, a + b)
    decreases |a|
  {
    if a == [] {
      assert a + b == b;
    } else {
      assert (a + b)[0] == a[0] && (a + b)[1..] == a[1..] + b;
      RunSplit(f, cs, FileStep(f, cs, s, a[0]).value, a[1..], b);
    }
  }

  /** Timestamps are rescaled throughout in a stream exactly when it had accepted a packet before
      the header was written. */
  lemma {:induction false} TimeBase(f: FileCfg, cs: seq<StreamCfg>, before: seq<Event>, after: seq<Event>, i: nat)
    requires i < |cs| && forall k :: 0 <= k < |cs| ==> Ranged(cs[k])
    requires RunFile(f, cs, FreshFile(cs), before + ([Header] + after)).Some?
    ensures RunFile(f, cs, FreshFile(cs), before).Some?
    ensures RunFile(f, cs, FreshFile(cs), before + ([Header] + after)).value.streams[i].direct
       <==> RunFile(f, cs, FreshFile(cs), before).value.streams[i].accepted == []
  {
    var start := FreshFile(cs);
    assert BaseInv(start);
    forall k | 0 <= k < |cs| ensures Inv(f, cs[k], false, start.streams[k]) {
      FreshInv(f, cs[k]);
    }
    RunSplit(f, cs, start, before, [Header] + after);
    RunFileKeeps(f, cs, start, before);
    RunBase(f, cs, start, before, i);
    var s := RunFile(f, cs, start, before).value;
    assert Inv(f, cs[i], s.header, s.streams[i]);
    hide FileStep, Inv;
    assert ([Header] + after)[1..] == after;
    assert Sensible(cs, s, Header);
    StepBase(f, cs, s, Header, i);
    StepHeader(f, cs, s, Header);
    RunBase(f, cs, FileStep(f, cs, s, Header).value, after, i);
    EmptyQueue(f, cs[i], s.streams[i]);
  }

  lemma {:induction false} EmptyQueue(f: FileCfg, c: StreamCfg, s: Stream)
    requires Inv(f, c, false, s)
    ensures s.queue == [] <==> s.accepted == []
  {
  }

  /** What the invariant says of one stream. */
  lemma {:induction false} StreamAfterRun(f: FileCfg, c: StreamCfg, header: bool, s: Stream)
    requires Inv(f, c, header, s)
    ensures s.accepted == if (c.kind.Video? && c.encodingNeeded) || |s.offered| <= c.maxFrames then s.offered
                          else s.offered[..c.maxFrames]
    ensures forall k :: 0 <= k < |s.muxed| ==>
              && s.muxed[k].payload == s.accepted[k].payload
              && TimesWritten(f, c, s.direct, Before(s.muxed, k), s.accepted[k], s.muxed[k])
    ensures Ordered(f, c) ==>
              (DtsRise(f, s.muxed) <==> AllStayInOrder(f, c, s.direct, s.muxed, s.accepted))
    ensures Ordered(f, c) && !c.dropTimestamps && (forall k :: 0 <= k < |s.offered| ==> s.offered[k].dts != NOPTS) ==>
              forall k, l :: 0 <= k < l < |s.muxed| ==> s.muxed[l].dts >= Floor(f, s.muxed[k].dts)
  {
    hide AllStayInOrder, DtsRise, Repaired;
    WrittenIsLegal(f, c, s.direct, s.muxed, s.accepted);
    if Ordered(f, c) {
      WrittenRisesIff(f, c, s.direct, s.muxed, s.accepted);
      if !c.dropTimestamps && forall k :: 0 <= k < |s.offered| ==> s.offered[k].dts != NOPTS {
        AllDefinedRises(f, c, s.direct, s.muxed, s.accepted);
      }
    }
  }

  /** A packet without decoding time resets the check: a later one may then go back. */
  lemma {:induction false} UndefinedDtsResets()
    ensures var f := FileCfg(false, false, false);
            var c := StreamCfg(Audio, true, false, 100, 128, false, t => t);
            var es := [Header, NewPacket(0, Packet(1, 50, 50)), NewPacket(0, Packet(2, 60, NOPTS)),
                       NewPacket(0, Packet(3, 10, 10))];
            var r := RunFile(f, [c], FreshFile([c]), es);
            r.Some? && |r.value.streams[0].muxed| == 3
            && r.value.streams[0].muxed[0].dts == 50 && r.value.streams[0].muxed[2].dts == 10
  {
    var f := FileCfg(false, false, false);
    var c := StreamCfg(Audio, true, false, 100, 128, false, t => t);
    var p, q, t := Packet(1, 50, 50), Packet(2, 60, NOPTS), Packet(3, 10, 10);
    var es := [Header, NewPacket(0, p), NewPacket(0, q), NewPacket(0, t)];
    HeaderOfOne(f, c);
    var s1 := Fresh().(direct := true);
    PacketOfOne(f, c, s1, p);
    var s2 := Mux(f, c, Taken(c, s1, p), p).value;
    PacketOfOne(f, c, s2, q);
    var s3 := Mux(f, c, Taken(c, s2, q), q).value;
    PacketOfOne(f, c, s3, t);
    hide FileStep;
    var e1, e2, e3 := es[1..], es[2..], es[3..];
    assert es[1..] == e1 && e1[1..] == e2 && e2[1..] == e3 && e3[1..] == [];
    var s4 := Mux(f, c, Taken(c, s3, t), t).value;
    assert RunFile(f, [c], File(true, [s3]), e3) == RunFile(f, [c], File(true, [s4]), []);
    assert RunFile(f, [c], File(true, [s2]), e2) == RunFile(f, [c], File(true, [s3]), e3);
    assert RunFile(f, [c], File(true, [s1]), e1) == RunFile(f, [c], File(true, [s2]), e2);
  }

  lemma {:induction false} HeaderOfOne(f: FileCfg, c: StreamCfg)
    ensures FileStep(f, [c], FreshFile([c]), Header) == Some(File(true, [Fresh().(direct := true)]))
  {
    assert FreshFile([c]).streams == [Fresh()];
    assert Flush(f, c, Fresh()) == Some(Fresh().(direct := true));
    hide Flush;
    var s := Fresh().(direct := true);
    assert [Fresh()][0 := s] == [s];
    assert FlushFrom(f, [c], [Fresh()], 0) == FlushFrom(f, [c], [s], 1);
  }

  lemma {:induction false} PacketOfOne(f: FileCfg, c: StreamCfg, s: Stream, p: Packet)
    requires Representable(p) && s.frameNumber < c.maxFrames && !f.exitOnError
    ensures var r := Mux(f, c, Taken(c, s, p), p);
            r.Some? && FileStep(f, [c], File(true, [s]), NewPacket(0, p)) == Some(File(true, [r.value]))
  {
    hide Repaired, Candidate, NeedsBump;
    assert [s][0 := Mux(f, c, Taken(c, s, p), p).value] == [Mux(f, c, Taken(c, s, p), p).value];
  }

  // The objects

  class OutputStream {
    const cfg: StreamCfg
    var frameNumber: nat
    var queue: seq<Packet>
    var capacity: nat
    var lastMuxDts: int
    var direct: bool
    ghost var muxed: seq<Packet>
    ghost var accepted: seq<Packet>
    ghost var offered: seq<Packet>

    ghost function State(): Stream
      reads this
    {
      Stream(frameNumber, queue, capacity, lastMuxDts, direct, muxed, accepted, offered)
    }

    constructor (cfg: StreamCfg)
      ensures this.cfg == cfg && State() == Fresh()
    {
      this.cfg := cfg;
      frameNumber, queue, capacity, lastMuxDts, direct := 0, [], 8, NOPTS, false;
      muxed, accepted, offered := [], [], [];
    }

    /** unqueue: the packet comes from the queue and has been counted already. */
    method WritePacket(f: FileCfg, header: bool, pkt: Packet, unqueue: bool) returns (exited: bool)
      requires unqueue ==> header
      modifies this
      ensures !unqueue ==> exited == Write(f, cfg, header, old(State()), pkt).None?
      ensures !unqueue && !exited ==> State() == Write(f, cfg, header, old(State()), pkt).value
      ensures unqueue ==> exited == Mux(f, cfg, old(State()), pkt).None?
      ensures unqueue && !exited ==> State() == Mux(f, cfg, old(State()), pkt).value
    {
      if !unqueue {
        offered := offered + [pkt];
        if Counted(cfg) {
          if frameNumber >= cfg.maxFrames {
            return false;
          }
          frameNumber := frameNumber + 1;
        }
        accepted := accepted + [pkt];
      }
      if !header {
        if |queue| >= capacity {
          var grown := if 2 * |queue| <= cfg.maxQueue then 2 * |queue| else cfg.maxQueue;
          if grown <= |queue| {
            return true;
          }
          capacity := grown;
        }
        queue := queue + [pkt];
        return false;
      }
      exited := MuxPacket(f, pkt);
    }

    method MuxPacket(f: FileCfg, pkt: Packet) returns (exited: bool)
      modifies this`lastMuxDts, this`muxed
      ensures exited == Mux(f, cfg, old(State()), pkt).None?
      ensures !exited ==> State() == Mux(f, cfg, old(State()), pkt).value
    {
      var pts, dts := pkt.pts, pkt.dts;
      if cfg.dropTimestamps {
        pts, dts := NOPTS, NOPTS;
      }
      pts, dts := Rescale(cfg, direct, pts), Rescale(cfg, direct, dts);
      assert Converted(cfg, direct, pkt) == pkt.(pts := pts, dts := dts);
      hide Converted, Rescale;
      if !f.noTimestamps {
        if dts != NOPTS && pts != NOPTS && dts > pts {
          pts := pts + dts + lastMuxDts + 1 - Min3(pts, dts, lastMuxDts + 1) - Max3(pts, dts, lastMuxDts + 1);
          dts := pts;
        }
        assert Candidate(f, cfg, direct, lastMuxDts, pkt) == pkt.(pts := pts, dts := dts);
        hide Candidate, Guess;
        if !cfg.kind.Other? && dts != NOPTS && !cfg.vp9Copy && lastMuxDts != NOPTS {
          var max := lastMuxDts + if f.nonStrict then 0 else 1;
          if dts < max {
            if f.exitOnError {
              return true;
            }
            if pts >= dts {
              pts := if pts >= max then pts else max;
            }
            dts := max;
          }
        }
      }
      lastMuxDts := dts;
      muxed := muxed + [pkt.(pts := pts, dts := dts)];
      exited := false;
    }

    /** The flush of this stream's queue once the header is written. */
    method FlushQueue(f: FileCfg) returns (exited: bool)
      modifies this
      ensures exited == Flush(f, cfg, old(State())).None?
      ensures !exited ==> State() == Flush(f, cfg, old(State())).value
    {
      hide Mux;
      if |queue| == 0 {
        direct := true;
      }
      while |queue| > 0
        invariant Drain(f, cfg, State()) == Flush(f, cfg, old(State()))
        decreases |queue|
      {
        ghost var s := State();
        var pkt := queue[0];
        queue := queue[1..];
        MuxKeepsQueue(f, cfg, State(), pkt);
        exited := WritePacket(f, true, pkt, true);
        if exited {
          return;
        }
      }
      exited := false;
    }
  }

  lemma {:induction false} MuxKeepsQueue(f: FileCfg, c: StreamCfg, s: Stream, p: Packet)
    ensures Mux(f, c, s, p).Some? ==> Mux(f, c, s, p).value.queue == s.queue
  {
  }

  class OutputFile {
    const cfg: FileCfg
    const streams: seq<OutputStream>
    var headerWritten: bool

    ghost predicate Valid() {
      forall i, j :: 0 <= i < j < |streams| ==> streams[i] != streams[j]
    }

    ghost function Configs(): (r: seq<StreamCfg>)
      ensures |r| == |streams| && forall i :: 0 <= i < |r| ==> r[i] == streams[i].cfg
    {
      seq(|streams|, i requires 0 <= i < |streams| => streams[i].cfg)
    }

    ghost function States(): (r: seq<Stream>)
      reads streams
      ensures |r| == |streams| && forall i :: 0 <= i < |r| ==> r[i] == streams[i].State()
    {
      seq(|streams|, i requires 0 <= i < |streams| reads streams => streams[i].State())
    }

    ghost function State(): File
      reads this, streams
    {
      File(headerWritten, States())
    }

    constructor (cfg: FileCfg, streams: seq<OutputStream>)
      requires forall i, j :: 0 <= i < j < |streams| ==> streams[i] != streams[j]
      ensures Valid() && this.cfg == cfg && this.streams == streams && !headerWritten
    {
      this.cfg, this.streams, headerWritten := cfg, streams, false;
    }

    method Write(i: nat, pkt: Packet) returns (exited: bool)
      requires Valid() && i < |streams| && Representable(pkt)
      modifies streams
      ensures exited == FileStep(cfg, Configs(), old(State()), NewPacket(i, pkt)).None?
      ensures !exited ==> State() == FileStep(cfg, Configs(), old(State()), NewPacket(i, pkt)).value
    {
      ghost var ss := States();
      exited := streams[i].WritePacket(cfg, headerWritten, pkt, false);
      if !exited {
        assert States() == ss[i := streams[i].State()];
      }
    }

    /** Writes the header once every stream is initialised, then flushes all queues. */
    method CheckInitOutputFile(allInitialized: bool) returns (exited: bool)
      requires Valid() && !headerWritten
      modifies this, streams
      ensures !allInitialized ==> !exited && State() == old(State())
      ensures allInitialized ==> exited == FileStep(cfg, Configs(), old(State()), Header).None?
      ensures allInitialized && !exited ==> State() == FileStep(cfg, Configs(), old(State()), Header).value
    {
      if !allInitialized {
        return false;
      }
      headerWritten := true;
      exited := FlushAll();
    }

    /** Flushes the queues of all streams in order. */
    method FlushAll() returns (exited: bool)
      requires Valid()
      modifies streams
      ensures exited == FlushFrom(cfg, Configs(), old(States()), 0).None?
      ensures !exited ==> States() == FlushFrom(cfg, Configs(), old(States()), 0).value
    {
      hide Flush;
      ghost var ss := States();
      var i := 0;
      while i < |streams|
        invariant 0 <= i <= |streams|
        invariant FlushFrom(cfg, Configs(), ss, 0) == FlushFrom(cfg, Configs(), States(), i)
      {
        ghost var before := States();
        exited := streams[i].FlushQueue(cfg);
        if exited {
          return;
        }
        assert States() == before[i := streams[i].State()];
        i := i + 1;
      }
      exited := false;
    }
  }
}
